/** The pool-allocated four-level translation tables of silicon/aarch64/translate/mmu.c.

    The C code keeps raw 64-bit descriptors in `nxu_pt[64][512]` and mutates them in place.
    The class below does the same; two ghost maps say what the words mean:
    `site` gives the pool slot of every table in use, and `leafs` is the finite map from
    page to leaf word that the whole structure stands for. */
module PageTables {
  import opened Words

  const POOL: int := 64

  // Permission codes (translate/mmu.h).
  const MAP_RX: u32 := 1
  const MAP_R: u32 := 2
  const MAP_RW: u32 := 3
  const MAP_DEV: u32 := 4
  const MAP_USER_RX: u32 := 5
  const MAP_USER_RW: u32 := 6

  // Descriptor bits. The C code joins them with `|`; the fields are disjoint, so a sum is the same word.
  const PTE_VALID: int := 0x1
  const PTE_TABLE: int := 0x2
  const PTE_PAGE: int := 0x2
  const PTE_ATTR1: int := 0x4
  const PTE_ISH: int := 0x300
  const PTE_AF: int := 0x400
  const PTE_NX: int := 0x40_0000_0000_0000
  const PTE_PXN: int := 0x20_0000_0000_0000

  function LeafAttr(perm: u32): (a: u64)
    ensures a < 0x80_0000_0000_0000
  {
    var a := PTE_VALID + PTE_AF + PTE_ISH;
    if perm == MAP_DEV then a + PTE_NX + PTE_PXN + PTE_PAGE
    else
      var b := a + PTE_ATTR1;
      if perm == MAP_RX then b + 0x80 + PTE_NX + PTE_PAGE
      else if perm == MAP_USER_RX then b + 0xc0 + PTE_PXN + PTE_PAGE
      else if perm == MAP_USER_RW then b + 0x40 + PTE_NX + PTE_PXN + PTE_PAGE
      else if perm == MAP_R then b + 0x80 + PTE_NX + PTE_PXN + PTE_PAGE
      else b + PTE_NX + PTE_PXN + PTE_PAGE
  }

  // What the hardware reads from a stage-1 leaf: valid, AP[1] (EL0 access), AP[2] (read-only), UXN, PXN.
  predicate Present(w: u64) { w % 2 == 1 }
  predicate El0(w: u64) { w / 0x40 % 2 == 1 }
  predicate ReadOnly(w: u64) { w / 0x80 % 2 == 1 }
  predicate Uxn(w: u64) { w / 0x40_0000_0000_0000 % 2 == 1 }
  predicate Pxn(w: u64) { w / 0x20_0000_0000_0000 % 2 == 1 }

  // A table or page descriptor rather than a block, and the access flag.
  predicate TableOrPage(w: u64) { w % 4 == 3 }
  predicate Accessed(w: u64) { w / 0x400 % 2 == 1 }

  /** MAIR_EL1 as nxu_mmu_init_pool sets it, and the byte that an index selects. */
  const MAIR: u64 := 0xFF00

  function MairByte(mair: nat, i: nat): nat {
    if i == 0 then mair % 0x100 else MairByte(mair / 0x100, i - 1)
  }

  // Memory attributes: Device-nGnRnE, and Normal write-back with read and write allocation.
  const DEVICE: nat := 0x00
  const NORMAL: nat := 0xFF

  /** The output-address field, `e & 0x0000FFFFFFFFF000`. */
  function Output(w: u64): u64 {
    w % 0x1_0000_0000_0000 / 0x1000 * 0x1000
  }

  // ---- Pages and tables of the radix tree --------------------------------------------

  /** A page of the 48-bit space, by its four table indices. */
  datatype Page = Page(l0: nat, l1: nat, l2: nat, l3: nat)

  /** A table of the tree, by the indices that lead to it. */
  datatype Node = Root | Upper(l0: nat) | Middle(l0: nat, l1: nat) | Last(l0: nat, l1: nat, l2: nat)

  function Child(n: Node, i: nat): Node
    requires !n.Last?
  {
    match n
    case Root => Upper(i)
    case Upper(a) => Middle(a, i)
    case Middle(a, b) => Last(a, b, i)
  }

  predicate PageOk(p: Page) {
    p.l0 < 512 && p.l1 < 512 && p.l2 < 512 && p.l3 < 512
  }

  function Table(p: Page): Node {
    Last(p.l0, p.l1, p.l2)
  }

  /** The shifts and masks at the head of map_page and nxu_mmu_leaf. */
  function PageOf(pa: u64): (p: Page)
    ensures PageOk(p)
  {
    Page(pa / 0x80_0000_0000 % 512, pa / 0x4000_0000 % 512, pa / 0x20_0000 % 512, pa / 0x1000 % 512)
  }

  function PageNumber(p: Page): nat {
    ((p.l0 * 512 + p.l1) * 512 + p.l2) * 512 + p.l3
  }

  function LeafWord(p: Page, perm: u32): u64
    requires PageOk(p)
  {
    PageNumber(p) * 0x1000 + LeafAttr(perm)
  }

  ghost predicate IsLeafWord(p: Page, w: u64) {
    PageOk(p) && exists perm: u32 :: w == LeafWord(p, perm)
  }

  lemma Shift21(pa: u64)
    ensures pa / 0x20_0000 == pa / 0x1000 / 512
  {
    var x := pa / 0x1000;
    assert pa == x / 512 * 0x20_0000 + x % 512 * 0x1000 + pa % 0x1000;
  }

  lemma Shift30(pa: u64)
    ensures pa / 0x4000_0000 == pa / 0x20_0000 / 512
  {
    var x := pa / 0x20_0000;
    assert pa == x / 512 * 0x4000_0000 + x % 512 * 0x20_0000 + pa % 0x20_0000;
  }

  lemma Shift39(pa: u64)
    ensures pa / 0x80_0000_0000 == pa / 0x4000_0000 / 512
  {
    var x := pa / 0x4000_0000;
    assert pa == x / 512 * 0x80_0000_0000 + x % 512 * 0x4000_0000 + pa % 0x4000_0000;
  }

  lemma LowBits(pa: u64, n: nat)
    requires n < 0x10_0000_0000 && (pa / 0x1000 - n) % 0x10_0000_0000 == 0
    ensures pa / 0x1000 % 0x10_0000_0000 == n
    ensures Output(pa) == n * 0x1000
  {
    var d := (pa / 0x1000 - n) / 0x10_0000_0000;
    assert pa / 0x1000 == d * 0x10_0000_0000 + n;
    By48(d, n * 0x1000 + pa % 0x1000);
    By1000(n, pa % 0x1000);
  }

  /** The four indices carry exactly bits 12 to 47 of the address. */
  lemma PageNumberOf(pa: u64)
    ensures PageNumber(PageOf(pa)) == pa / 0x1000 % 0x10_0000_0000
    ensures Output(pa) == PageNumber(PageOf(pa)) * 0x1000
  {
    Shift21(pa);
    Shift30(pa);
    Shift39(pa);
    var x, a, b, c := pa / 0x1000, pa / 0x20_0000, pa / 0x4000_0000, pa / 0x80_0000_0000;
    var n := ((c % 512 * 512 + b % 512) * 512 + a % 512) * 512 + x % 512;
    assert x - n == c / 512 * 0x10_0000_0000;
    LowBits(pa, n);
  }

  /** The word map_page stores: `(pa & 0x0000FFFFFFFFF000) | leaf_attr(perm)`. */
  function LeafFor(pa: u64, perm: u32): (w: u64)
    ensures w == LeafWord(PageOf(pa), perm)
  {
    PageNumberOf(pa);
    Output(pa) + LeafAttr(perm)
  }

  lemma Digit(a: nat, i: nat, b: nat, j: nat)
    requires i < 512 && j < 512 && a * 512 + i == b * 512 + j
    ensures a == b && i == j
  {
  }

  lemma PageNumberInjective(p: Page, q: Page)
    requires PageOk(p) && PageOk(q) && PageNumber(p) == PageNumber(q)
    ensures p == q
  {
    Digit((p.l0 * 512 + p.l1) * 512 + p.l2, p.l3, (q.l0 * 512 + q.l1) * 512 + q.l2, q.l3);
    Digit(p.l0 * 512 + p.l1, p.l2, q.l0 * 512 + q.l1, q.l2);
    Digit(p.l0, p.l1, q.l0, q.l1);
  }

  /** Bits 12 to 47 of two addresses are equal. */
  predicate SameFrame(a: int, b: int) {
    a / 0x1000 % 0x10_0000_0000 == b / 0x1000 % 0x10_0000_0000
  }

  /** Two addresses share a page exactly when they agree in bits 12 to 47: below 2^48 that is the
      page of memory itself, and from 2^48 up an address shares the page of its low 48 bits. */
  lemma SamePage(a: u64, b: u64)
    ensures PageOf(a) == PageOf(b) <==> SameFrame(a, b)
    ensures a < TWO48 && b < TWO48 ==> (PageOf(a) == PageOf(b) <==> a / 0x1000 == b / 0x1000)
  {
    hide PageOf, PageNumber;
    PageNumberOf(a);
    PageNumberOf(b);
    if SameFrame(a, b) { PageNumberInjective(PageOf(a), PageOf(b)); }
  }

  // Division by one constant at a time: each of these is a single linear fact.
  lemma By2(q: nat, r: nat)
    requires r < 2
    ensures (q * 2 + r) % 2 == r
  {
  }

  lemma By40(q: nat, r: nat)
    requires r < 0x40
    ensures (q * 0x40 + r) / 0x40 == q
  {
  }

  lemma By80(q: nat, r: nat)
    requires r < 0x80
    ensures (q * 0x80 + r) / 0x80 == q
  {
  }

  lemma ByPxn(q: nat, r: nat)
    requires r < PTE_PXN
    ensures (q * PTE_PXN + r) / PTE_PXN == q
  {
  }

  lemma ByNx(q: nat, r: nat)
    requires r < PTE_NX
    ensures (q * PTE_NX + r) / PTE_NX == q
  {
  }

  lemma By48(q: nat, r: nat)
    requires r < TWO48
    ensures (q * TWO48 + r) % 0x1_0000_0000_0000 == r
  {
  }

  lemma By1000(q: nat, r: nat)
    requires r < 0x1000
    ensures (q * 0x1000 + r) / 0x1000 == q
  {
  }

  /** The low attribute bits of a leaf word are those of its low field. */
  lemma LowFields(n: nat, lo: nat, hi: nat)
    ensures (n * 0x1000 + lo + hi * PTE_PXN) % 2 == lo % 2
    ensures (n * 0x1000 + lo + hi * PTE_PXN) / 0x40 % 2 == lo / 0x40 % 2
    ensures (n * 0x1000 + lo + hi * PTE_PXN) / 0x80 % 2 == lo / 0x80 % 2
  {
    var k := n * 0x10 + hi * 0x2000_0000_0000;
    By2(k * 0x80 + lo / 2, lo % 2);
    By40(k * 4 + lo / 0x40, lo % 0x40);
    By2(k * 2 + lo / 0x40 / 2, lo / 0x40 % 2);
    By80(k * 2 + lo / 0x80, lo % 0x80);
    By2(k + lo / 0x80 / 2, lo / 0x80 % 2);
  }

  /** Bits 53 and 54 come from the high field and bits 12 to 47 are the frame. */
  lemma HighFields(n: nat, lo: nat, hi: nat)
    requires n < 0x10_0000_0000 && lo < 0x1000
    ensures (n * 0x1000 + lo + hi * PTE_PXN) / PTE_PXN % 2 == hi % 2
    ensures (n * 0x1000 + lo + hi * PTE_PXN) / PTE_NX % 2 == hi / 2 % 2
    ensures (n * 0x1000 + lo + hi * PTE_PXN) % 0x1_0000_0000_0000 / 0x1000 * 0x1000 == n * 0x1000
  {
    ByPxn(hi, n * 0x1000 + lo);
    ByNx(hi / 2, hi % 2 * PTE_PXN + n * 0x1000 + lo);
    By48(hi * 0x20, n * 0x1000 + lo);
    By1000(n, lo);
  }

  /** A multiple of `m * d` does not show in what `d` leaves over, and is a multiple of `m` above it. */
  lemma Field(q: nat, r: nat, m: nat, d: nat)
    requires 0 < d
    ensures (q * (m * d) + r) / d == q * m + r / d && (q * (m * d) + r) % d == r % d
  {
    var x, n := q * m, r / d;
    assert q * (m * d) == x * d;
    assert r == n * d + r % d;
    Splits(x + n, r % d, d);
    assert (x + n) * d == x * d + n * d;
  }

  lemma Splits(n: nat, r: nat, d: nat)
    requires r < d
    ensures (n * d + r) / d == n && (n * d + r) % d == r
  {
    var a := n * d + r;
    var k := a / d - n;
    assert k * d == a / d * d - n * d == r - a % d;
    Multiple(k, d);
  }

  lemma Multiple(k: int, d: nat)
    ensures k * d >= d || k * d + d <= 0 || k == 0
  {
  }

  lemma Times4Bits(q: nat, r: nat)
    requires r < 0x1000
    ensures (q * 0x1000 + r) / 4 % 8 == r / 4 % 8 && (q * 0x1000 + r) % 4 == r % 4
  {
    Field(q, r, 0x400, 4);
    Field(q, r / 4, 0x80, 8);
  }

  lemma Times100Bits(q: nat, r: nat)
    requires r < 0x1000
    ensures (q * 0x1000 + r) / 0x100 % 4 == r / 0x100 % 4
  {
    Field(q, r, 0x10, 0x100);
    Field(q, r / 0x100, 4, 4);
  }

  lemma Times400Bits(q: nat, r: nat)
    requires r < 0x1000
    ensures (q * 0x1000 + r) / 0x400 % 2 == r / 0x400 % 2
  {
    Field(q, r, 4, 0x400);
    Field(q, r / 0x400, 2, 2);
  }

  /** The memory type of a page, and the rest of what lets an access through: a page descriptor with the
      access flag set, inner shareable, Device for MMIO and Normal write-back for all else. */
  lemma MemoryType(p: Page, perm: u32)
    requires PageOk(p)
    ensures var w := LeafWord(p, perm);
            && w % 4 == 3 && w / 0x400 % 2 == 1 && w / 0x100 % 4 == 3
            && w / 4 % 8 == (if perm == MAP_DEV then 0 else 1)
            && MairByte(0xFF00, w / 4 % 8) == if perm == MAP_DEV then DEVICE else NORMAL
  {
    hide PageNumber;
    var hi := if perm == MAP_RX then 2 else if perm == MAP_USER_RX then 1 else 3;
    var lo := LeafAttr(perm) - hi * PTE_PXN;
    var q := PageNumber(p) + hi * 0x200_0000_0000;
    assert LeafWord(p, perm) == q * 0x1000 + lo;
    Times4Bits(q, lo);
    Times100Bits(q, lo);
    Times400Bits(q, lo);
    assert MairByte(MAIR, 1) == MairByte(0xFF, 0) == 0xFF;
  }

  /** What the hardware reads from the word of a page, permission by permission. */
  lemma LeafBits(p: Page, perm: u32)
    requires PageOk(p)
    ensures var w := LeafWord(p, perm);
            && Present(w) && Output(w) == PageNumber(p) * 0x1000
            && (El0(w) <==> perm == MAP_USER_RX || perm == MAP_USER_RW)
            && (ReadOnly(w) <==> perm == MAP_RX || perm == MAP_R || perm == MAP_USER_RX)
            && (Uxn(w) <==> perm != MAP_USER_RX)
            && (Pxn(w) <==> perm != MAP_RX)
  {
    hide PageNumber;
    PageNumberBound(p);
    var hi := if perm == MAP_RX then 2 else if perm == MAP_USER_RX then 1 else 3;
    var lo := LeafAttr(perm) - hi * PTE_PXN;
    LowFields(PageNumber(p), lo, hi);
    HighFields(PageNumber(p), lo, hi);
  }

  lemma PageNumberBound(p: Page)
    requires PageOk(p)
    ensures PageNumber(p) < 0x10_0000_0000
  {
  }

  /** No physical page is ever writable and executable: every leaf maps its page to itself,
      so no page has two words, and a writable word forbids execution at both levels. */
  lemma WriteXorExecute(leafs: map<Page, u64>)
    requires LeafsOk(leafs)
    ensures forall p <- leafs :: Present(leafs[p]) && Output(leafs[p]) == PageNumber(p) * 0x1000
    ensures forall p <- leafs :: !ReadOnly(leafs[p]) ==> Uxn(leafs[p]) && Pxn(leafs[p])
    ensures forall p <- leafs, q <- leafs :: Output(leafs[p]) == Output(leafs[q]) ==> p == q
  {
    hide PageNumber, LeafWord, Present, Output, ReadOnly, Uxn, Pxn, El0;
    forall p <- leafs
      ensures Present(leafs[p]) && Output(leafs[p]) == PageNumber(p) * 0x1000 && PageOk(p)
      ensures !ReadOnly(leafs[p]) ==> Uxn(leafs[p]) && Pxn(leafs[p])
    {
      var perm: u32 :| leafs[p] == LeafWord(p, perm);
      LeafBits(p, perm);
    }
    forall p <- leafs, q <- leafs | Output(leafs[p]) == Output(leafs[q]) ensures p == q {
      PageNumberInjective(p, q);
    }
  }

  /** The tables a set of mapped pages needs: the root and one table per distinct prefix. */
  ghost function Nodes(pages: set<Page>): set<Node> {
    {Root} + (set p | p in pages :: Upper(p.l0))
           + (set p | p in pages :: Middle(p.l0, p.l1))
           + (set p | p in pages :: Table(p))
  }

  lemma NodesAdd(pages: set<Page>, p: Page)
    ensures Nodes(pages + {p}) == Nodes(pages) + {Upper(p.l0), Middle(p.l0, p.l1), Last(p.l0, p.l1, p.l2)}
  {
  }

  // The 9-, 18- and 27-bit prefixes of a set of pages.
  ghost function Prefixes9(pages: set<Page>): set<nat> {
    set p | p in pages :: p.l0
  }

  ghost function Prefixes18(pages: set<Page>): set<(nat, nat)> {
    set p | p in pages :: (p.l0, p.l1)
  }

  ghost function Prefixes27(pages: set<Page>): set<(nat, nat, nat)> {
    set p | p in pages :: (p.l0, p.l1, p.l2)
  }

  lemma {:induction false} ImageSize<A, B>(s: set<A>, t: set<B>, f: A -> B, g: B -> A)
    requires forall x <- s :: f(x) in t && g(f(x)) == x
    requires forall y <- t :: g(y) in s && f(g(y)) == y
    ensures |s| == |t|
  {
    if s == {} {
      assert t == {};
    } else {
      var x :| x in s;
      ImageSize(s - {x}, t - {f(x)}, f, g);
    }
  }

  lemma UpperCount(pages: set<Page>)
    ensures |set p | p in pages :: Upper(p.l0)| == |Prefixes9(pages)|
  {
    ImageSize<nat, Node>(Prefixes9(pages), set p | p in pages :: Upper(p.l0),
                         (x: nat) => Upper(x), (n: Node) => if n.Upper? then n.l0 else 0);
  }

  lemma MiddleCount(pages: set<Page>)
    ensures |set p | p in pages :: Middle(p.l0, p.l1)| == |Prefixes18(pages)|
  {
    ImageSize(Prefixes18(pages), set p | p in pages :: Middle(p.l0, p.l1),
              (x: (nat, nat)) => Middle(x.0, x.1), (n: Node) => if n.Middle? then (n.l0, n.l1) else (0, 0));
  }

  lemma LastCount(pages: set<Page>)
    ensures |set p | p in pages :: Table(p)| == |Prefixes27(pages)|
  {
    ImageSize(Prefixes27(pages), set p | p in pages :: Table(p),
              (x: (nat, nat, nat)) => Last(x.0, x.1, x.2),
              (n: Node) => if n.Last? then (n.l0, n.l1, n.l2) else (0, 0, 0));
  }

  lemma DisjointSizes(a: set<Node>, b: set<Node>, c: set<Node>, d: set<Node>)
    requires forall n <- a :: n.Root?
    requires forall n <- b :: n.Upper?
    requires forall n <- c :: n.Middle?
    requires forall n <- d :: n.Last?
    ensures |a + b + c + d| == |a| + |b| + |c| + |d|
  {
    assert a !! b && (a + b) !! c && (a + b + c) !! d;
  }

  /** The tables needed are one root and one table for each distinct prefix of each length. */
  lemma NodesCount(pages: set<Page>)
    ensures |Nodes(pages)| == 1 + |Prefixes9(pages)| + |Prefixes18(pages)| + |Prefixes27(pages)|
  {
    hide Prefixes9, Prefixes18, Prefixes27;
    UpperCount(pages);
    MiddleCount(pages);
    LastCount(pages);
    DisjointSizes({Root}, set p | p in pages :: Upper(p.l0), set p | p in pages :: Middle(p.l0, p.l1),
                  set p | p in pages :: Table(p));
  }

  lemma SubsetSize<T>(a: set<T>, b: set<T>)
    requires a <= b
    ensures |a| <= |b|
  {
    assert b == a + (b - a);
  }

  /** If a full pool lacks a needed table, more tables are needed than the pool has. */
  lemma Exceeds(have: set<Node>, missing: Node, needed: set<Node>)
    requires have <= needed && missing in needed && missing !in have && |have| >= POOL
    ensures |needed| > POOL
  {
    SubsetSize(have + {missing}, needed);
  }

  /** The pages that the bytes [pa, pa + size) touch. */
  ghost function Touched(pa: u64, size: u64): (ps: set<Page>)
    ensures forall p <- ps :: PageOk(p)
  {
    set a: u64 | pa <= a < pa + size :: PageOf(a)
  }

  /** The finite map after mapping a set of pages with one permission. */
  ghost function Mapped(m: map<Page, u64>, ps: set<Page>, perm: u32): map<Page, u64>
    requires forall p <- ps :: PageOk(p)
  {
    map p | p in m.Keys + ps :: if p in ps then LeafWord(p, perm) else m[p]
  }

  function Lookup(m: map<Page, u64>, p: Page): u64 {
    if p in m then m[p] else 0
  }

  lemma TouchedNext(pa: u64, size: u64)
    requires pa % 0x1000 == 0 && size % 0x1000 == 0 && pa + size + 0x1000 < TWO64
    ensures Touched(pa, size + 0x1000) == Touched(pa, size) + {PageOf(pa + size)}
  {
    hide PageOf;
    var all := Touched(pa, size + 0x1000);
    forall p | p in all ensures p in Touched(pa, size) + {PageOf(pa + size)} {
      var a: u64 :| pa <= a < pa + size + 0x1000 && p == PageOf(a);
      if a >= pa + size { SamePage(a, pa + size); }
    }
    assert PageOf(pa + size) in all;
    forall p | p in Touched(pa, size) ensures p in all {
      var a: u64 :| pa <= a < pa + size && p == PageOf(a);
    }
  }

  lemma TouchedNone(pa: u64)
    ensures Touched(pa, 0) == {}
  {
  }

  lemma TouchedGrows(pa: u64, small: u64, large: u64)
    requires small <= large
    ensures Touched(pa, small) <= Touched(pa, large)
  {
  }

  lemma NodesGrow(small: set<Page>, large: set<Page>)
    requires small <= large
    ensures |Nodes(small)| <= |Nodes(large)|
  {
    SubsetSize(Nodes(small), Nodes(large));
  }

  /** The page table cannot tell some byte of the range from address `q`. */
  ghost predicate Meets(r: Range, q: u64) {
    exists a :: InRange(a, r.base, r.size) && SameFrame(a, q)
  }

  lemma TouchedMeans(pa: u64, size: u64, q: u64)
    requires pa + size <= TWO64
    ensures PageOf(q) in Touched(pa, size) <==> Meets(Range(pa, size), q)
  {
    hide PageOf, SameFrame;
    if PageOf(q) in Touched(pa, size) {
      var a: u64 :| pa <= a < pa + size && PageOf(q) == PageOf(a);
      SamePage(a, q);
      assert InRange(a, pa, size);
    }
    forall a | InRange(a, pa, size) && SameFrame(a, q) ensures PageOf(q) in Touched(pa, size) {
      SamePage(a, q);
    }
  }

  /** After a range is mapped, a lookup gives the frame with the new attributes for every address
      on a page that the range meets, and its old value everywhere else below 2^48. */
  lemma MapThenLookup(m: map<Page, u64>, pa: u64, size: u64, perm: u32, q: u64)
    requires pa + size <= TWO64 && q < TWO48
    ensures Lookup(Mapped(m, Touched(pa, size), perm), PageOf(q)) ==
            if Meets(Range(pa, size), q) then q / 0x1000 * 0x1000 + LeafAttr(perm) else Lookup(m, PageOf(q))
  {
    hide PageOf, PageNumber, LeafAttr, Touched, Meets;
    TouchedMeans(pa, size, q);
    PageNumberOf(q);
  }

  /** Address `q` lies on a page that holds a byte of the range. */
  ghost predicate OnPage(r: Range, q: u64) {
    exists a :: InRange(a, r.base, r.size) && a / 0x1000 == q / 0x1000
  }

  /** Below 2^48 a range meets the pages that hold its bytes. */
  lemma MeetsBelow(r: Range, q: u64)
    requires r.base + r.size <= TWO48 && q < TWO48
    ensures Meets(r, q) <==> OnPage(r, q)
  {
    forall a | InRange(a, r.base, r.size) ensures SameFrame(a, q) <==> a / 0x1000 == q / 0x1000 {
      FrameBelow(a);
      FrameBelow(q);
    }
  }

  lemma FrameBelow(a: int)
    requires 0 <= a < TWO48
    ensures a / 0x1000 % 0x10_0000_0000 == a / 0x1000
  {
  }

  /** A range of whole pages meets the addresses inside it. */
  lemma PagesMeet(r: Range, q: u64)
    requires r.base % 0x1000 == 0 && r.size % 0x1000 == 0 && r.base + r.size <= TWO48 && q < TWO48
    ensures Meets(r, q) <==> InRange(q, r.base, r.size)
  {
    hide Meets;
    MeetsBelow(r, q);
    if a :| InRange(a, r.base, r.size) && a / 0x1000 == q / 0x1000 {
      SameSide(r.base, a, q);
      SameSide(r.base + r.size, a, q);
    }
  }

  /** Addresses of one page are on the same side of a page boundary. */
  lemma SameSide(edge: int, a: int, q: int)
    requires edge % 0x1000 == 0 && a / 0x1000 == q / 0x1000
    ensures edge <= a <==> edge <= q
  {
    assert edge / 0x1000 * 0x1000 == edge;
  }

  // ---- What the raw words must be, given where each table lives ----------------------

  type Raw = seq<seq<u64>>

  ghost predicate Dims(raw: Raw) {
    |raw| == POOL && forall t | 0 <= t < POOL :: |raw[t]| == 512
  }

  /** The tables in use: each at its own slot, each below another table in use, all of them
      accounted for by the allocation count; every mapped page has its last-level table. */
  ghost predicate SiteOk(site: map<Node, nat>, used: nat, leafs: map<Page, u64>) {
    && 1 <= used <= POOL && used == |site|
    && Root in site && site[Root] == 0
    && (forall n <- site :: site[n] < used)
    && (forall n <- site, m <- site :: site[n] == site[m] ==> n == m)
    && (forall n: Node, i: nat | !n.Last? && Child(n, i) in site :: n in site)
    && (forall p <- leafs :: Table(p) in site)
  }

  function TableAddress(base: u64, slot: nat): nat {
    base + slot * 0x1000
  }

  /** The descriptor that entry `i` of table `n` holds. */
  ghost function Word(site: map<Node, nat>, leafs: map<Page, u64>, base: u64, n: Node, i: nat): int {
    if n.Last? then
      var p := Page(n.l0, n.l1, n.l2, i);
      if p in leafs then leafs[p] else 0
    else
      var c := Child(n, i);
      if c in site then TableAddress(base, site[c]) + PTE_VALID + PTE_TABLE else 0
  }

  /** Every raw word of the pool is accounted for. */
  ghost predicate WordsOk(raw: Raw, site: map<Node, nat>, used: nat, leafs: map<Page, u64>, base: u64)
    requires Dims(raw) && forall n <- site :: site[n] < POOL
  {
    && (forall n <- site, i: nat | i < 512 :: raw[site[n]][i] == Word(site, leafs, base, n, i))
    && (forall t: nat, i: nat | used <= t < POOL && i < 512 :: raw[t][i] == 0)
  }

  ghost predicate ShapeOk(raw: Raw, site: map<Node, nat>, used: nat, leafs: map<Page, u64>, base: u64) {
    Dims(raw) && SiteOk(site, used, leafs) && WordsOk(raw, site, used, leafs, base)
  }

  ghost predicate LeafsOk(leafs: map<Page, u64>) {
    forall p <- leafs :: IsLeafWord(p, leafs[p])
  }

  lemma LeafsAdd(leafs: map<Page, u64>, p: Page, perm: u32)
    requires LeafsOk(leafs) && PageOk(p)
    ensures LeafsOk(leafs[p := LeafWord(p, perm)])
  {
  }

  function Write(raw: Raw, t: nat, i: nat, v: u64): Raw
    requires t < |raw| && i < |raw[t]|
  {
    var row: seq<u64> := raw[t][i := v];
    raw[t := row]
  }

  lemma TableDescriptor(base: u64, slot: nat)
    requires base % 0x1000 == 0 && base + POOL * 0x1000 <= TWO48 && slot < POOL
    ensures Present(TableAddress(base, slot) + PTE_VALID + PTE_TABLE)
    ensures TableOrPage(TableAddress(base, slot) + PTE_VALID + PTE_TABLE)
    ensures Output(TableAddress(base, slot) + PTE_VALID + PTE_TABLE) == TableAddress(base, slot)
  {
    var m := base / 0x1000 + slot;
    var w := TableAddress(base, slot) + PTE_VALID + PTE_TABLE;
    assert w == m * 0x1000 + 3;
    By2(m * 0x800 + 1, 1);
    By48(0, w);
    By1000(m, 3);
  }

  lemma EmptyShape(raw: Raw, base: u64)
    requires Dims(raw) && forall t: nat, i: nat | t < POOL && i < 512 :: raw[t][i] == 0
    ensures ShapeOk(raw, map[Root := 0], 1, map[], base)
    ensures Nodes({}) == {Root}
  {
    assert forall n: Node, i: nat | !n.Last? :: Child(n, i) != Root;
  }

  /** A new table at the next free slot. */
  ghost predicate Hangs(site: map<Node, nat>, site': map<Node, nat>, used: nat, n: Node, i: nat, c: Node) {
    n in site && !n.Last? && c == Child(n, i) && c !in site && site' == site[c := used]
  }

  lemma AddChildSite(site: map<Node, nat>, site': map<Node, nat>, used: nat, leafs: map<Page, u64>,
                     n: Node, i: nat, c: Node)
    requires SiteOk(site, used, leafs) && used < POOL && Hangs(site, site', used, n, i, c)
    ensures SiteOk(site', used + 1, leafs)
  {
    assert site'.Keys == site.Keys + {c};
  }

  /** No word changes but the descriptor of the new table. */
  lemma AddChildKeeps(site: map<Node, nat>, site': map<Node, nat>, used: nat, leafs: map<Page, u64>, base: u64,
                      n: Node, i: nat, c: Node, m: Node, j: nat)
    requires Hangs(site, site', used, n, i, c) && !(m == n && j == i)
    ensures Word(site', leafs, base, m, j) == Word(site, leafs, base, m, j)
  {
  }

  /** The new table is empty. */
  lemma AddChildFresh(site: map<Node, nat>, site': map<Node, nat>, used: nat, leafs: map<Page, u64>, base: u64,
                      n: Node, i: nat, c: Node, j: nat)
    requires SiteOk(site, used, leafs) && Hangs(site, site', used, n, i, c)
    ensures Word(site', leafs, base, c, j) == 0
  {
    if c.Last? {
      assert Table(Page(c.l0, c.l1, c.l2, j)) == c;
    } else {
      assert Child(c, j) !in site;
    }
  }

  /** Hanging the next free slot below entry `i` of table `n` keeps the shape. */
  lemma GrowKeepsShape(raw: Raw, site: map<Node, nat>, site': map<Node, nat>, used: nat, leafs: map<Page, u64>,
                       base: u64, n: Node, i: nat, c: Node)
    requires ShapeOk(raw, site, used, leafs, base) && used < POOL && base + POOL * 0x1000 <= TWO48
    requires n in site && !n.Last? && i < 512 && c == Child(n, i) && c !in site
    requires site' == site[c := used]
    ensures var e := TableAddress(base, used) + PTE_VALID + PTE_TABLE;
            ShapeOk(Write(raw, site[n], i, e), site', used + 1, leafs, base)
  {
    AddChildSite(site, site', used, leafs, n, i, c);
    var raw' := Write(raw, site[n], i, TableAddress(base, used) + PTE_VALID + PTE_TABLE);
    forall m <- site', j: nat | j < 512 ensures raw'[site'[m]][j] == Word(site', leafs, base, m, j) {
      if m == c {
        AddChildFresh(site, site', used, leafs, base, n, i, c, j);
      } else if !(m == n && j == i) {
        AddChildKeeps(site, site', used, leafs, base, n, i, c, m, j);
        assert raw[site[m]][j] == Word(site, leafs, base, m, j);
      }
    }
  }

  /** Writing one leaf keeps the shape. */
  lemma LeafKeepsShape(raw: Raw, site: map<Node, nat>, used: nat, leafs: map<Page, u64>, base: u64, p: Page, w: u64)
    requires ShapeOk(raw, site, used, leafs, base)
    requires Table(p) in site && PageOk(p)
    ensures ShapeOk(Write(raw, site[Table(p)], p.l3, w), site, used, leafs[p := w], base)
  {
    var n := Table(p);
    var raw' := Write(raw, site[n], p.l3, w);
    forall m <- site, j: nat | j < 512 ensures raw'[site[m]][j] == Word(site, leafs[p := w], base, m, j) {
      if !(m == n && j == p.l3) {
        assert raw[site[m]][j] == Word(site, leafs, base, m, j);
      }
    }
  }

  // ---- What the tables mean to the hardware ------------------------------------------

  /** The table that a descriptor of the pool points at, as the walker finds it in memory. */
  function SlotOf(base: u64, e: u64): int {
    (Output(e) - base) / 0x1000
  }

  /** A hardware table walk over the raw words. Every level needs both low bits, since with bit 1 clear
      the word is a block or nothing, and the last level the access flag; 0 stands for a fault. */
  ghost function HardwareWalk(raw: Raw, base: u64, p: Page): u64
    requires Dims(raw) && PageOk(p)
  {
    var e0 := raw[0][p.l0];
    var t1 := SlotOf(base, e0);
    if !TableOrPage(e0) || !(0 <= t1 < POOL) then 0 else
    var e1 := raw[t1][p.l1];
    var t2 := SlotOf(base, e1);
    if !TableOrPage(e1) || !(0 <= t2 < POOL) then 0 else
    var e2 := raw[t2][p.l2];
    var t3 := SlotOf(base, e2);
    if !TableOrPage(e2) || !(0 <= t3 < POOL) then 0 else
    var e3 := raw[t3][p.l3];
    if TableOrPage(e3) && Accessed(e3) then e3 else 0
  }

  /** One step of the walk from a table in use reaches the child's slot exactly when it exists. */
  lemma WalkStep(raw: Raw, site: map<Node, nat>, used: nat, leafs: map<Page, u64>, base: u64, n: Node, i: nat)
    requires ShapeOk(raw, site, used, leafs, base) && base % 0x1000 == 0 && base + POOL * 0x1000 <= TWO48
    requires n in site && !n.Last? && i < 512
    ensures Present(raw[site[n]][i]) <==> Child(n, i) in site
    ensures TableOrPage(raw[site[n]][i]) <==> Child(n, i) in site
    ensures Child(n, i) in site ==> SlotOf(base, raw[site[n]][i]) == site[Child(n, i)]
  {
    var c := Child(n, i);
    assert raw[site[n]][i] == Word(site, leafs, base, n, i);
    if c in site { TableDescriptor(base, site[c]); }
  }

  lemma SlotBound(raw: Raw, site: map<Node, nat>, used: nat, leafs: map<Page, u64>, base: u64, n: Node)
    requires ShapeOk(raw, site, used, leafs, base) && n in site
    ensures Dims(raw) && site[n] < POOL && Root in site && site[Root] == 0
    ensures forall i: nat | n.Last? && i < 512 :: raw[site[n]][i] == Lookup(leafs, Page(n.l0, n.l1, n.l2, i))
  {
  }

  lemma TablesAbove(site: map<Node, nat>, leafs: map<Page, u64>, p: Page)
    requires site.Keys == Nodes(leafs.Keys)
    ensures Table(p) in site ==> Middle(p.l0, p.l1) in site
    ensures Middle(p.l0, p.l1) in site ==> Upper(p.l0) in site
    ensures p in leafs ==> Table(p) in site
  {
  }

  /** The raw words are the finite map: the hardware walk finds exactly the mapped pages. */
  lemma HardwareSeesMap(raw: Raw, site: map<Node, nat>, used: nat, leafs: map<Page, u64>, base: u64, p: Page)
    requires ShapeOk(raw, site, used, leafs, base) && base % 0x1000 == 0 && base + POOL * 0x1000 <= TWO48
    requires site.Keys == Nodes(leafs.Keys) && LeafsOk(leafs) && PageOk(p)
    ensures HardwareWalk(raw, base, p) == Lookup(leafs, p)
  {
    hide ShapeOk, Nodes, SlotOf, Present, TableOrPage, Accessed, Lookup;
    LeafReadable(leafs, p);
    SlotBound(raw, site, used, leafs, base, Root) by { assert Root in Nodes(leafs.Keys) by { EmptyNode(leafs.Keys); } }
    TablesAbove(site, leafs, p);
    MissingLookup(leafs, p);
    WalkStep(raw, site, used, leafs, base, Root, p.l0);
    if Upper(p.l0) in site {
      SlotBound(raw, site, used, leafs, base, Upper(p.l0));
      WalkStep(raw, site, used, leafs, base, Upper(p.l0), p.l1);
      if Middle(p.l0, p.l1) in site {
        SlotBound(raw, site, used, leafs, base, Middle(p.l0, p.l1));
        WalkStep(raw, site, used, leafs, base, Middle(p.l0, p.l1), p.l2);
        if Table(p) in site {
          SlotBound(raw, site, used, leafs, base, Table(p));
        }
      }
    }
  }

  /** The word found for a mapped page is one the hardware takes, and for any other page it is a fault. */
  lemma LeafReadable(leafs: map<Page, u64>, p: Page)
    requires LeafsOk(leafs)
    ensures Lookup(leafs, p) != 0 ==> TableOrPage(Lookup(leafs, p)) && Accessed(Lookup(leafs, p))
  {
    hide LeafWord;
    if p in leafs {
      var perm: u32 :| leafs[p] == LeafWord(p, perm);
      MemoryType(p, perm);
    }
  }

  lemma EmptyNode(pages: set<Page>)
    ensures Root in Nodes(pages)
  {
  }

  lemma MissingLookup(leafs: map<Page, u64>, p: Page)
    ensures p !in leafs ==> Lookup(leafs, p) == 0
  {
  }

  /** Every table in use except the root hangs from exactly one entry of one upper table. */
  lemma OneParent(raw: Raw, site: map<Node, nat>, used: nat, leafs: map<Page, u64>, base: u64, n: Node)
    requires ShapeOk(raw, site, used, leafs, base) && base % 0x1000 == 0 && base + POOL * 0x1000 <= TWO48
    requires site.Keys == Nodes(leafs.Keys) && LeafsOk(leafs)
    requires n in site && n != Root
    ensures exists m: Node, i: nat :: m in site && !m.Last? && i < 512 && Child(m, i) == n
    ensures forall m: Node, i: nat | m in site && !m.Last? && i < 512 ::
              Present(raw[site[m]][i]) && SlotOf(base, raw[site[m]][i]) == site[n] <==> Child(m, i) == n
  {
    hide ShapeOk, SlotOf, Present, LeafsOk, Nodes;
    ParentOf(site, leafs, n);
    forall m: Node, i: nat | m in site && !m.Last? && i < 512
      ensures Dims(raw) && site[m] < POOL
      ensures Present(raw[site[m]][i]) && SlotOf(base, raw[site[m]][i]) == site[n] <==> Child(m, i) == n
    {
      SlotBound(raw, site, used, leafs, base, m);
      WalkStep(raw, site, used, leafs, base, m, i);
      if Child(m, i) in site { OneSlot(raw, site, used, leafs, base, Child(m, i), n); }
    }
  }

  lemma OneSlot(raw: Raw, site: map<Node, nat>, used: nat, leafs: map<Page, u64>, base: u64, a: Node, b: Node)
    requires ShapeOk(raw, site, used, leafs, base) && a in site && b in site
    ensures site[a] == site[b] ==> a == b
  {
  }

  lemma ParentOf(site: map<Node, nat>, leafs: map<Page, u64>, n: Node)
    requires site.Keys == Nodes(leafs.Keys) && LeafsOk(leafs) && n in site && n != Root
    ensures exists m: Node, i: nat :: m in site && !m.Last? && i < 512 && Child(m, i) == n
  {
    match n
    case Upper(a) => assert Child(Root, a) == n;
    case Middle(a, b) => assert Child(Upper(a), b) == n;
    case Last(a, b, c) => assert Child(Middle(a, b), c) == n;
  }

  /** TCR_EL1 and TCR_EL2: T0SZ 16 means 48 address bits and TG0 0 pages of 4 KiB; the walks are inner
      shareable and write-back cacheable, to 48 physical bits, and TTBR1_EL1 is not walked. */
  predicate Walks48(tcr: u64, el: nat) {
    && 64 - tcr % 0x40 == 48 && tcr / 0x4000 % 4 == 0
    && tcr / 0x1000 % 4 == 3 && tcr / 0x400 % 4 == 1 && tcr / 0x100 % 4 == 1
    && if el == 2 then tcr / 0x1_0000 % 8 == 5 else tcr / 0x1_0000_0000 % 8 == 5 && tcr / 0x80_0000 % 2 == 1
  }

  lemma TcrWalks48(el: nat)
    ensures Walks48(16 + 0x100 + 0x400 + 0x3000 + if el == 2 then 5 * 0x1_0000 else 5 * 0x1_0000_0000 + 0x80_0000, el)
  {
  }

  class Tables {
    const base: u64           // nxu_pa_of(&nxu_pt[0][0])
    const pt: array2<u64>     // nxu_pt
    var used: u32             // nxu_pt_used
    var ttbr: u64             // nxu_ttbr0
    var mair: u64             // nxu_mair_val
    var tcr: u64              // nxu_tcr_val
    ghost var site: map<Node, nat>
    ghost var leafs: map<Page, u64>

    ghost predicate Placed() {
      && pt.Length0 == POOL && pt.Length1 == 512
      && base % 0x1000 == 0 && base + POOL * 0x1000 <= TWO48
    }

    ghost function Contents(): (raw: Raw)
      requires Placed()
      reads pt
      ensures Dims(raw)
      ensures forall t: nat, i: nat | t < POOL && i < 512 :: raw[t][i] == pt[t, i]
    {
      seq(POOL, t requires 0 <= t < POOL reads pt => seq(512, i requires 0 <= i < 512 reads pt => pt[t, i]))
    }

    ghost predicate Shape()
      reads this, pt
    {
      Placed() && ShapeOk(Contents(), site, used, leafs, base)
    }

    /** Between two calls of nxu_mmu_map no table is in use without a page below it. */
    ghost predicate Valid()
      reads this, pt
    {
      Shape() && LeafsOk(leafs) && site.Keys == Nodes(leafs.Keys)
    }

    lemma RootPlaced()
      requires Shape()
      ensures Root in site && site[Root] == 0 && |site.Keys| == used <= POOL
    {
    }

    lemma TablePlaced(n: Node)
      requires Shape() && n in site
      ensures site[n] < POOL && Placed()
    {
    }

    /** The zeroed pool that the image starts with. */
    constructor (base: u64)
      requires base % 0x1000 == 0 && base + POOL * 0x1000 <= TWO48
      ensures this.base == base && used == 0 && fresh(pt)
      ensures pt.Length0 == POOL && pt.Length1 == 512
      ensures forall t: nat, i: nat | t < POOL && i < 512 :: pt[t, i] == 0
    {
      this.base := base;
      pt := new u64[POOL, 512]((_, _) => 0);
      used := 0;
      site := map[];
      leafs := map[];
    }

    /** pt_alloc: hands out the next slot, or reaches nxu_fail when all 64 are taken. */
    method PtAlloc() returns (ok: bool, i: u32)
      modifies this`used
      ensures ok <==> old(used) < POOL
      ensures ok ==> i == old(used) && used == old(used) + 1
      ensures !ok ==> used == old(used)
    {
      i := 0;
      if used >= POOL { return false, i; }
      i := used;
      used := used + 1;
      ok := true;
    }

    /** pt_index: searches the slots in use for a table address. */
    method PtIndex(pa: u64) returns (ok: bool, i: u32)
      requires used <= POOL && base + POOL * 0x1000 <= TWO48
      ensures ok <==> exists j: nat :: j < used && TableAddress(base, j) == pa
      ensures ok ==> i < used && TableAddress(base, i) == pa
    {
      i := 0;
      while i < used
        invariant i <= used
        invariant forall j: nat | j < i :: TableAddress(base, j) != pa
      {
        if TableAddress(base, i) == pa { return true, i; }
        i := i + 1;
      }
      return false, 0;
    }

    /** nxu_pt[t][i] = v */
    method Store(t: u32, i: nat, v: u64)
      requires Placed() && t < POOL && i < 512
      modifies pt
      ensures Contents() == Write(old(Contents()), t, i, v)
    {
      pt[t, i] := v;
      ghost var was, now := Write(old(Contents()), t, i, v), Contents();
      forall s | 0 <= s < POOL ensures now[s] == was[s] {
        assert forall j | 0 <= j < 512 :: now[s][j] == was[s][j];
      }
    }

    /** The allocating half of one level of map_page. */
    method Grow(t: u32, i: nat, ghost n: Node) returns (ok: bool, t': u32)
      requires Shape() && n in site && site[n] == t && !n.Last? && i < 512 && Child(n, i) !in site
      modifies this`used, this`site, this`leafs, pt
      ensures ok <==> old(used) < POOL
      ensures !ok ==> site == old(site) && |site.Keys| >= POOL
      ensures ok ==> Shape() && leafs == old(leafs) && site == old(site)[Child(n, i) := t' as nat]
    {
      hide ShapeOk, Child;
      TablePlaced(n);
      RootPlaced();
      ok, t' := PtAlloc();
      if !ok { return; }
      Store(t, i, TableAddress(base, t') + PTE_VALID + PTE_TABLE);
      site := site[Child(n, i) := t' as nat];
      GrowKeepsShape(old(Contents()), old(site), site, t', leafs, base, n, i, Child(n, i));
    }

    /** The descriptor read by one level of map_page or nxu_mmu_leaf leads to the child's slot. */
    method Follow(t: u32, i: nat, ghost n: Node) returns (valid: bool, t': u32)
      requires Shape() && n in site && site[n] == t && !n.Last? && i < 512
      ensures valid <==> Child(n, i) in site
      ensures valid ==> site[Child(n, i)] == t'
    {
      ghost var c := Child(n, i);
      var e := pt[t, i];
      assert e == Contents()[t][i];
      assert e == Word(site, leafs, base, n, i);
      if c in site { TableDescriptor(base, site[c]); }
      if !Present(e) { return false, 0; }
      var ok;
      ok, t' := PtIndex(Output(e));
      assert ok by { assert TableAddress(base, site[c]) == Output(e); }
      return true, t';
    }

    /** One level of map_page: follow the descriptor in slot `i` of table `t`, or allocate below it. */
    method Descend(t: u32, i: nat, ghost n: Node) returns (ok: bool, t': u32)
      requires Shape() && n in site && site[n] == t && !n.Last? && i < 512
      modifies this`used, this`site, this`leafs, pt
      ensures ok <==> Child(n, i) in old(site) || old(used) < POOL
      ensures !ok ==> site == old(site) && |site.Keys| >= POOL
      ensures ok ==> Shape() && leafs == old(leafs)
      ensures ok ==> site.Keys == old(site.Keys) + {Child(n, i)} && site[Child(n, i)] == t'
    {
      ok, t' := Follow(t, i, n);
      if !ok {
        ok, t' := Grow(t, i, n);
      }
      assert ok ==> site.Keys == old(site.Keys) + {Child(n, i)};
    }

    /** nxu_mmu_init_pool on the zeroed pool: only the root exists and nothing is mapped. The registers
        say that the walk starts at the root, which memory type each index stands for, and that addresses
        have 48 bits and pages 4 KiB. */
    method InitPool(el: nat)
      requires Placed() && forall t: nat, i: nat | t < POOL && i < 512 :: pt[t, i] == 0
      modifies this
      ensures Valid() && leafs == map[] && used == 1
      ensures ttbr == TableAddress(base, 0) && mair == MAIR && Walks48(tcr, el)
    {
      hide ShapeOk, Nodes, Walks48;
      used := 0;
      var ok, root := PtAlloc();
      ttbr := base;
      mair := 0xFF00;
      tcr := 16 + 0x100 + 0x400 + 0x3000 + if el == 2 then 5 * 0x1_0000 else 5 * 0x1_0000_0000 + 0x80_0000;
      TcrWalks48(el);
      site := map[Root := root as nat];
      leafs := map[];
      EmptyShape(Contents(), base);
      assert leafs.Keys == {};
    }

    /** The three upper levels of map_page: yields the last-level table for the page of `pa`.
        It fails exactly when the tables on the way no longer fit in the pool. */
    method Reach(pa: u64) returns (ok: bool, t3: u32)
      requires Valid()
      modifies this`used, this`site, this`leafs, pt
      ensures ok <==> |Nodes(old(leafs.Keys) + {PageOf(pa)})| <= POOL
      ensures ok ==> Shape() && leafs == old(leafs) && site.Keys == Nodes(old(leafs.Keys) + {PageOf(pa)})
      ensures ok ==> Table(PageOf(pa)) in site && site[Table(PageOf(pa))] == t3 && t3 < POOL
    {
      hide PageOf, ShapeOk, LeafsOk, Nodes;
      var p := PageOf(pa);
      ghost var full := Nodes(leafs.Keys + {p});
      NodesAdd(leafs.Keys, p);
      RootPlaced();
      t3 := 0;
      var t1, t2;
      ok, t1 := Descend(0, p.l0, Root);
      if !ok { Exceeds(site.Keys, Upper(p.l0), full); return; }
      ok, t2 := Descend(t1, p.l1, Upper(p.l0));
      if !ok { Exceeds(site.Keys, Middle(p.l0, p.l1), full); return; }
      ok, t3 := Descend(t2, p.l2, Middle(p.l0, p.l1));
      if !ok { Exceeds(site.Keys, Table(p), full); return; }
      assert site.Keys == full;
      RootPlaced();
      TablePlaced(Table(p));
    }

    /** map_page: grow the tree down to the page and write its leaf word. */
    method MapPage(pa: u64, perm: u32) returns (ok: bool)
      requires Valid()
      modifies this`used, this`site, this`leafs, pt
      ensures ok <==> |Nodes(old(leafs.Keys) + {PageOf(pa)})| <= POOL
      ensures ok ==> Valid() && leafs == old(leafs)[PageOf(pa) := LeafWord(PageOf(pa), perm)]
    {
      hide PageOf, PageNumber, LeafAttr, ShapeOk, LeafsOk, Nodes, Output;
      var t3;
      ok, t3 := Reach(pa);
      if !ok { return; }
      var p := PageOf(pa);
      var w := LeafFor(pa, perm);
      TablePlaced(Table(p));
      ghost var raw := Contents();
      Store(t3, p.l3, w);
      LeafKeepsShape(raw, site, used, leafs, base, p, w);
      LeafsAdd(leafs, p, perm);
      leafs := leafs[p := w];
      assert leafs.Keys == old(leafs.Keys) + {p};
    }

    /** nxu_mmu_map: maps every page of the range, and reaches nxu_fail exactly when the range wraps,
        is empty, is not made of whole pages, or needs more tables than the pool has. */
    method Map(pa: u64, size: u64, perm: u32) returns (ok: bool)
      requires Valid()
      modifies this`used, this`site, this`leafs, pt
      ensures ok <==> && RangeOk(pa, size) && pa % 0x1000 == 0 && size % 0x1000 == 0
                      && |Nodes(old(leafs.Keys) + Touched(pa, size))| <= POOL
      ensures ok ==> Valid() && leafs == Mapped(old(leafs), Touched(pa, size), perm)
    {
      hide PageOf, Shape, LeafsOk, Nodes, Touched, PageNumber, LeafAttr;
      if !RangeOk(pa, size) { return false; }
      if pa % 0x1000 != 0 { return false; }
      if size % 0x1000 != 0 { return false; }
      var off: u64 := 0;
      ghost var was := leafs;
      TouchedNone(pa);
      while off < size
        invariant off <= size && off % 0x1000 == 0
        invariant Valid()
        invariant leafs == Mapped(was, Touched(pa, off), perm)
      {
        TouchedNext(pa, off);
        TouchedGrows(pa, off + 0x1000, size);
        ghost var before := leafs;
        ghost var p := PageOf(pa + off);
        ok := MapPage(pa + off, perm);
        assert before.Keys + {p} == was.Keys + Touched(pa, off + 0x1000);
        if !ok {
          NodesGrow(before.Keys + {p}, was.Keys + Touched(pa, size));
          return;
        }
        assert leafs == Mapped(was, Touched(pa, off + 0x1000), perm);
        off := off + 0x1000;
      }
      assert leafs.Keys == was.Keys + Touched(pa, size);
      NodesCounted();
      return true;
    }

    lemma NodesCounted()
      requires Valid()
      ensures used == |Nodes(leafs.Keys)| <= POOL
    {
      assert |site| == |site.Keys|;
    }

    /** nxu_mmu_leaf: the word of the finite map, or 0. The two searches never miss. */
    method Leaf(pa: u64) returns (w: u64)
      requires Valid()
      ensures w == Lookup(leafs, PageOf(pa))
    {
      hide PageOf, ShapeOk, LeafsOk, Nodes;
      var p := PageOf(pa);
      RootPlaced();
      var valid, t1, t2, t3;
      valid, t1 := Follow(0, p.l0, Root);
      if !valid { LeafNeedsTables(p); return 0; }
      valid, t2 := Follow(t1, p.l1, Upper(p.l0));
      if !valid { LeafNeedsTables(p); return 0; }
      valid, t3 := Follow(t2, p.l2, Middle(p.l0, p.l1));
      if !valid { LeafNeedsTables(p); return 0; }
      LeafInPlace(p);
      w := pt[t3, p.l3];
    }

    /** A mapped page has all three tables above it. */
    lemma LeafNeedsTables(p: Page)
      requires Valid()
      ensures p in leafs ==> Upper(p.l0) in site && Middle(p.l0, p.l1) in site && Table(p) in site
    {
    }

    lemma LeafInPlace(p: Page)
      requires Shape() && Table(p) in site && PageOk(p)
      ensures site[Table(p)] < POOL && Placed() && pt[site[Table(p)], p.l3] == Lookup(leafs, p)
    {
      assert pt[site[Table(p)], p.l3] == Contents()[site[Table(p)]][p.l3] == Word(site, leafs, base, Table(p), p.l3);
    }
  }
}
