/** From the S6 map to the first room entry (foundation/room/room.c, nxu_rooms_run), and the one
    place where a kernel read leaves the sender's page. */
module Boot {
  import opened Words
  import opened PageTables
  import Space
  import opened Rooms
  import opened Separation

  predicate KernelPerm(perm: u32) {
    perm != MAP_USER_RX && perm != MAP_USER_RW
  }

  lemma MappedNoUser(m: map<Page, u64>, ps: set<Page>, perm: u32)
    requires NoUser(m) && KernelPerm(perm) && forall p <- ps :: PageOk(p)
    ensures NoUser(Mapped(m, ps, perm))
  {
    hide El0, Uxn, LeafWord;
    forall p <- Mapped(m, ps, perm) ensures !El0(Mapped(m, ps, perm)[p]) && Uxn(Mapped(m, ps, perm)[p]) {
      if p in ps { LeafBits(p, perm); }
    }
  }

  lemma {:induction false} ApplyNoUser(steps: seq<Space.Step>)
    requires forall s <- steps :: KernelPerm(s.perm)
    ensures NoUser(Space.Apply(map[], steps))
  {
    if steps != [] {
      var s := steps[|steps| - 1];
      ApplyNoUser(steps[..|steps| - 1]);
      MappedNoUser(Space.Apply(map[], steps[..|steps| - 1]), Touched(s.pa, s.size), s.perm);
    }
  }

  lemma {:induction false} DevicesKernelOnly(rs: seq<Space.Region>)
    ensures forall s <- Space.DeviceSteps(rs) :: KernelPerm(s.perm)
  {
    if rs != [] { DevicesKernelOnly(rs[..|rs| - 1]); }
  }

  lemma NoUserClosed(m: map<Page, u64>)
    requires NoUser(m)
    ensures Closed(m)
  {
    hide El0, Uxn, PageOf;
    forall va: u64 ensures !CanRead(m, va) && !CanExecute(m, va) {
      assert PageOf(va) !in m ==> !Present(Leaf(m, va));
    }
  }

  /** The leaf map with which nxu_rooms_run starts: the S6 map plus both rooms' pages, kernel-only. */
  ghost function StartMap(l: Layout, image: Space.Image, rs: seq<Space.Region>): map<Page, u64>
    requires LayoutOk(l)
  {
    Priv(l, Priv(l, Space.Apply(map[], Space.Plan(image, rs)), 0), 1)
  }

  /** Nothing S6 maps is accessible to EL0, and the rooms' pages start kernel-only. */
  lemma StartClosed(l: Layout, image: Space.Image, rs: seq<Space.Region>)
    requires LayoutOk(l)
    ensures Closed(Space.Apply(map[], Space.Plan(image, rs))) && Closed(StartMap(l, image, rs))
  {
    hide Closed, Priv;
    PlanClosed(image, rs);
    PrivClosed(l, Space.Apply(map[], Space.Plan(image, rs)), 0);
    PrivClosed(l, Priv(l, Space.Apply(map[], Space.Plan(image, rs)), 0), 1);
  }

  /** The start of nxu_rooms_run adds exactly the four room pages, read-write for the kernel; every
      other address below 2^48 keeps the word S6 intended for it. The four pages are pairwise
      distinct, lie in RAM and begin where the image ends. */
  lemma FourMorePages(l: Layout, image: Space.Image, rs: seq<Space.Region>, q: u64)
    requires LayoutOk(l) && Space.Linked(image) && l.base == Space.ImageEnd(image) && q < TWO48
    requires Space.AllOk(rs) && Space.Legal(Space.Plan(image, rs))
    ensures Leaf(StartMap(l, image, rs), q) ==
            if InRoom(l, 0, q) || InRoom(l, 1, q) then q / 0x1000 * 0x1000 + LeafAttr(MAP_RW)
            else Space.Expected(image, rs, q)
    ensures InRoom(l, 0, q) || InRoom(l, 1, q) ==>
            l.lo <= q < l.lo + l.size && image.base + image.size <= q && Space.ImageWord(image, q) == 0
    ensures |{PageOf(Code(l, 0)), PageOf(Data(l, 0)), PageOf(Code(l, 1)), PageOf(Data(l, 1))}| == 4
  {
    hide PageOf, PageNumber, LeafAttr, Priv, Leaf, Space.Expected, Space.Apply, Space.TextEnd, Space.RodataEnd,
         Space.ImageEnd, Space.Plan, Space.Legal, Space.AllOk, Space.ImageWord;
    var m := Space.Apply(map[], Space.Plan(image, rs));
    Space.DefaultDeny(image, rs, q);
    LeafIsLookup(m, q);
    PrivLeaf(l, m, 0, q);
    PrivLeaf(l, Priv(l, m, 0), 1, q);
    RoomWord(l, 0, q);
    RoomWord(l, 1, q);
    if InRoom(l, 0, q) || InRoom(l, 1, q) { BehindImage(l, image, q); }
    FourApart(l);
  }

  lemma BehindImage(l: Layout, image: Space.Image, q: u64)
    requires LayoutOk(l) && Space.Linked(image) && l.base == Space.ImageEnd(image) && l.base <= q < TWO48
    ensures image.base + image.size <= q && Space.ImageWord(image, q) == 0
  {
    hide LeafAttr, Space.TextEnd, Space.RodataEnd, Space.ImageEnd, Space.ImageWord;
    Space.Sections(image);
    Space.SectionsBelow(image, q);
    Space.PageBefore(l.base, q);
  }

  lemma FourApart(l: Layout)
    requires LayoutOk(l)
    ensures |{PageOf(Code(l, 0)), PageOf(Data(l, 0)), PageOf(Code(l, 1)), PageOf(Data(l, 1))}| == 4
  {
    hide PageOf;
    SamePage(Code(l, 0), Data(l, 0));
    SamePage(Code(l, 0), Code(l, 1));
    SamePage(Code(l, 0), Data(l, 1));
    SamePage(Data(l, 0), Code(l, 1));
    SamePage(Data(l, 0), Data(l, 1));
    SamePage(Code(l, 1), Data(l, 1));
  }

  lemma LeafIsLookup(m: map<Page, u64>, q: u64)
    ensures Leaf(m, q) == Lookup(m, PageOf(q))
  {
  }

  lemma FrameWord(pa: u64, q: u64)
    requires pa % 0x1000 == 0 && pa < TWO48 && InPage(q, pa)
    ensures LeafWord(PageOf(pa), MAP_RW) == q / 0x1000 * 0x1000 + LeafAttr(MAP_RW)
  {
    hide PageOf, PageNumber, LeafAttr;
    PageNumberOf(pa);
    assert pa / 0x1000 * 0x1000 == pa;
  }

  lemma RoomWord(l: Layout, id: nat, q: u64)
    requires LayoutOk(l) && id < ROOM_N && q < TWO48
    ensures InPage(q, Code(l, id)) ==> LeafWord(PageOf(Code(l, id)), MAP_RW) == q / 0x1000 * 0x1000 + LeafAttr(MAP_RW)
    ensures InPage(q, Data(l, id)) ==> LeafWord(PageOf(Data(l, id)), MAP_RW) == q / 0x1000 * 0x1000 + LeafAttr(MAP_RW)
  {
    hide PageOf, LeafWord, LeafAttr;
    if InPage(q, Code(l, id)) { FrameWord(Code(l, id), q); }
    if InPage(q, Data(l, id)) { FrameWord(Data(l, id), q); }
  }

  lemma WordPresent(q: u64, perm: u32)
    requires q < TWO48
    ensures var w := q / 0x1000 * 0x1000 + LeafAttr(perm); 0 <= w < TWO64 && Present(w)
  {
    hide PageOf, PageNumber, LeafAttr, Present;
    PageNumberOf(q);
    LeafBits(PageOf(q), perm);
    assert q / 0x1000 % 0x10_0000_0000 == q / 0x1000;
  }

  lemma PlanClosed(image: Space.Image, rs: seq<Space.Region>)
    ensures Closed(Space.Apply(map[], Space.Plan(image, rs)))
  {
    hide Closed, Space.Apply, Space.Plan;
    KernelPlan(image, rs);
    ApplyNoUser(Space.Plan(image, rs));
    NoUserClosed(Space.Apply(map[], Space.Plan(image, rs)));
  }

  /** What S6 leaves is a start for the driver: nothing is open to EL0, and the image is mapped. */
  lemma AfterS6(image: Space.Image, rs: seq<Space.Region>)
    requires Space.AllOk(rs) && Space.Legal(Space.Plan(image, rs)) && image.base < TWO48
    ensures var m := Space.Apply(map[], Space.Plan(image, rs)); Closed(m) && Present(Leaf(m, image.base))
  {
    hide PageOf, LeafAttr, Present, Closed, Space.Apply, Space.Plan, Space.TextEnd, Space.RodataEnd, Space.ImageEnd,
         Lookup, Space.MeetsDevice, Leaf, Space.Legal, Space.AllOk, Space.ImageSteps;
    PlanClosed(image, rs);
    Space.DefaultDeny(image, rs, image.base);
    LeafIsLookup(Space.Apply(map[], Space.Plan(image, rs)), image.base);
    Space.PlanLegal(image, rs);
    Space.TextStarts(image);
    var te := Space.TextEnd(image);
    assert InRange(image.base, image.base, te - image.base) && SameFrame(image.base, image.base);
    WordPresent(image.base, MAP_DEV);
    WordPresent(image.base, MAP_RX);
    WordPresent(image.base, MAP_R);
    WordPresent(image.base, MAP_RW);
  }

  lemma KernelPlan(image: Space.Image, rs: seq<Space.Region>)
    ensures forall s <- Space.Plan(image, rs) :: KernelPerm(s.perm)
  {
    DevicesKernelOnly(rs);
  }

  // ---- Where a pulse reads -----------------------------------------------------------

  function Pow256(n: nat): nat {
    if n == 0 then 1 else 0x100 * Pow256(n - 1)
  }

  lemma {:induction false} WordRoundTrip(v: nat, n: nat)
    requires v < Pow256(n)
    ensures LittleEndian(LeBytes(v, n)) == v
  {
    if n > 0 {
      WordRoundTrip(v / 0x100, n - 1);
      assert LeBytes(v, n)[1..] == LeBytes(v / 0x100, n - 1);
    }
  }

  lemma EightBytes()
    ensures Pow256(8) == TWO64
  {
    assert Pow256(4) == 0x1_0000_0000;
    assert Pow256(6) == 0x1_0000_0000_0000;
  }

  /** A stored 64-bit word is read back. */
  lemma StoreThenLoad(l: Layout, ram: seq<u8>, pa: nat, v: u64)
    requires |ram| == l.size && l.lo <= pa && pa + 8 <= l.lo + l.size
    ensures Load64(l, Poke(l, ram, pa, LeBytes(v, 8)), pa) == v
  {
    EightBytes();
    WordRoundTrip(v, 8);
    assert Poke(l, ram, pa, LeBytes(v, 8))[pa - l.lo .. pa - l.lo + 8] == LeBytes(v, 8);
  }

  /** A word is read back after another word was stored beside it. */
  lemma StoreBeside(l: Layout, ram: seq<u8>, pa: nat, v: u64, qa: nat)
    requires |ram| == l.size && l.lo <= pa && pa + 8 <= l.lo + l.size
    requires l.lo <= qa && qa + 8 <= l.lo + l.size && (qa + 8 <= pa || pa + 8 <= qa)
    ensures Load64(l, Poke(l, ram, pa, LeBytes(v, 8)), qa) == Load64(l, ram, qa)
  {
    assert Poke(l, ram, pa, LeBytes(v, 8))[qa - l.lo .. qa - l.lo + 8] == ram[qa - l.lo .. qa - l.lo + 8];
  }

  /** When both words lie in the sender's page, the decision depends on that page alone. */
  lemma PulseWithinPage(l: Layout, k: Kernel, k': Kernel, arg0: u64)
    requires LayoutOk(l) && |k.ram| == l.size && |k'.ram| == l.size && k.cur == 0 && k'.cur == 0
    requires PagesOf(l, k.ram, 0) == PagesOf(l, k'.ram, 0)
    requires arg0 + 16 <= Data(l, 0) + 0x1000
    ensures Accepted(l, k, arg0) <==> Accepted(l, k', arg0)
  {
    if Inside(l, 0, arg0) {
      var d, o := Data(l, 0) - l.lo, arg0 - Data(l, 0);
      SliceTwice(k.ram, d, d + 0x1000, o, o + 8);
      SliceTwice(k'.ram, d, d + 0x1000, o, o + 8);
      SliceTwice(k.ram, d, d + 0x1000, o + 8, o + 16);
      SliceTwice(k'.ram, d, d + 0x1000, o + 8, o + 16);
      assert PagesOf(l, k.ram, 0).data == PagesOf(l, k'.ram, 0).data;
    }
  }

  lemma SliceTwice(s: seq<u8>, a: nat, b: nat, c: nat, d: nat)
    requires a <= b <= |s| && c <= d <= b - a
    ensures s[a..b][c..d] == s[a + c .. a + d]
  {
    var x, y, z := s[a..b], s[a..b][c..d], s[a + c .. a + d];
    assert |y| == |z|;
    forall i | 0 <= i < |y| ensures y[i] == z[i] {
      assert y[i] == x[c + i] == s[a + c + i] == z[i];
    }
  }

  lemma PokePrefix(l: Layout, ram: seq<u8>, pa: nat, b: seq<u8>, c: seq<u8>, n: nat)
    requires |ram| == l.size && l.lo <= pa && pa + 8 <= l.lo + l.size && |b| == |c| == 8
    requires b[..7] == c[..7] && n <= pa - l.lo + 7
    ensures Poke(l, ram, pa, b)[..n] == Poke(l, ram, pa, c)[..n]
  {
    var x, y := Poke(l, ram, pa, b), Poke(l, ram, pa, c);
    forall i | 0 <= i < n ensures x[i] == y[i] {
      if i >= pa - l.lo { assert b[..7][i - (pa - l.lo)] == c[..7][i - (pa - l.lo)]; }
    }
  }

  /** Only the pointer is checked: for a pointer in the last fifteen bytes of the page the second word
      runs into Room 1's code page, and two memories with the same Room 0 pages are decided differently.
      With PulseWithinPage: the decision is the sender's alone exactly when 16 bytes fit in the page. */
  lemma PulseAcrossPages(l: Layout, k: Kernel, arg0: u64) returns (ram1: seq<u8>, ram2: seq<u8>)
    requires LayoutOk(l) && |k.ram| == l.size && k.cur == 0
    requires Inside(l, 0, arg0) && arg0 + 16 > Data(l, 0) + 0x1000
    ensures |ram1| == l.size && |ram2| == l.size
    ensures PagesOf(l, ram1, 0) == PagesOf(l, ram2, 0)
    ensures Accepted(l, k.(ram := ram1), arg0) && !Accepted(l, k.(ram := ram2), arg0)
  {
    hide LeBytes, LittleEndian;
    var base := Poke(l, k.ram, arg0, LeBytes(1, 8));
    ram1 := Poke(l, base, arg0 + 8, LeBytes(PAYLOAD, 8));
    var other: u64 := PAYLOAD + 0x100_0000_0000_0000;
    StoreThenLoad(l, k.ram, arg0, 1);
    StoreThenLoad(l, base, arg0 + 8, PAYLOAD);
    StoreBeside(l, base, arg0 + 8, PAYLOAD, arg0);
    ram2 := Poke(l, base, arg0 + 8, LeBytes(other, 8));
    StoreThenLoad(l, base, arg0 + 8, other);
    StoreBeside(l, base, arg0 + 8, other, arg0);
    TopByteOnly();
    var n := Data(l, 0) + 0x1000 - l.lo;
    PokePrefix(l, base, arg0 + 8, LeBytes(PAYLOAD, 8), LeBytes(other, 8), n);
    assert PagesOf(l, ram1, 0).data == ram1[..n][Data(l, 0) - l.lo..];
    assert PagesOf(l, ram2, 0).data == ram2[..n][Data(l, 0) - l.lo..];
    assert PagesOf(l, ram1, 0).code == ram1[..n][Code(l, 0) - l.lo .. Data(l, 0) - l.lo];
    assert PagesOf(l, ram2, 0).code == ram2[..n][Code(l, 0) - l.lo .. Data(l, 0) - l.lo];
  }

  /** `h` moved up by `n` bytes. */
  function Shift(h: nat, n: nat): nat {
    if n == 0 then h else 0x100 * Shift(h, n - 1)
  }

  lemma TopByteOnly()
    ensures LeBytes(PAYLOAD, 8)[..7] == LeBytes(PAYLOAD + 0x100_0000_0000_0000, 8)[..7]
  {
    hide LeBytes;
    assert Shift(1, 4) == 0x1_0000_0000;
    assert Shift(1, 7) == 0x100_0000_0000_0000;
    SameLowBytes(PAYLOAD, 1, 7);
  }

  lemma ShiftedByte(v: nat, x: nat)
    ensures (v + 0x100 * x) / 0x100 == v / 0x100 + x && (v + 0x100 * x) % 0x100 == v % 0x100
  {
  }

  lemma FirstByte(v: nat, n: nat)
    requires n > 0
    ensures LeBytes(v, n + 1)[..n] == [v % 0x100] + LeBytes(v / 0x100, n)[..n - 1]
  {
    assert LeBytes(v, n + 1) == [v % 0x100] + LeBytes(v / 0x100, n);
  }

  lemma {:induction false} SameLowBytes(v: nat, h: nat, n: nat)
    ensures LeBytes(v + Shift(h, n), n + 1)[..n] == LeBytes(v, n + 1)[..n]
    decreases n
  {
    if n > 0 {
      hide LeBytes;
      var x := Shift(h, n - 1);
      SameLowBytes(v / 0x100, h, n - 1);
      ShiftedByte(v, x);
      FirstByte(v, n);
      FirstByte(v + 0x100 * x, n);
    }
  }
}
