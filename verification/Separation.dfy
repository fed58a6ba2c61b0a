/** Separation of the two rooms: each room's two pages evolve exactly as on a private machine
    that has nothing but those pages, whatever the other room does. */
module Separation {
  import opened Words
  import opened PageTables
  import opened Rooms

  // ---- Which pages EL0 can touch -----------------------------------------------------

  lemma OnePage(pa: u64)
    requires pa % 0x1000 == 0 && pa + 0x1000 <= TWO48
    ensures Touched(pa, 0x1000) == {PageOf(pa)}
  {
    hide PageOf, Touched;
    TouchedNone(pa);
    TouchedNext(pa, 0);
  }

  /** The address `va` reads `w` as its leaf word. */
  lemma RemapLeaf(m: map<Page, u64>, pa: u64, perm: u32, va: u64)
    requires pa % 0x1000 == 0 && pa + 0x1000 <= TWO48 && va < TWO48
    ensures Leaf(Remap(m, pa, perm), va) == if InPage(va, pa) then LeafWord(PageOf(pa), perm) else Leaf(m, va)
  {
    hide PageOf, Touched, LeafWord;
    OnePage(pa);
    SamePage(pa, va);
  }

  lemma PrivLeaf(l: Layout, m: map<Page, u64>, id: nat, va: u64)
    requires LayoutOk(l) && id < ROOM_N && va < TWO48
    ensures Leaf(Priv(l, m, id), va) ==
            if InPage(va, Code(l, id)) then LeafWord(PageOf(Code(l, id)), MAP_RW)
            else if InPage(va, Data(l, id)) then LeafWord(PageOf(Data(l, id)), MAP_RW)
            else Leaf(m, va)
  {
    hide PageOf, LeafWord, Remap, Leaf;
    RemapLeaf(m, Code(l, id), MAP_RW, va);
    RemapLeaf(Remap(m, Code(l, id), MAP_RW), Data(l, id), MAP_RW, va);
  }

  predicate InRoom(l: Layout, id: nat, va: int)
  {
    Code(l, id) <= va < Code(l, id) + 0x2000
  }

  lemma OpenLeaf(l: Layout, m: map<Page, u64>, id: nat, va: u64)
    requires LayoutOk(l) && id < ROOM_N && va < TWO48
    ensures InPage(va, Code(l, id)) ==> Leaf(UserOpen(l, m, id), va) == LeafWord(PageOf(Code(l, id)), MAP_USER_RX)
    ensures InPage(va, Data(l, id)) ==> Leaf(UserOpen(l, m, id), va) == LeafWord(PageOf(Data(l, id)), MAP_USER_RW)
    ensures InPage(va, Code(l, 1 - id)) ==> Leaf(UserOpen(l, m, id), va) == LeafWord(PageOf(Code(l, 1 - id)), MAP_RW)
    ensures InPage(va, Data(l, 1 - id)) ==> Leaf(UserOpen(l, m, id), va) == LeafWord(PageOf(Data(l, 1 - id)), MAP_RW)
    ensures !InRoom(l, 0, va) && !InRoom(l, 1, va) ==> Leaf(UserOpen(l, m, id), va) == Leaf(m, va)
  {
    hide PageOf, LeafWord, Remap, Leaf, Priv;
    var m2 := Priv(l, Priv(l, m, 0), 1);
    PrivLeaf(l, m, 0, va);
    PrivLeaf(l, Priv(l, m, 0), 1, va);
    RemapLeaf(m2, Code(l, id), MAP_USER_RX, va);
    RemapLeaf(Remap(m2, Code(l, id), MAP_USER_RX), Data(l, id), MAP_USER_RW, va);
  }

  /** No address is accessible to EL0 in any way. */
  ghost predicate Closed(m: map<Page, u64>) {
    forall va: u64 :: !CanRead(m, va) && !CanExecute(m, va)
  }

  /** Exactly the code page can be executed, exactly the data page can be written, exactly the two
      can be read, and both are mapped to themselves. */
  ghost predicate Opened(l: Layout, m: map<Page, u64>, id: nat) {
    && (forall va: u64 :: CanRead(m, va) <==> InPage(va, Code(l, id)) || InPage(va, Data(l, id)))
    && (forall va: u64 :: CanWrite(m, va) <==> InPage(va, Data(l, id)))
    && (forall va: u64 :: CanExecute(m, va) <==> InPage(va, Code(l, id)))
    && (forall va: u64 | CanRead(m, va) :: Physical(m, va) == va)
  }

  lemma FrameOf(pa: u64, va: u64, w: u64)
    requires pa % 0x1000 == 0 && pa < TWO48 && InPage(va, pa) && Output(w) == PageNumber(PageOf(pa)) * 0x1000
    ensures Output(w) + va % 0x1000 == va
  {
    hide PageOf, PageNumber, Output;
    PageNumberOf(pa);
  }

  /** Exclusive visibility: opening a room on a map that hides everything from EL0 shows it its own
      two pages, with the right permissions, and nothing else. */
  lemma OpenExact(l: Layout, m: map<Page, u64>, id: nat)
    requires LayoutOk(l) && id < ROOM_N && Closed(m)
    ensures Opened(l, UserOpen(l, m, id), id)
  {
    hide PageOf, PageNumber, LeafWord, UserOpen, Leaf, Present, El0, ReadOnly, Uxn, Output;
    var m' := UserOpen(l, m, id);
    forall va: u64 | va < TWO48
      ensures CanRead(m', va) <==> InPage(va, Code(l, id)) || InPage(va, Data(l, id))
      ensures CanWrite(m', va) <==> InPage(va, Data(l, id))
      ensures CanExecute(m', va) <==> InPage(va, Code(l, id))
      ensures CanRead(m', va) ==> Physical(m', va) == va
    {
      OpenLeaf(l, m, id, va);
      LeafBits(PageOf(Code(l, id)), MAP_USER_RX);
      LeafBits(PageOf(Data(l, id)), MAP_USER_RW);
      LeafBits(PageOf(Code(l, 1 - id)), MAP_RW);
      LeafBits(PageOf(Data(l, 1 - id)), MAP_RW);
      if InPage(va, Code(l, id)) { FrameOf(Code(l, id), va, Leaf(m', va)); }
      if InPage(va, Data(l, id)) { FrameOf(Data(l, id), va, Leaf(m', va)); }
      assert !CanRead(m, va) && !CanExecute(m, va);
    }
  }

  /** Sealing the running room hides every page from EL0 again. */
  lemma SealExact(l: Layout, m: map<Page, u64>, id: nat)
    requires LayoutOk(l) && id < ROOM_N && Opened(l, m, id)
    ensures Closed(Priv(l, m, id))
  {
    hide PageOf, LeafWord, Priv, Leaf, Present, El0, Uxn;
    forall va: u64 | va < TWO48
      ensures !CanRead(Priv(l, m, id), va) && !CanExecute(Priv(l, m, id), va)
    {
      PrivLeaf(l, m, id, va);
      LeafBits(PageOf(Code(l, id)), MAP_RW);
      LeafBits(PageOf(Data(l, id)), MAP_RW);
      assert CanRead(m, va) <==> InPage(va, Code(l, id)) || InPage(va, Data(l, id));
      assert CanExecute(m, va) <==> InPage(va, Code(l, id));
    }
  }

  /** Making a room's pages kernel-only keeps everything hidden. */
  lemma PrivClosed(l: Layout, m: map<Page, u64>, id: nat)
    requires LayoutOk(l) && id < ROOM_N && Closed(m)
    ensures Closed(Priv(l, m, id))
  {
    hide PageOf, LeafWord, Priv, Leaf, Present, El0, Uxn;
    forall va: u64 | va < TWO48
      ensures !CanRead(Priv(l, m, id), va) && !CanExecute(Priv(l, m, id), va)
    {
      PrivLeaf(l, m, id, va);
      LeafBits(PageOf(Code(l, id)), MAP_RW);
      LeafBits(PageOf(Data(l, id)), MAP_RW);
      assert !CanRead(m, va) && !CanExecute(m, va);
    }
  }

  // ---- The private machine -----------------------------------------------------------

  datatype Pages = Pages(code: seq<u8>, data: seq<u8>)

  predicate PagesOk(p: Pages) {
    |p.code| == 0x1000 && |p.data| == 0x1000
  }

  function PagesOf(l: Layout, ram: seq<u8>, id: nat): (p: Pages)
    requires LayoutOk(l) && |ram| == l.size && id < ROOM_N
    ensures PagesOk(p)
  {
    Pages(PageAt(l, ram, Code(l, id)), PageAt(l, ram, Data(l, id)))
  }

  ghost function AloneSees(l: Layout, id: nat, p: Pages): View
    requires PagesOk(p)
  {
    map va: u64 | InPage(va, Code(l, id)) || InPage(va, Data(l, id))
      :: if InPage(va, Code(l, id)) then p.code[va - Code(l, id)] else p.data[va - Data(l, id)]
  }

  /** A room's behaviour on nothing but its own two pages: no tables, no kernel, no other room. */
  ghost function AloneExecute(l: Layout, id: nat, p: Pages, seen: seq<View>, body: Body): (r: Pages)
    requires PagesOk(p)
    ensures PagesOk(r)
    decreases |body|
  {
    if body == [] then p
    else
      var now := seen + [AloneSees(l, id, p)];
      match body[0](now)
      case Load(va) =>
        if InPage(va, Code(l, id)) || InPage(va, Data(l, id)) then AloneExecute(l, id, p, now, body[1..]) else p
      case Store(va, value) =>
        if InPage(va, Data(l, id)) then
          AloneExecute(l, id, p.(data := p.data[va - Data(l, id) := value]), now, body[1..])
        else p
      case Fetch(va) =>
        if InPage(va, Code(l, id)) then AloneExecute(l, id, p, now, body[1..]) else p
      case Sync(esr, _) =>
        if IsPulse(esr) then AloneExecute(l, id, p, now, body[1..]) else p
  }

  /** run() on the private machine: the kernel's clear and copy, then the behaviour. */
  ghost function AloneRun(l: Layout, iv: Interval, p: Pages): (r: Pages)
    requires PagesOk(p) && 0 < |iv.blob| <= 64
    ensures PagesOk(r)
  {
    AloneExecute(l, iv.id, Pages(iv.blob + p.code[|iv.blob|..], if iv.wipe then Zeros() else p.data), [], iv.body)
  }

  // ---- Memory effects, page by page --------------------------------------------------

  lemma PokeCode(l: Layout, ram: seq<u8>, id: nat, blob: seq<u8>)
    requires LayoutOk(l) && |ram| == l.size && id < ROOM_N && |blob| <= 64
    ensures PagesOf(l, Poke(l, ram, Code(l, id), blob), id) ==
            PagesOf(l, ram, id).(code := blob + PagesOf(l, ram, id).code[|blob|..])
    ensures PagesOf(l, Poke(l, ram, Code(l, id), blob), 1 - id) == PagesOf(l, ram, 1 - id)
  {
    var ram' := Poke(l, ram, Code(l, id), blob);
    assert PagesOf(l, ram', id).code == blob + PagesOf(l, ram, id).code[|blob|..];
    assert PagesOf(l, ram', id).data == PagesOf(l, ram, id).data;
    assert PagesOf(l, ram', 1 - id).code == PagesOf(l, ram, 1 - id).code;
    assert PagesOf(l, ram', 1 - id).data == PagesOf(l, ram, 1 - id).data;
  }

  lemma PokeData(l: Layout, ram: seq<u8>, id: nat, page: seq<u8>)
    requires LayoutOk(l) && |ram| == l.size && id < ROOM_N && |page| == 0x1000
    ensures PagesOf(l, Poke(l, ram, Data(l, id), page), id) == PagesOf(l, ram, id).(data := page)
    ensures PagesOf(l, Poke(l, ram, Data(l, id), page), 1 - id) == PagesOf(l, ram, 1 - id)
  {
    var ram' := Poke(l, ram, Data(l, id), page);
    assert PagesOf(l, ram', id).code == PagesOf(l, ram, id).code;
    assert PagesOf(l, ram', id).data == page;
    assert PagesOf(l, ram', 1 - id).code == PagesOf(l, ram, 1 - id).code;
    assert PagesOf(l, ram', 1 - id).data == PagesOf(l, ram, 1 - id).data;
  }

  /** A write leaves the pages that it does not reach as they are. */
  lemma PokeBeside(l: Layout, ram: seq<u8>, pa: nat, b: seq<u8>, page: nat)
    requires |ram| == l.size && l.lo <= pa && pa + |b| <= l.lo + l.size
    requires l.lo <= page && page + 0x1000 <= l.lo + l.size && (page + 0x1000 <= pa || pa + |b| <= page)
    ensures PageAt(l, Poke(l, ram, pa, b), page) == PageAt(l, ram, page)
  {
    var r := Poke(l, ram, pa, b);
    assert r[page - l.lo .. page - l.lo + 0x1000] == ram[page - l.lo .. page - l.lo + 0x1000];
  }

  lemma PokePayload(l: Layout, ram: seq<u8>, page: nat, w: seq<u8>)
    requires |ram| == l.size && l.lo <= page && page + 0x1000 <= l.lo + l.size && |w| == 8
    ensures var p := PageAt(l, ram, page); PageAt(l, Poke(l, ram, page + 8, w), page) == p[..8] + w + p[16..]
  {
    var r, p := Poke(l, ram, page + 8, w), PageAt(l, ram, page);
    assert r[page - l.lo .. page - l.lo + 0x1000] == p[..8] + w + p[16..];
  }

  lemma PokePulse(l: Layout, ram: seq<u8>)
    requires LayoutOk(l) && |ram| == l.size
    ensures PagesOf(l, Poke(l, ram, Data(l, 1) + 8, LeBytes(PAYLOAD, 8)), 0) == PagesOf(l, ram, 0)
    ensures PagesOf(l, Poke(l, ram, Data(l, 1) + 8, LeBytes(PAYLOAD, 8)), 1) ==
            PagesOf(l, ram, 1).(data := Poked(PagesOf(l, ram, 1).data))
  {
    hide Poke, PageAt, LeBytes;
    var w := LeBytes(PAYLOAD, 8);
    PokeBeside(l, ram, Data(l, 1) + 8, w, Code(l, 0));
    PokeBeside(l, ram, Data(l, 1) + 8, w, Data(l, 0));
    PokeBeside(l, ram, Data(l, 1) + 8, w, Code(l, 1));
    PokePayload(l, ram, Data(l, 1), w);
  }

  lemma StoreData(l: Layout, ram: seq<u8>, id: nat, va: int, value: u8)
    requires LayoutOk(l) && |ram| == l.size && id < ROOM_N && InPage(va, Data(l, id))
    ensures PagesOf(l, ram[va - l.lo := value], id) ==
            PagesOf(l, ram, id).(data := PagesOf(l, ram, id).data[va - Data(l, id) := value])
    ensures PagesOf(l, ram[va - l.lo := value], 1 - id) == PagesOf(l, ram, 1 - id)
  {
    var ram': seq<u8> := ram[va - l.lo := value];
    assert PagesOf(l, ram', id).code == PagesOf(l, ram, id).code;
    assert PagesOf(l, ram', id).data == PagesOf(l, ram, id).data[va - Data(l, id) := value];
    assert PagesOf(l, ram', 1 - id).code == PagesOf(l, ram, 1 - id).code;
    assert PagesOf(l, ram', 1 - id).data == PagesOf(l, ram, 1 - id).data;
  }

  /** What a room sees through the opened tables is its own two pages. */
  lemma SeesOwnPages(l: Layout, k: Kernel)
    requires LayoutOk(l) && |k.ram| == l.size && k.cur < ROOM_N && Opened(l, k.leafs, k.cur)
    ensures Sees(l, k) == AloneSees(l, k.cur, PagesOf(l, k.ram, k.cur))
  {
    hide CanRead, CanWrite, CanExecute, Physical;
    var a, b := Sees(l, k), AloneSees(l, k.cur, PagesOf(l, k.ram, k.cur));
    forall va: u64
      ensures va in a <==> va in b
      ensures va in a ==> a[va] == b[va]
    {
      if va in a {
        assert Physical(k.leafs, va) == va;
        var p := PagesOf(l, k.ram, k.cur);
        if InPage(va, Code(l, k.cur)) {
          assert p.code[va - Code(l, k.cur)] == k.ram[va - l.lo];
        } else {
          assert p.data[va - Data(l, k.cur)] == k.ram[va - l.lo];
        }
      }
    }
  }

  // ---- Pulses ------------------------------------------------------------------------

  /** How many pulses an interval delivers, and how many of those found no entry owed. */
  datatype Tally = Tally(delivered: nat, unowed: nat)

  ghost function Pulses(l: Layout, k: Kernel, seen: seq<View>, body: Body): Tally
    requires LayoutOk(l) && |k.ram| == l.size && k.cur < ROOM_N
    decreases |body|
  {
    if body == [] then Tally(0, 0)
    else
      var now := seen + [Sees(l, k)];
      var a := body[0](now);
      var s := Step(l, k, a);
      var t := if s.left then Tally(0, 0) else Pulses(l, s.k, now, body[1..]);
      if a.Sync? && IsPulse(a.esr) && Accepted(l, k, a.arg0) then
        Tally(t.delivered + 1, if k.grant != 1 then t.unowed + 1 else t.unowed)
      else t
  }

  function PokedIf(c: bool, p: Pages): Pages
    requires PagesOk(p)
  {
    if c then p.(data := Poked(p.data)) else p
  }

  lemma PokedTwice(page: seq<u8>)
    requires |page| == 0x1000
    ensures Poked(Poked(page)) == Poked(page)
  {
  }

  /** What one interval leaves behind: everything sealed, the running room's pages as on its private
      machine, and the other room's pages untouched except for the payload of delivered pulses,
      which also decide the grant. */
  ghost predicate Outcome(l: Layout, k: Kernel, r: Kernel, seen: seq<View>, body: Body)
    requires LayoutOk(l) && |k.ram| == l.size && |r.ram| == l.size && k.cur < ROOM_N
  {
    var t := Pulses(l, k, seen, body);
    var n := t.delivered;
    && Closed(r.leafs) && r.cur == k.cur
    && PagesOf(l, r.ram, k.cur) == AloneExecute(l, k.cur, PagesOf(l, k.ram, k.cur), seen, body)
    && PagesOf(l, r.ram, 1 - k.cur) == PokedIf(0 < n, PagesOf(l, k.ram, 1 - k.cur))
    && r.grant == (if 0 < n then 1 else k.grant)
    && r.delivered == (k.delivered + n) % 0x1_0000_0000
    && (k.cur == 1 ==> n == 0)
    && t.unowed == (if 0 < n && k.grant != 1 then 1 else 0)
  }

  lemma OutcomeSealed(l: Layout, k: Kernel, reason: Exit, seen: seq<View>, body: Body)
    requires LayoutOk(l) && |k.ram| == l.size && k.cur < ROOM_N && Opened(l, k.leafs, k.cur)
    requires Pulses(l, k, seen, body) == Tally(0, 0)
    requires AloneExecute(l, k.cur, PagesOf(l, k.ram, k.cur), seen, body) == PagesOf(l, k.ram, k.cur)
    ensures Outcome(l, k, Seal(l, k, reason), seen, body)
  {
    hide Closed, PageAt, PagesOf, Priv, AloneExecute, Pulses, Opened;
    SealExact(l, k.leafs, k.cur);
  }

  lemma CountOne(d: u32, n: nat)
    ensures (Incr(d) + n) % 0x1_0000_0000 == (d + (1 + n)) % 0x1_0000_0000
  {
    var q := (d + 1) / 0x1_0000_0000;
    assert d + 1 == q * 0x1_0000_0000 + Incr(d);
    assert d + (1 + n) == q * 0x1_0000_0000 + (Incr(d) + n);
  }

  lemma AcceptedFromRoot(l: Layout, k: Kernel, arg0: u64)
    requires LayoutOk(l) && |k.ram| == l.size
    ensures Accepted(l, k, arg0) ==> k.cur == 0
  {
  }

  lemma PulseStep(l: Layout, k: Kernel, r: Kernel, seen: seq<View>, body: Body, esr: u64, arg0: u64)
    requires LayoutOk(l) && |k.ram| == l.size && |r.ram| == l.size && k.cur < ROOM_N && Opened(l, k.leafs, k.cur)
    requires body != [] && body[0](seen + [Sees(l, k)]) == Sync(esr, arg0) && IsPulse(esr)
    requires Outcome(l, Pulse(l, k, arg0), r, seen + [Sees(l, k)], body[1..])
    ensures Outcome(l, k, r, seen, body)
  {
    hide Closed, Poke, PageAt, PagesOf, Accepted, Opened, Incr, Poked, IsPulse;
    SeesOwnPages(l, k);
    AcceptedFromRoot(l, k, arg0);
    PokePulse(l, k.ram);
    PokedTwice(PagesOf(l, k.ram, 1).data);
    CountOne(k.delivered, Pulses(l, Pulse(l, k, arg0), seen + [Sees(l, k)], body[1..]).delivered);
  }

  /** A load or fetch that is allowed: the outcome of the rest is the outcome of the whole. */
  lemma LookStep(l: Layout, k: Kernel, r: Kernel, seen: seq<View>, body: Body)
    requires LayoutOk(l) && |k.ram| == l.size && |r.ram| == l.size && k.cur < ROOM_N && Opened(l, k.leafs, k.cur)
    requires body != []
    requires match body[0](seen + [Sees(l, k)])
             case Load(va) => CanRead(k.leafs, va)
             case Fetch(va) => CanExecute(k.leafs, va)
             case _ => false
    requires Outcome(l, k, r, seen + [Sees(l, k)], body[1..])
    ensures Outcome(l, k, r, seen, body)
  {
    hide Closed, PageAt, PagesOf, CanRead, CanWrite, CanExecute, Physical, Sees, AloneSees, Seal, Pulse;
    SeesOwnPages(l, k);
  }

  /** The same for a store. */
  lemma StoreStep(l: Layout, k: Kernel, r: Kernel, seen: seq<View>, body: Body, va: u64, value: u8)
    requires LayoutOk(l) && |k.ram| == l.size && |r.ram| == l.size && k.cur < ROOM_N && Opened(l, k.leafs, k.cur)
    requires body != [] && body[0](seen + [Sees(l, k)]) == Store(va, value) && CanWrite(k.leafs, va)
    requires Outcome(l, StoreByte(l, k, va, value), r, seen + [Sees(l, k)], body[1..])
    ensures Outcome(l, k, r, seen, body)
  {
    hide Closed, PageAt, PagesOf, CanRead, CanWrite, CanExecute, Physical, Sees, AloneSees, Seal, Pulse;
    SeesOwnPages(l, k);
    assert CanRead(k.leafs, va) && Physical(k.leafs, va) == va;
    StoreData(l, k.ram, k.cur, va, value);
  }

  /** An access that is refused, or an exception that is not a pulse, seals the room as it is. */
  lemma LeaveStep(l: Layout, k: Kernel, seen: seq<View>, body: Body, reason: Exit)
    requires LayoutOk(l) && |k.ram| == l.size && k.cur < ROOM_N && Opened(l, k.leafs, k.cur)
    requires body != []
    requires match body[0](seen + [Sees(l, k)])
             case Load(va) => !CanRead(k.leafs, va)
             case Store(va, value) => !CanWrite(k.leafs, va)
             case Fetch(va) => !CanExecute(k.leafs, va)
             case Sync(esr, _) => !IsPulse(esr)
    ensures Outcome(l, k, Seal(l, k, reason), seen, body)
  {
    hide Closed, Poke, PageAt, PagesOf, CanRead, CanWrite, CanExecute, Physical, Seal, Outcome, IsPulse;
    SeesOwnPages(l, k);
    OutcomeSealed(l, k, reason, seen, body);
  }

  lemma {:induction false} ExecuteOutcome(l: Layout, k: Kernel, seen: seq<View>, body: Body, intid: u32)
    requires LayoutOk(l) && |k.ram| == l.size && k.cur < ROOM_N && Opened(l, k.leafs, k.cur)
    ensures Outcome(l, k, Execute(l, k, seen, body, intid), seen, body)
    decreases |body|
  {
    hide Closed, CanRead, CanExecute, Physical, PagesOf, Accepted, Priv, Outcome, AloneExecute, Pulses, Sees;
    var r := Execute(l, k, seen, body, intid);
    var now := seen + [Sees(l, k)];
    if body == [] {
      OutcomeSealed(l, k, IrqReason(intid), seen, body) by { EmptyBody(l, k, seen); }
    } else {
      match body[0](seen + [Sees(l, k)])
      case Load(va) =>
        if CanRead(k.leafs, va) {
          ExecuteOutcome(l, k, now, body[1..], intid);
          LookStep(l, k, r, seen, body);
        } else { LeaveStep(l, k, seen, body, Fault); }
      case Store(va, value) =>
        if CanWrite(k.leafs, va) {
          assert CanRead(k.leafs, va) && Physical(k.leafs, va) == va;
          ExecuteOutcome(l, StoreByte(l, k, va, value), now, body[1..], intid);
          StoreStep(l, k, r, seen, body, va, value);
        } else { LeaveStep(l, k, seen, body, Fault); }
      case Fetch(va) =>
        if CanExecute(k.leafs, va) {
          ExecuteOutcome(l, k, now, body[1..], intid);
          LookStep(l, k, r, seen, body);
        } else { LeaveStep(l, k, seen, body, Fault); }
      case Sync(esr, arg0) =>
        if IsPulse(esr) {
          ExecuteOutcome(l, Pulse(l, k, arg0), now, body[1..], intid);
          PulseStep(l, k, r, seen, body, esr, arg0);
        } else { LeaveStep(l, k, seen, body, if IsLeave(esr) then Svc else Fault); }
    }
  }

  lemma EmptyBody(l: Layout, k: Kernel, seen: seq<View>)
    requires LayoutOk(l) && |k.ram| == l.size && k.cur < ROOM_N
    ensures Pulses(l, k, seen, []) == Tally(0, 0)
    ensures AloneExecute(l, k.cur, PagesOf(l, k.ram, k.cur), seen, []) == PagesOf(l, k.ram, k.cur)
  {
  }

  // ---- One call of run() -------------------------------------------------------------

  ghost function PulsesIn(l: Layout, k: Kernel, iv: Interval): Tally
    requires LayoutOk(l) && |k.ram| == l.size && iv.id < ROOM_N
  {
    var e := Enter(l, k, iv);
    if e.None? then Tally(0, 0) else Pulses(l, e.value, [], iv.body)
  }

  lemma EnterOutcome(l: Layout, k: Kernel, iv: Interval)
    requires LayoutOk(l) && |k.ram| == l.size && iv.id < ROOM_N && Closed(k.leafs)
    requires Enter(l, k, iv).Some?
    ensures var e := Enter(l, k, iv).value;
            && Opened(l, e.leafs, iv.id)
            && PagesOf(l, e.ram, iv.id) == Pages(iv.blob + PagesOf(l, k.ram, iv.id).code[|iv.blob|..],
                                                 if iv.wipe then Zeros() else PagesOf(l, k.ram, iv.id).data)
            && PagesOf(l, e.ram, 1 - iv.id) == PagesOf(l, k.ram, 1 - iv.id)
  {
    hide Closed, Opened, Poke, PageAt, PagesOf, Priv, UserOpen;
    PrivClosed(l, k.leafs, iv.id);
    OpenExact(l, Priv(l, k.leafs, iv.id), iv.id);
    var ram1 := if iv.wipe then Poke(l, k.ram, Data(l, iv.id), Zeros()) else k.ram;
    PokeData(l, k.ram, iv.id, Zeros());
    PokeCode(l, ram1, iv.id, iv.blob);
  }

  /** One non-halting interval: the running room's pages change as on its private machine, the other
      room's pages only by a delivered payload, and the entry bookkeeping follows the pulses. */
  lemma RunOutcome(l: Layout, k: Kernel, iv: Interval)
    requires LayoutOk(l) && |k.ram| == l.size && iv.id < ROOM_N && Closed(k.leafs)
    requires Run(l, k, iv).Some?
    ensures 0 < |iv.blob| <= 64
    ensures var r, t := Run(l, k, iv).value, PulsesIn(l, k, iv);
            && Closed(r.leafs)
            && PagesOf(l, r.ram, iv.id) == AloneRun(l, iv, PagesOf(l, k.ram, iv.id))
            && PagesOf(l, r.ram, 1 - iv.id) == PokedIf(0 < t.delivered, PagesOf(l, k.ram, 1 - iv.id))
            && (iv.id == 1 ==> k.grant == 1 && r.grant == ROOM_N && t == Tally(0, 0))
            && (iv.id == 0 ==> r.grant == if 0 < t.delivered then 1 else k.grant)
            && (iv.id == 0 ==> t.unowed == if 0 < t.delivered && k.grant != 1 then 1 else 0)
            && r.delivered == (k.delivered + t.delivered) % 0x1_0000_0000
  {
    hide Closed, Opened, Poke, PageAt, PagesOf, Priv, UserOpen, Poked, AloneExecute, Pulses, Execute;
    EnterOutcome(l, k, iv);
    ExecuteOutcome(l, Enter(l, k, iv).value, [], iv.body, iv.intid);
  }

  // ---- Whole schedules ---------------------------------------------------------------

  /** The intervals of one room, in order: Only(s, 0) is the schedule with Room 1 purged. */
  function Only(s: Schedule, id: nat): (r: Schedule)
    ensures forall iv <- r :: iv.id == id && iv in s
  {
    if s == [] then [] else (if s[0].id == id then [s[0]] else []) + Only(s[1..], id)
  }

  /** A room's pages after a list of its own intervals on the private machine. */
  ghost function Replay(l: Layout, p: Pages, s: Schedule): (r: Pages)
    requires PagesOk(p) && forall iv <- s :: 0 < |iv.blob| <= 64
    ensures PagesOk(r)
    decreases |s|
  {
    if s == [] then p else Replay(l, AloneRun(l, s[0], p), s[1..])
  }

  /** Room 0 cannot tell Room 1 exists: after any non-halting schedule its pages are those of its
      own intervals alone. */
  lemma {:induction false} Room0Private(l: Layout, k: Kernel, s: Schedule)
    requires LayoutOk(l) && |k.ram| == l.size && Closed(k.leafs) && RunAll(l, k, s).Some?
    ensures forall iv <- Only(s, 0) :: 0 < |iv.blob| <= 64
    ensures PagesOf(l, RunAll(l, k, s).value.ram, 0) == Replay(l, PagesOf(l, k.ram, 0), Only(s, 0))
    decreases |s|
  {
    hide Closed, PagesOf, Run, AloneRun;
    if s != [] {
      RunOutcome(l, k, s[0]);
      var r := Run(l, k, s[0]).value;
      Room0Private(l, r, s[1..]);
      var o := Only(s[1..], 0);
      if s[0].id == 0 {
        assert Only(s, 0) == [s[0]] + o && ([s[0]] + o)[1..] == o;
      } else {
        assert Only(s, 0) == o;
      }
    }
  }

  /** Deleting the intervals of Room 1 never makes the schedule halt, from any state at all. */
  lemma {:induction false} PurgeRuns(l: Layout, k: Kernel, k': Kernel, s: Schedule)
    requires LayoutOk(l) && |k.ram| == l.size && |k'.ram| == l.size && RunAll(l, k, s).Some?
    ensures RunAll(l, k', Only(s, 0)).Some?
    decreases |s|
  {
    hide Execute;
    if s != [] {
      var r := Run(l, k, s[0]).value;
      var o := Only(s[1..], 0);
      if s[0].id == 0 {
        assert Only(s, 0) == [s[0]] + o && ([s[0]] + o)[1..] == o;
        PurgeRuns(l, r, Run(l, k', s[0]).value, s[1..]);
      } else {
        assert Only(s, 0) == o;
        PurgeRuns(l, r, k', s[1..]);
      }
    }
  }

  lemma {:induction false} OnlyTwice(s: Schedule, id: nat)
    ensures Only(Only(s, id), id) == Only(s, id)
  {
    if s != [] {
      OnlyTwice(s[1..], id);
      var o := Only(s[1..], id);
      if s[0].id == id {
        assert Only(s, id) == [s[0]] + o && ([s[0]] + o)[1..] == o;
      } else {
        assert Only(s, id) == o;
      }
    }
  }

  /** Purge non-interference: deleting every interval of Room 1 leaves a schedule that runs without
      halting and leaves Room 0's pages exactly the same at the end. */
  lemma Purge(l: Layout, k: Kernel, s: Schedule)
    requires LayoutOk(l) && |k.ram| == l.size && Closed(k.leafs) && RunAll(l, k, s).Some?
    ensures RunAll(l, k, Only(s, 0)).Some?
    ensures PagesOf(l, RunAll(l, k, Only(s, 0)).value.ram, 0) == PagesOf(l, RunAll(l, k, s).value.ram, 0)
  {
    hide Closed, PagesOf, RunAll, Replay;
    PurgeRuns(l, k, k, s);
    Room0Private(l, k, s);
    OnlyTwice(s, 0);
    Room0Private(l, k, Only(s, 0));
  }

  // ---- The one-bit flow from Room 0 to Room 1 ------------------------------------------

  /** All that Room 1 can learn: its own intervals, and that some Room 0 interval delivered. */
  datatype Event = Ran(iv: Interval) | Got

  ghost function Events(l: Layout, k: Kernel, s: Schedule): seq<Event>
    requires LayoutOk(l) && |k.ram| == l.size && RunAll(l, k, s).Some?
    decreases |s|
  {
    if s == [] then []
    else
      (if s[0].id == 1 then [Ran(s[0])] else if 0 < PulsesIn(l, k, s[0]).delivered then [Got] else [])
      + Events(l, Run(l, k, s[0]).value, s[1..])
  }

  ghost predicate EventsOk(es: seq<Event>) {
    forall e <- es :: e.Ran? ==> 0 < |e.iv.blob| <= 64
  }

  /** Room 1's pages computed from its events alone. */
  ghost function Reception(l: Layout, p: Pages, es: seq<Event>): (r: Pages)
    requires PagesOk(p) && EventsOk(es)
    ensures PagesOk(r)
    decreases |es|
  {
    if es == [] then p
    else
      var p' := match es[0] case Ran(iv) => AloneRun(l, iv, p) case Got => p.(data := Poked(p.data));
      Reception(l, p', es[1..])
  }

  lemma {:induction false} Room1FromEvents(l: Layout, k: Kernel, s: Schedule)
    requires LayoutOk(l) && |k.ram| == l.size && Closed(k.leafs) && RunAll(l, k, s).Some?
    ensures EventsOk(Events(l, k, s))
    ensures PagesOf(l, RunAll(l, k, s).value.ram, 1) == Reception(l, PagesOf(l, k.ram, 1), Events(l, k, s))
    decreases |s|
  {
    hide Closed, PagesOf, Run, AloneRun, PulsesIn, Poked;
    if s != [] {
      RunOutcome(l, k, s[0]);
      var r := Run(l, k, s[0]).value;
      Room1FromEvents(l, r, s[1..]);
      var es := Events(l, r, s[1..]);
      if s[0].id == 1 {
        assert Events(l, k, s) == [Ran(s[0])] + es && ([Ran(s[0])] + es)[1..] == es;
      } else if 0 < PulsesIn(l, k, s[0]).delivered {
        assert Events(l, k, s) == [Got] + es && ([Got] + es)[1..] == es;
      } else {
        assert Events(l, k, s) == es;
      }
    }
  }

  /** One-bit flow: two runs that agree on Room 1's own intervals and on which Room 0 intervals
      delivered a pulse between them end with identical Room 1 pages, whatever Room 0 did. */
  lemma OneBitFlow(l: Layout, k: Kernel, k': Kernel, s: Schedule, s': Schedule)
    requires LayoutOk(l) && |k.ram| == l.size && |k'.ram| == l.size
    requires Closed(k.leafs) && Closed(k'.leafs) && PagesOf(l, k.ram, 1) == PagesOf(l, k'.ram, 1)
    requires RunAll(l, k, s).Some? && RunAll(l, k', s').Some? && Events(l, k, s) == Events(l, k', s')
    ensures PagesOf(l, RunAll(l, k, s).value.ram, 1) == PagesOf(l, RunAll(l, k', s').value.ram, 1)
  {
    hide Closed, PagesOf, RunAll, Reception, Events;
    Room1FromEvents(l, k, s);
    Room1FromEvents(l, k', s');
  }

  // ---- Entry accounting --------------------------------------------------------------

  function Owed(k: Kernel): nat {
    if k.grant == 1 then 1 else 0
  }

  /** Pulses delivered over a whole run while no entry was owed. */
  ghost function Fresh(l: Layout, k: Kernel, s: Schedule): nat
    requires LayoutOk(l) && |k.ram| == l.size && RunAll(l, k, s).Some?
    decreases |s|
  {
    if s == [] then 0 else PulsesIn(l, k, s[0]).unowed + Fresh(l, Run(l, k, s[0]).value, s[1..])
  }

  /** Every entry of Room 1 was paid for by exactly one fresh pulse: entries made plus the entry
      still owed equal the entry owed at the start plus the fresh pulses. */
  lemma {:induction false} EntryAccounting(l: Layout, k: Kernel, s: Schedule)
    requires LayoutOk(l) && |k.ram| == l.size && Closed(k.leafs) && RunAll(l, k, s).Some?
    ensures |Only(s, 1)| + Owed(RunAll(l, k, s).value) == Owed(k) + Fresh(l, k, s)
    decreases |s|
  {
    hide Closed, PagesOf, Run, AloneRun, PulsesIn;
    if s != [] {
      RunOutcome(l, k, s[0]);
      EntryAccounting(l, Run(l, k, s[0]).value, s[1..]);
    }
  }

  /** While an entry is owed, word 1 of Room 1's data page holds the payload. */
  ghost predicate OwedHolds(l: Layout, k: Kernel)
    requires LayoutOk(l) && |k.ram| == l.size
  {
    k.grant == 1 ==> PagesOf(l, k.ram, 1).data[8..16] == LeBytes(PAYLOAD, 8)
  }

  lemma {:induction false} OwedAlways(l: Layout, k: Kernel, s: Schedule)
    requires LayoutOk(l) && |k.ram| == l.size && Closed(k.leafs) && RunAll(l, k, s).Some? && OwedHolds(l, k)
    ensures OwedHolds(l, RunAll(l, k, s).value) && Closed(RunAll(l, k, s).value.leafs)
    decreases |s|
  {
    hide Closed, PagesOf, Run, AloneRun, PulsesIn;
    if s != [] {
      RunOutcome(l, k, s[0]);
      var p := PagesOf(l, k.ram, 1).data;
      assert Poked(p)[8..16] == LeBytes(PAYLOAD, 8);
      OwedAlways(l, Run(l, k, s[0]).value, s[1..]);
    }
  }

  /** As long as Room 1 is not entered its pages are as it left them, but for the payload word, and that
      word was written exactly when an entry is owed. */
  lemma {:induction false} AsRoom1LeftIt(l: Layout, k: Kernel, s: Schedule)
    requires LayoutOk(l) && |k.ram| == l.size && Closed(k.leafs) && RunAll(l, k, s).Some?
    requires k.grant == ROOM_N && forall iv <- s :: iv.id == 0
    ensures var r := RunAll(l, k, s).value;
      PagesOf(l, r.ram, 1) == PokedIf(r.grant == 1, PagesOf(l, k.ram, 1)) && (r.grant == 1 || r.grant == ROOM_N)
    decreases |s|
  {
    hide Closed, PagesOf, Run, AloneRun, PulsesIn, Poked;
    if s != [] {
      var n := |s| - 1;
      assert s[..n] + s[n..] == s && s[n..] == [s[n]] && [s[n]][1..] == [];
      RunAllSplits(l, k, s[..n], s[n..]);
      AsRoom1LeftIt(l, k, s[..n]);
      StaysClosed(l, k, s[..n]);
      var m := RunAll(l, k, s[..n]).value;
      assert RunAll(l, m, [s[n]]) == Run(l, m, s[n]);
      RunOutcome(l, m, s[n]);
      PokedTwice(PagesOf(l, k.ram, 1).data);
    }
  }

  lemma {:induction false} RunAllSplits(l: Layout, k: Kernel, a: Schedule, b: Schedule)
    requires LayoutOk(l) && |k.ram| == l.size && RunAll(l, k, a + b).Some?
    ensures RunAll(l, k, a).Some? && RunAll(l, k, a + b) == RunAll(l, RunAll(l, k, a).value, b)
    decreases |a|
  {
    hide Run;
    if a == [] {
      assert a + b == b;
    } else {
      assert (a + b)[1..] == a[1..] + b && (a + b)[0] == a[0];
      RunAllSplits(l, Run(l, k, a[0]).value, a[1..], b);
    }
  }

  lemma {:induction false} StaysClosed(l: Layout, k: Kernel, s: Schedule)
    requires LayoutOk(l) && |k.ram| == l.size && Closed(k.leafs) && RunAll(l, k, s).Some?
    ensures Closed(RunAll(l, k, s).value.leafs)
    decreases |s|
  {
    hide Closed, PagesOf, Run, AloneRun, PulsesIn;
    if s != [] {
      RunOutcome(l, k, s[0]);
      StaysClosed(l, Run(l, k, s[0]).value, s[1..]);
    }
  }

  // ---- Exclusive visibility at every step --------------------------------------------

  /** The state before action `n` of a behaviour, as long as the room has not left. */
  ghost function Before(l: Layout, k: Kernel, seen: seq<View>, body: Body, n: nat): (r: Option<Kernel>)
    requires LayoutOk(l) && |k.ram| == l.size && k.cur < ROOM_N && n <= |body|
    ensures r.Some? ==> |r.value.ram| == l.size && r.value.cur == k.cur
    decreases n
  {
    if n == 0 then Some(k)
    else
      var now := seen + [Sees(l, k)];
      var s := Step(l, k, body[0](now));
      if s.left then None else Before(l, s.k, now, body[1..], n - 1)
  }

  lemma StepKeepsLeafs(l: Layout, k: Kernel, a: Action)
    requires LayoutOk(l) && |k.ram| == l.size && k.cur < ROOM_N && !Step(l, k, a).left
    ensures Step(l, k, a).k.leafs == k.leafs
  {
    hide CanRead, CanWrite, CanExecute;
  }

  /** Before every single action of any behaviour in any entry, exactly the entered room's two pages are
      open to EL0, each with its own permissions. */
  lemma VisibleAtEveryStep(l: Layout, k: Kernel, iv: Interval, n: nat)
    requires LayoutOk(l) && |k.ram| == l.size && iv.id < ROOM_N && Closed(k.leafs) && n <= |iv.body|
    requires Enter(l, k, iv).Some? && Before(l, Enter(l, k, iv).value, [], iv.body, n).Some?
    ensures Opened(l, Before(l, Enter(l, k, iv).value, [], iv.body, n).value.leafs, iv.id)
  {
    hide Closed, Opened, PagesOf, Enter;
    EnterOutcome(l, k, iv);
    SameLeafs(l, Enter(l, k, iv).value, [], iv.body, n);
  }

  lemma {:induction false} SameLeafs(l: Layout, k: Kernel, seen: seq<View>, body: Body, n: nat)
    requires LayoutOk(l) && |k.ram| == l.size && k.cur < ROOM_N && n <= |body|
    requires Before(l, k, seen, body, n).Some?
    ensures Before(l, k, seen, body, n).value.leafs == k.leafs
    decreases n
  {
    hide Step, Sees;
    if n > 0 {
      var now := seen + [Sees(l, k)];
      StepKeepsLeafs(l, k, body[0](now));
      SameLeafs(l, Step(l, k, body[0](now)).k, now, body[1..], n - 1);
    }
  }
}
