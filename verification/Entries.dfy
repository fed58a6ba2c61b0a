/** What each kernel entry of foundation/room/room.c changes, in addresses, bytes and numbers: the meaning of
    the state machine in Rooms, without its own functions. */
module Entries {
  import opened Words
  import opened PageTables
  import opened Rooms
  import opened Separation
  import Boot

  // ---- Words as bytes ----------------------------------------------------------------

  lemma {:induction false} BytesBack(b: seq<u8>)
    ensures LeBytes(LittleEndian(b), |b|) == b
  {
    if b != [] {
      BytesBack(b[1..]);
      Digit100(b[0], LittleEndian(b[1..]));
      assert b == [b[0]] + b[1..];
    }
  }

  lemma Digit100(low: u8, high: nat)
    ensures (low + 0x100 * high) % 0x100 == low && (low + 0x100 * high) / 0x100 == high
  {
  }

  function FourLe(v: nat): seq<u8> {
    [v % 0x100, v / 0x100 % 0x100, v / 0x100 / 0x100 % 0x100, v / 0x100 / 0x100 / 0x100 % 0x100]
  }

  lemma NextLe(v: nat, n: nat)
    requires 0 < n
    ensures LeBytes(v, n) == [v % 0x100] + LeBytes(v / 0x100, n - 1)
  {
  }

  lemma NoneLe(v: nat)
    ensures LeBytes(v, 0) == []
  {
  }

  lemma FourMoreLe(v: nat, n: nat)
    requires 4 <= n
    ensures LeBytes(v, n) == FourLe(v) + LeBytes(v / 0x100 / 0x100 / 0x100 / 0x100, n - 4)
  {
    hide LeBytes;
    NextLe(v, n);
    NextLe(v / 0x100, n - 1);
    NextLe(v / 0x100 / 0x100, n - 2);
    NextLe(v / 0x100 / 0x100 / 0x100, n - 3);
  }

  lemma EightLe(v: nat)
    ensures LeBytes(v, 8) == FourLe(v) + FourLe(v / 0x100 / 0x100 / 0x100 / 0x100)
  {
    hide LeBytes, FourLe;
    var w := v / 0x100 / 0x100 / 0x100 / 0x100;
    FourMoreLe(v, 8);
    FourMoreLe(w, 4);
    NoneLe(w / 0x100 / 0x100 / 0x100 / 0x100);
  }

  lemma Literal(v: nat)
    ensures v == 0 ==> LeBytes(v, 8) == [0, 0, 0, 0, 0, 0, 0, 0]
    ensures v == 1 ==> LeBytes(v, 8) == [1, 0, 0, 0, 0, 0, 0, 0]
    ensures v == 0x5055 ==> LeBytes(v, 8) == [0x55, 0x50, 0, 0, 0, 0, 0, 0]
  {
    hide LeBytes;
    EightLe(v);
  }

  lemma Canary0()
    ensures LeBytes(0xB0B0_B0B0_B0B0, 8) == [0xB0, 0xB0, 0xB0, 0xB0, 0xB0, 0xB0, 0, 0]
  {
    hide LeBytes;
    EightLe(0xB0B0_B0B0_B0B0);
  }

  lemma Canary1()
    ensures LeBytes(0xA11C_E5A1_1CE5, 8) == [0xE5, 0x1C, 0xA1, 0xE5, 0x1C, 0xA1, 0, 0]
  {
    hide LeBytes;
    EightLe(0xA11C_E5A1_1CE5);
  }

  /** The eight bytes in RAM at address `pa`. */
  function EightAt(ram: seq<u8>, lo: nat, pa: nat): seq<u8> {
    if lo <= pa && pa + 8 <= lo + |ram| then ram[pa - lo..pa - lo + 8] else []
  }

  lemma WordBytes(b: seq<u8>, v: u64)
    requires |b| == 8
    ensures LittleEndian(b) == v <==> b == LeBytes(v, 8)
  {
    hide LittleEndian, LeBytes;
    BytesBack(b);
    assert v < Boot.Pow256(8) by { Boot.EightBytes(); }
    Boot.WordRoundTrip(v, 8);
  }

  // ---- Pulses ------------------------------------------------------------------------

  lemma AcceptedBytes(l: Layout, k: Kernel, arg0: u64)
    requires LayoutOk(l) && |k.ram| == l.size
    ensures Accepted(l, k, arg0) <==>
      && k.cur == 0 && l.base + 0x1000 <= arg0 < l.base + 0x2000
      && EightAt(k.ram, l.lo, arg0) == [1, 0, 0, 0, 0, 0, 0, 0]
      && EightAt(k.ram, l.lo, arg0 + 8) == [0x55, 0x50, 0, 0, 0, 0, 0, 0]
  {
    hide LittleEndian, LeBytes;
    if Inside(l, 0, arg0) {
      WordBytes(EightAt(k.ram, l.lo, arg0), 1);
      WordBytes(EightAt(k.ram, l.lo, arg0 + 8), 0x5055);
      Literal(1);
      Literal(0x5055);
    }
  }

  /** A pulse is taken exactly when Room 0 runs, the pointer lies in its data page, and the sixteen bytes from
      there are the words 1 and 0x5055. Then those of 0x5055 are all that changes in RAM, at byte 8 of Room 1's
      data page, Room 1 is owed an entry and one more pulse is delivered; else one more is rejected, and that
      is all. */
  lemma PulseMeans(l: Layout, k: Kernel, arg0: u64)
    requires LayoutOk(l) && |k.ram| == l.size
    ensures var r := Pulse(l, k, arg0);
      if && k.cur == 0 && l.base + 0x1000 <= arg0 < l.base + 0x2000
         && EightAt(k.ram, l.lo, arg0) == [1, 0, 0, 0, 0, 0, 0, 0]
         && EightAt(k.ram, l.lo, arg0 + 8) == [0x55, 0x50, 0, 0, 0, 0, 0, 0]
      then
        && r == k.(ram := r.ram, grant := 1, delivered := (k.delivered + 1) % 0x1_0000_0000)
        && EightAt(r.ram, l.lo, l.base + 0x3008) == [0x55, 0x50, 0, 0, 0, 0, 0, 0]
        && forall i | 0 <= i < l.size && !(l.base + 0x3008 <= l.lo + i < l.base + 0x3010) :: r.ram[i] == k.ram[i]
      else r == k.(rejected := (k.rejected + 1) % 0x1_0000_0000)
  {
    hide Accepted, LeBytes, EightAt;
    AcceptedBytes(l, k, arg0);
    Literal(0x5055);
    if Accepted(l, k, arg0) { Overwrites(l, k.ram, l.base + 0x3008, LeBytes(0x5055, 8)); }
  }

  /** What is written is there, and no other byte changes. */
  lemma Overwrites(l: Layout, ram: seq<u8>, pa: nat, b: seq<u8>)
    requires |ram| == l.size && l.lo <= pa && pa + |b| <= l.lo + l.size
    ensures forall i | 0 <= i < l.size ::
      Poke(l, ram, pa, b)[i] == if pa <= l.lo + i < pa + |b| then b[l.lo + i - pa] else ram[i]
    ensures |b| == 8 ==> EightAt(Poke(l, ram, pa, b), l.lo, pa) == b
  {
  }

  // ---- Exceptions and interrupts -----------------------------------------------------

  /** The two pages of room `id` are what only the kernel can use, and all other addresses as they were. */
  ghost predicate Hidden(l: Layout, id: nat, was: map<Page, u64>, now: map<Page, u64>) {
    forall va: u64 | va < TWO48 ::
      var w := Leaf(now, va);
      if l.base + 0x2000 * id <= va < l.base + 0x2000 * id + 0x2000
      then Present(w) && !El0(w) && !ReadOnly(w) && Uxn(w) && Pxn(w) && Output(w) == va / 0x1000 * 0x1000
      else w == Leaf(was, va)
  }

  lemma PrivHides(l: Layout, m: map<Page, u64>, id: nat)
    requires LayoutOk(l) && id < ROOM_N
    ensures Hidden(l, id, m, Priv(l, m, id))
  {
    hide PageOf, PageNumber, LeafWord, Priv, Leaf, Present, El0, ReadOnly, Uxn, Pxn, Output;
    forall va: u64 | va < TWO48
      ensures var w := Leaf(Priv(l, m, id), va);
        if l.base + 0x2000 * id <= va < l.base + 0x2000 * id + 0x2000
        then Present(w) && !El0(w) && !ReadOnly(w) && Uxn(w) && Pxn(w) && Output(w) == va / 0x1000 * 0x1000
        else w == Leaf(m, va)
    {
      PrivLeaf(l, m, id, va);
      KernelPage(Code(l, id), va);
      KernelPage(Data(l, id), va);
    }
  }

  lemma KernelPage(pa: u64, va: u64)
    requires pa % 0x1000 == 0 && va < TWO48
    ensures InPage(va, pa) ==>
      var w := LeafWord(PageOf(pa), MAP_RW);
      Present(w) && !El0(w) && !ReadOnly(w) && Uxn(w) && Pxn(w) && Output(w) == va / 0x1000 * 0x1000
  {
    hide PageOf, LeafWord, Present, El0, ReadOnly, Uxn, Pxn, Output;
    if InPage(va, pa) {
      LeafBits(PageOf(pa), MAP_RW);
      PageNumberOf(pa);
      FrameIs(pa, va);
    }
  }

  lemma FrameIs(pa: u64, va: u64)
    requires pa % 0x1000 == 0 && InPage(va, pa)
    ensures va / 0x1000 * 0x1000 == pa
  {
  }

  /** An SVC with immediate 1 is a pulse, and the room goes on. Every other exception hides the running room's
      pages and leaves RAM, the grant and the counters alone; it is a leave exactly for an SVC with immediate 0. */
  lemma ExceptionMeans(l: Layout, k: Kernel, esr: u64, arg0: u64)
    requires LayoutOk(l) && |k.ram| == l.size && k.cur < ROOM_N
    ensures var svc := esr / 0x400_0000 % 0x40 == 0x15;
      if svc && esr % 0x1_0000 == 1 then Exception(l, k, esr, arg0) == Pulse(l, k, arg0)
      else
        var r := Exception(l, k, esr, arg0);
        && r == k.(leafs := r.leafs, reason := if svc && esr % 0x1_0000 == 0 then Svc else Fault)
        && Hidden(l, k.cur, k.leafs, r.leafs)
    ensures Step(l, k, Sync(esr, arg0)).left <==> !(esr / 0x400_0000 % 0x40 == 0x15 && esr % 0x1_0000 == 1)
  {
    hide Pulse, Priv, Hidden;
    PrivHides(l, k.leafs, k.cur);
  }

  /** An interrupt does the same with its own reason: the timer is 30, from 1020 on there is none. */
  lemma InterruptMeans(l: Layout, k: Kernel, intid: u32)
    requires LayoutOk(l) && |k.ram| == l.size && k.cur < ROOM_N
    ensures var r := Execute(l, k, [], [], intid);
      && r == k.(leafs := r.leafs,
                 reason := if intid == 30 then Irq else if intid < 1020 then Foreign else Fault)
      && Hidden(l, k.cur, k.leafs, r.leafs)
  {
    hide Priv, Hidden;
    PrivHides(l, k.leafs, k.cur);
  }

  // ---- Entering a room ---------------------------------------------------------------

  /** run() reaches nxu_fail exactly for a Room 1 that is owed nothing, code of no or more than 64 bytes, or a
      timer that cannot be armed ahead. Else the code is at the front of the code page, the data page is zero
      when it is wiped, no other byte changes, an entry of Room 1 spends the grant, and of closed tables
      exactly the room's own two pages are open. */
  lemma EnterMeans(l: Layout, k: Kernel, iv: Interval)
    requires LayoutOk(l) && |k.ram| == l.size && iv.id < ROOM_N
    ensures Enter(l, k, iv).None? <==>
      || (iv.id == 1 && k.grant != 1) || |iv.blob| == 0 || |iv.blob| > 64 || !iv.armed
    ensures Enter(l, k, iv).Some? ==>
      var r := Enter(l, k, iv).value;
      && r == k.(ram := r.ram, leafs := r.leafs, cur := iv.id, grant := if iv.id == 0 then k.grant else 2)
      && (Closed(k.leafs) ==> Opened(l, r.leafs, iv.id))
      && forall i | 0 <= i < l.size ::
           var at := l.lo + i - (l.base + 0x2000 * iv.id);
           r.ram[i] == if 0 <= at < |iv.blob| then iv.blob[at]
                       else if iv.wipe && 0x1000 <= at < 0x2000 then 0
                       else k.ram[i]
  {
    hide UserOpen, Priv, Closed, Opened, Poke, EightAt;
    if Enter(l, k, iv).Some? {
      if Closed(k.leafs) {
        PrivClosed(l, k.leafs, iv.id);
        OpenExact(l, Priv(l, k.leafs, iv.id), iv.id);
      }
      var ram1 := if iv.wipe then Poke(l, k.ram, Data(l, iv.id), Zeros()) else k.ram;
      if iv.wipe { Overwrites(l, k.ram, Data(l, iv.id), Zeros()); }
      Overwrites(l, ram1, Code(l, iv.id), iv.blob);
    }
  }
}
