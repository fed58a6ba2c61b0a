/** The two-room separation kernel of foundation/room/room.c as a state machine on values:
    what one kernel entry does to RAM, to the leaf map of the page tables and to the kernel's
    own variables, and what an EL0 interval may do under the permissions the map grants.
    The class in RoomKernel.dfy carries the same operations out on the mutable state. */
module Rooms {
  import opened Words
  import opened PageTables

  const ROOM_N: nat := 2
  const PAYLOAD: u64 := 0x5055

  datatype Exit = NoExit | Svc | Irq | Fault | Foreign

  /** RAM is one flat array [lo, lo + size); the four room pages start at `base`. */
  datatype Layout = Layout(lo: u64, size: u64, base: u64)

  predicate LayoutOk(l: Layout) {
    && l.base % 0x1000 == 0
    && l.lo <= l.base && l.base + 0x4000 <= l.lo + l.size
    && l.lo + l.size < TWO48
  }

  function Code(l: Layout, id: nat): nat {
    l.base + 2 * id * 0x1000
  }

  function Data(l: Layout, id: nat): nat {
    l.base + (2 * id + 1) * 0x1000
  }

  datatype Kernel = Kernel(ram: seq<u8>, leafs: map<Page, u64>, cur: nat, grant: nat,
                           delivered: u32, rejected: u32, reason: Exit)

  // ---- Memory ------------------------------------------------------------------------

  function PageAt(l: Layout, ram: seq<u8>, pa: nat): seq<u8>
    requires |ram| == l.size && l.lo <= pa && pa + 0x1000 <= l.lo + l.size
  {
    ram[pa - l.lo .. pa - l.lo + 0x1000]
  }

  /** Overwrite bytes starting at physical address `pa`. */
  function Poke(l: Layout, ram: seq<u8>, pa: nat, bytes: seq<u8>): (r: seq<u8>)
    requires |ram| == l.size && l.lo <= pa && pa + |bytes| <= l.lo + l.size
    ensures |r| == |ram|
  {
    ram[..pa - l.lo] + bytes + ram[pa - l.lo + |bytes|..]
  }

  function LittleEndian(b: seq<u8>): nat {
    if b == [] then 0 else b[0] as int + 0x100 * LittleEndian(b[1..])
  }

  function LeBytes(v: nat, n: nat): (b: seq<u8>)
    ensures |b| == n
  {
    if n == 0 then [] else [v % 0x100] + LeBytes(v / 0x100, n - 1)
  }

  /** A 64-bit load from any byte address, as the kernel makes it with alignment checks off. */
  function Load64(l: Layout, ram: seq<u8>, pa: nat): nat
    requires |ram| == l.size && l.lo <= pa && pa + 8 <= l.lo + l.size
  {
    LittleEndian(ram[pa - l.lo .. pa - l.lo + 8])
  }

  // ---- Permissions -------------------------------------------------------------------

  ghost function Remap(m: map<Page, u64>, pa: u64, perm: u32): map<Page, u64> {
    Mapped(m, Touched(pa, 0x1000), perm)
  }

  ghost function Priv(l: Layout, m: map<Page, u64>, id: nat): map<Page, u64>
    requires LayoutOk(l) && id < ROOM_N
  {
    Remap(Remap(m, Code(l, id), MAP_RW), Data(l, id), MAP_RW)
  }

  ghost function UserOpen(l: Layout, m: map<Page, u64>, id: nat): map<Page, u64>
    requires LayoutOk(l) && id < ROOM_N
  {
    Remap(Remap(Priv(l, Priv(l, m, 0), 1), Code(l, id), MAP_USER_RX), Data(l, id), MAP_USER_RW)
  }

  function Leaf(m: map<Page, u64>, va: u64): u64 {
    Lookup(m, PageOf(va))
  }

  // The EL0 permission check of one access: addresses from 2^48 up always fault (TCR.T0SZ is 16).
  predicate CanRead(m: map<Page, u64>, va: u64) {
    va < TWO48 && Present(Leaf(m, va)) && El0(Leaf(m, va))
  }

  predicate CanWrite(m: map<Page, u64>, va: u64) {
    CanRead(m, va) && !ReadOnly(Leaf(m, va))
  }

  predicate CanExecute(m: map<Page, u64>, va: u64) {
    va < TWO48 && Present(Leaf(m, va)) && !Uxn(Leaf(m, va))
  }

  function Physical(m: map<Page, u64>, va: u64): nat {
    Output(Leaf(m, va)) + va % 0x1000
  }

  /** No page is accessible to EL0 in any way. */
  ghost predicate NoUser(m: map<Page, u64>) {
    forall p <- m :: !El0(m[p]) && Uxn(m[p])
  }

  ghost predicate InPage(va: int, pa: int) {
    pa <= va < pa + 0x1000
  }

  // ---- Kernel entries ----------------------------------------------------------------

  function Inside(l: Layout, id: nat, addr: u64): bool {
    !(addr < Data(l, id)) && !(addr >= Data(l, id) + 0x1000)
  }

  function Incr(n: u32): u32 {
    (n + 1) % 0x1_0000_0000
  }

  /** What pulse() decides: the pointer alone is checked, then two words are read from it. */
  ghost predicate Accepted(l: Layout, k: Kernel, arg0: u64)
    requires LayoutOk(l) && |k.ram| == l.size
  {
    && k.cur == 0 && Inside(l, 0, arg0)
    && Load64(l, k.ram, arg0) == 1
    && Load64(l, k.ram, arg0 + 8) == PAYLOAD
  }

  /** Word 1 of a data page set to the payload. */
  function Poked(page: seq<u8>): (r: seq<u8>)
    requires |page| == 0x1000
    ensures |r| == 0x1000
  {
    page[..8] + LeBytes(PAYLOAD, 8) + page[16..]
  }

  ghost function Pulse(l: Layout, k: Kernel, arg0: u64): (r: Kernel)
    requires LayoutOk(l) && |k.ram| == l.size
    ensures |r.ram| == l.size
  {
    if Accepted(l, k, arg0) then
      k.(ram := Poke(l, k.ram, Data(l, 1) + 8, LeBytes(PAYLOAD, 8)), delivered := Incr(k.delivered), grant := 1)
    else
      k.(rejected := Incr(k.rejected))
  }

  ghost function Seal(l: Layout, k: Kernel, reason: Exit): Kernel
    requires LayoutOk(l) && k.cur < ROOM_N
  {
    k.(leafs := Priv(l, k.leafs, k.cur), reason := reason)
  }

  // ESR_EL1: exception class in bits 26-31, SVC immediate in bits 0-15.
  function EcOf(esr: u64): nat { esr / 0x400_0000 % 0x40 }
  function ImmOf(esr: u64): nat { esr % 0x1_0000 }

  const ESR_DATA_ABORT: u64 := 0x24 * 0x400_0000
  const ESR_INSTR_ABORT: u64 := 0x20 * 0x400_0000

  predicate IsPulse(esr: u64) { EcOf(esr) == 0x15 && ImmOf(esr) == 1 }
  predicate IsLeave(esr: u64) { EcOf(esr) == 0x15 && ImmOf(esr) == 0 }

  /** nxu_room_exception: a pulse resumes the room, everything else ends the interval. */
  ghost function Exception(l: Layout, k: Kernel, esr: u64, arg0: u64): Kernel
    requires LayoutOk(l) && |k.ram| == l.size && k.cur < ROOM_N
  {
    if IsPulse(esr) then Pulse(l, k, arg0)
    else if IsLeave(esr) then Seal(l, k, Svc)
    else Seal(l, k, Fault)
  }

  function IrqReason(intid: u32): Exit {
    if intid >= 1020 then Fault
    else if intid != TIMER_PPI then Foreign
    else Irq
  }

  // ---- EL0 ---------------------------------------------------------------------------

  /** What a room can see: the bytes of RAM its translations let it read. */
  type View = map<u64, u8>

  datatype Action = Load(va: u64) | Store(va: u64, value: u8) | Fetch(va: u64) | Sync(esr: u64, arg0: u64)

  /** A room's behaviour is arbitrary, but each step can depend only on what the room has seen since it
      was entered: it remembers everything. */
  type Body = seq<seq<View> -> Action>

  /** One call of run(): the entered room, the code copied in, its behaviour, whether the timer could
      be armed ahead of the counter, and the interrupt that ends it if it never leaves by itself. */
  datatype Interval = Interval(id: nat, blob: seq<u8>, wipe: bool, body: Body, armed: bool, intid: u32)

  ghost predicate InRam(l: Layout, pa: nat) {
    l.lo <= pa < l.lo + l.size
  }

  ghost function Sees(l: Layout, k: Kernel): View
    requires |k.ram| == l.size
  {
    map va: u64 | va < TWO48 && CanRead(k.leafs, va) && InRam(l, Physical(k.leafs, va))
      :: k.ram[Physical(k.leafs, va) - l.lo]
  }

  ghost function StoreByte(l: Layout, k: Kernel, pa: nat, value: u8): (r: Kernel)
    requires |k.ram| == l.size
    ensures |r.ram| == l.size
  {
    if InRam(l, pa) then k.(ram := k.ram[pa - l.lo := value]) else k
  }

  datatype Stepped = Stepped(k: Kernel, left: bool)

  /** One EL0 action under the permissions of the map: it goes through, resumes after a pulse, or
      takes an exception that ends the interval. */
  ghost function Step(l: Layout, k: Kernel, a: Action): (r: Stepped)
    requires LayoutOk(l) && |k.ram| == l.size && k.cur < ROOM_N
    ensures |r.k.ram| == l.size && r.k.cur == k.cur
  {
    match a
    case Load(va) =>
      if CanRead(k.leafs, va) then Stepped(k, false) else Stepped(Exception(l, k, ESR_DATA_ABORT, 0), true)
    case Store(va, value) =>
      if CanWrite(k.leafs, va) then Stepped(StoreByte(l, k, Physical(k.leafs, va), value), false)
      else Stepped(Exception(l, k, ESR_DATA_ABORT, 0), true)
    case Fetch(va) =>
      if CanExecute(k.leafs, va) then Stepped(k, false) else Stepped(Exception(l, k, ESR_INSTR_ABORT, 0), true)
    case Sync(esr, arg0) => Stepped(Exception(l, k, esr, arg0), !IsPulse(esr))
  }

  /** Run an EL0 behaviour until the room leaves, faults or is interrupted. */
  ghost function Execute(l: Layout, k: Kernel, seen: seq<View>, body: Body, intid: u32): (r: Kernel)
    requires LayoutOk(l) && |k.ram| == l.size && k.cur < ROOM_N
    ensures |r.ram| == l.size && r.cur == k.cur
    decreases |body|
  {
    if body == [] then Seal(l, k, IrqReason(intid))
    else
      var now := seen + [Sees(l, k)];
      var s := Step(l, k, body[0](now));
      if s.left then s.k else Execute(l, s.k, now, body[1..], intid)
  }

  /** The same for a fixed list of actions. */
  ghost function Perform(l: Layout, k: Kernel, actions: seq<Action>, intid: u32): (r: Kernel)
    requires LayoutOk(l) && |k.ram| == l.size && k.cur < ROOM_N
    ensures |r.ram| == l.size && r.cur == k.cur
    decreases |actions|
  {
    if actions == [] then Seal(l, k, IrqReason(intid))
    else
      var s := Step(l, k, actions[0]);
      if s.left then s.k else Perform(l, s.k, actions[1..], intid)
  }

  /** The actions that a behaviour turns into from a given state. */
  ghost function Trace(l: Layout, k: Kernel, seen: seq<View>, body: Body): seq<Action>
    requires LayoutOk(l) && |k.ram| == l.size && k.cur < ROOM_N
    decreases |body|
  {
    if body == [] then []
    else
      var now := seen + [Sees(l, k)];
      var a := body[0](now);
      var s := Step(l, k, a);
      [a] + if s.left then [] else Trace(l, s.k, now, body[1..])
  }

  /** A behaviour is the list of actions it turns into. */
  lemma {:induction false} ExecuteIsPerform(l: Layout, k: Kernel, seen: seq<View>, body: Body, intid: u32)
    requires LayoutOk(l) && |k.ram| == l.size && k.cur < ROOM_N
    ensures Execute(l, k, seen, body, intid) == Perform(l, k, Trace(l, k, seen, body), intid)
    decreases |body|
  {
    hide Step, Sees;
    if body != [] {
      var now := seen + [Sees(l, k)];
      var s := Step(l, k, body[0](now));
      if !s.left {
        ExecuteIsPerform(l, s.k, now, body[1..], intid);
        assert Trace(l, k, seen, body)[1..] == Trace(l, s.k, now, body[1..]);
      }
    }
  }

  // ---- run() -------------------------------------------------------------------------

  datatype Option<T> = None | Some(value: T)

  function ZeroFill(n: nat): (b: seq<u8>)
    ensures |b| == n
  {
    seq(n, _ => 0)
  }

  function Zeros(): seq<u8> {
    ZeroFill(0x1000)
  }

  /** run() up to nxu_room_enter; None stands for nxu_fail. */
  ghost function Enter(l: Layout, k: Kernel, iv: Interval): (r: Option<Kernel>)
    requires LayoutOk(l) && |k.ram| == l.size && iv.id < ROOM_N
    ensures r.Some? ==> |r.value.ram| == l.size && r.value.cur == iv.id
  {
    if iv.id != 0 && k.grant != iv.id then None
    else if |iv.blob| == 0 || |iv.blob| > 64 then None
    else if !iv.armed then None
    else
      var ram1 := if iv.wipe then Poke(l, k.ram, Data(l, iv.id), Zeros()) else k.ram;
      var ram2 := Poke(l, ram1, Code(l, iv.id), iv.blob);
      Some(k.(ram := ram2, grant := if iv.id != 0 then ROOM_N else k.grant, cur := iv.id,
              leafs := UserOpen(l, Priv(l, k.leafs, iv.id), iv.id)))
  }

  ghost function Run(l: Layout, k: Kernel, iv: Interval): (r: Option<Kernel>)
    requires LayoutOk(l) && |k.ram| == l.size && iv.id < ROOM_N
    ensures r.Some? ==> |r.value.ram| == l.size && r.value.cur == iv.id
  {
    var e := Enter(l, k, iv);
    if e.None? then None else Some(Execute(l, e.value, [], iv.body, iv.intid))
  }

  type Schedule = s: seq<Interval> | forall iv <- s :: iv.id < ROOM_N witness []

  ghost function RunAll(l: Layout, k: Kernel, s: Schedule): (r: Option<Kernel>)
    requires LayoutOk(l) && |k.ram| == l.size
    ensures r.Some? ==> |r.value.ram| == l.size
    decreases |s|
  {
    if s == [] then Some(k)
    else
      var r := Run(l, k, s[0]);
      if r.None? then None else RunAll(l, r.value, s[1..])
  }
}
