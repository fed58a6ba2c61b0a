/** nxu_rooms_run (foundation/room/room.c) on the machine of RoomKernel: the bodies of Blobs are run
    by an interpreter, and the driver's own checks are carried out on the page tables and RAM. */
module Driver {
  import opened Words
  import opened PageTables
  import opened Rooms
  import opened Separation
  import opened RoomKernel
  import opened A64
  import opened Blobs
  import Boot
  import opened Entries

  const CANARY0: u64 := 0xB0B0_B0B0_B0B0
  const CANARY1: u64 := 0xA11C_E5A1_1CE5

  // ---- The processor -----------------------------------------------------------------

  lemma {:induction false} LoadsKeep(l: Layout, k: Kernel, va: u64, n: nat)
    requires LayoutOk(l) && |k.ram| == l.size && k.cur < ROOM_N
    ensures !Loads(l, k, va, n).left ==> Loads(l, k, va, n).k == k
    decreases n
  {
    hide CanRead, CanWrite, CanExecute, Exception;
    if n > 0 && !Step(l, k, Load(va)).left { LoadsKeep(l, k, Add64(va, 1), n - 1); }
  }

  /** A 64-bit load: every byte is checked, then the word is read. */
  method LoadWord(m: Machine, va: u64) returns (left: bool, v: u64)
    requires m.Valid() && m.Mapped4()
    modifies m`grant, m`delivered, m`rejected, m`reason, m.t, m.t.pt, m.ram
    ensures m.Valid() && m.Mapped4() && m.t.used == old(m.t.used)
    ensures var s := Loads(m.l, old(m.State()), va, 8);
      m.State() == s.k && left == s.left && (!left ==> v == Loaded(m.l, old(m.State()).ram, va))
  {
    hide PageOf, ShapeOk, LeafsOk, Nodes, Step, Load64;
    v := 0;
    ghost var k := m.State();
    LoadsKeep(m.l, k, va, 8);
    var at := va;
    for i := 0 to 8
      invariant m.Valid() && m.Mapped4() && m.t.used == old(m.t.used)
      invariant Loads(m.l, m.State(), at, 8 - i) == Loads(m.l, k, va, 8)
    {
      left := m.Act(Load(at));
      if left { return; }
      at := Add64(at, 1);
    }
    left := false;
    if m.l.lo <= va && va + 8 <= m.l.lo + m.l.size {
      var w := m.ReadWord(va);
      v := w % 0x1_0000_0000_0000_0000;
    }
  }

  /** A 64-bit store, byte by byte. */
  method StoreWord(m: Machine, va: u64, v: u64) returns (left: bool)
    requires m.Valid() && m.Mapped4()
    modifies m`grant, m`delivered, m`rejected, m`reason, m.t, m.t.pt, m.ram
    ensures m.Valid() && m.Mapped4() && m.t.used == old(m.t.used)
    ensures var s := Stores(m.l, old(m.State()), va, LeBytes(v, 8)); m.State() == s.k && left == s.left
  {
    hide PageOf, ShapeOk, LeafsOk, Nodes, Step, LeBytes;
    var b := LeBytes(v, 8);
    ghost var k := m.State();
    var at := va;
    for i := 0 to 8
      invariant m.Valid() && m.Mapped4() && m.t.used == old(m.t.used)
      invariant Stores(m.l, m.State(), at, b[i..]) == Stores(m.l, k, va, b)
    {
      assert b[i..][1..] == b[i + 1..];
      left := m.Act(Store(at, b[i]));
      if left { return; }
      at := Add64(at, 1);
    }
    left := false;
  }

  /** One instruction, once it is fetched. */
  method Execute1(m: Machine, i: Instr, r: Regs, pc: u64, junk: Regs) returns (left: bool, r': Regs, pc': u64)
    requires m.Valid() && m.Mapped4()
    modifies m`grant, m`delivered, m`rejected, m`reason, m.t, m.t.pt, m.ram
    ensures m.Valid() && m.Mapped4() && m.t.used == old(m.t.used)
    ensures var d := Do(m.l, old(m.State()), i, r, pc, junk);
      m.State() == d.k && left == d.left && (!left ==> r' == d.r && pc' == d.pc)
  {
    hide PageOf, ShapeOk, LeafsOk, Nodes, Step, LeBytes, Loads, Stores, Loaded;
    left, r', pc' := false, r, Add64(pc, 4);
    match i
    case Movz(rd, imm) => r' := Set(r, rd, imm % 0x1_0000);
    case MovReg(rd, rm) => r' := Set(r, rd, Reg(r, rm));
    case Ldr(rt, rn, off) =>
      var v;
      left, v := LoadWord(m, Add64(Reg(r, rn), off % TWO64));
      r' := Set(r, rt, v);
    case Str(rt, rn, off) => left := StoreWord(m, Add64(Reg(r, rn), off % TWO64), Reg(r, rt));
    case Br(rn) => pc' := Reg(r, rn);
    case B(words) => pc' := (pc + 4 * words) % 0x1_0000_0000_0000_0000;
    case Call(imm) =>
      left := m.Act(Sync(SvcEsr(imm), r[0]));
      r' := Pulsed(r, junk);
    case MsrTval(_) => left := m.Act(Sync(ESR_TRAP, r[0]));
    case Other => left := m.Act(Sync(ESR_UNKNOWN, r[0]));
  }

  /** The fetch: a check of the address, and the word from RAM. */
  method FetchWord(m: Machine, r: Regs, pc: u64) returns (left: bool, w: u32)
    requires m.Valid() && m.Mapped4()
    modifies m`grant, m`delivered, m`rejected, m`reason, m.t, m.t.pt, m.ram
    ensures m.Valid() && m.Mapped4() && m.t.used == old(m.t.used)
    ensures var f := Fetches(m.l, old(m.State()), r, pc);
      m.State() == f.k && left == f.left && (!left ==> f.k == old(m.State()) && w == Fetched(m.l, f.k, pc))
  {
    hide PageOf, ShapeOk, LeafsOk, Nodes, Output, Lookup, LittleEndian, Exception, CanExecute;
    FetchKeeps(m.l, m.State(), r, pc);
    w := 0;
    if pc % 4 != 0 {
      left := m.Act(Sync(ESR_PC, r[0]));
      return;
    }
    left := m.Act(Fetch(pc));
    if left { return; }
    var e := m.t.Leaf(pc);
    var pa := Output(e) + pc % 0x1000;
    if m.l.lo <= pa && pa + 4 <= m.l.lo + m.l.size {
      var at := pa - m.l.lo;
      assert m.ram[at .. at + 4] == m.ram[..][at .. at + 4];
      w := LittleEndian(m.ram[at .. at + 4]) % 0x1_0000_0000;
    }
  }

  lemma FetchKeeps(l: Layout, k: Kernel, r: Regs, pc: u64)
    requires LayoutOk(l) && |k.ram| == l.size && k.cur < ROOM_N
    ensures !Fetches(l, k, r, pc).left ==> Fetches(l, k, r, pc).k == k
  {
    hide Exception, CanExecute;
    NoPulse();
  }

  lemma NoPulse()
    ensures !IsPulse(ESR_PC)
  {
  }

  /** EL0 from nxu_room_enter until the room leaves or is interrupted: instructions are fetched from RAM. */
  method Interpret(m: Machine, v: Visit, n: nat, env: Env)
    requires m.Valid() && m.Mapped4()
    modifies m`grant, m`delivered, m`rejected, m`reason, m.t, m.t.pt, m.ram
    ensures m.Valid() && m.Mapped4() && m.t.used == old(m.t.used)
    ensures m.State() == ExecFrom(m.l, old(m.State()), v, n, env)
  {
    hide PageOf, ShapeOk, LeafsOk, Nodes, Do, Seal, Fetches, Fetched, Decode;
    var intid: u32 := if v.poke then 0 else TIMER_PPI;
    var r, junk := StartRegs(m.l, m.cur, v.fault, env.regs(n)), env.junk(n);
    var pc: u64 := Code(m.l, m.cur);
    ghost var goal := Exec(m.l, m.State(), pc, r, env.slice(n), intid, junk);
    for left := env.slice(n) downto 0
      invariant m.Valid() && m.Mapped4() && m.t.used == old(m.t.used)
      invariant Exec(m.l, m.State(), pc, r, left, intid, junk) == goal
    {
      var gone, w := FetchWord(m, r, pc);
      if gone { return; }
      gone, r, pc := Execute1(m, Decode(w), r, pc, junk);
      if gone { return; }
    }
    m.TakeIrq(intid);
  }

  // ---- The driver's steps ------------------------------------------------------------

  /** Between two entries: the tables are sound, the four room pages mapped, nothing open to EL0, and the
      machine is where the entries made so far lead. */
  ghost predicate Ready(m: Machine, env: Env)
    reads m, m.t, m.t.pt, m.ram
  {
    && m.Valid() && m.Mapped4() && Good(m.l, m.State())
    && Leads(m.l, m.start, m.visits, env, m.State())
  }

  ghost function Now(m: Machine): Summary
    reads m, m.t, m.t.pt, m.ram
  {
    if m.Valid() then SummaryOf(m.l, m.State()) else Summary(Shown(0, 0, 0, 0, 0), 0, 0, 0, NoExit)
  }

  /** Every slice is long enough for sixteen instructions. */
  ghost predicate Long(env: Env) {
    forall n: nat :: Ample(env, n)
  }

  predicate Ticks(freq: u64) {
    0 < freq / 10 <= 0x7fff_ffff
  }

  /** run(), with a slice that the compare register can hold and that has not passed yet. */
  method Run(m: Machine, id: u32, code: Program, x1: u64, poke: bool, freq: u64, env: Env) returns (ok: bool)
    requires Ready(m, env) && id < ROOM_N && Ticks(freq)
    modifies m`cur, m`grant, m`delivered, m`rejected, m`reason, m`visits, m.t, m.t.pt, m.ram
    ensures ok <==> id == 0 || old(m.grant) == id
    ensures ok ==> m.Valid() && m.Mapped4() && m.t.used == old(m.t.used)
    ensures ok ==> m.visits == old(m.visits) + [VisitOf(id, code, x1, poke)]
    ensures ok ==> LeadsOn(m.l, old(m.State()), VisitOf(id, code, x1, poke), |old(m.visits)|, env, m.State())
    ensures ok ==> Leads(m.l, m.start, m.visits, env, m.State())
  {
    hide PageOf, ShapeOk, LeafsOk, Nodes, Closed, UserOpen, Priv, Poke, ExecFrom, Assemble, Leads;
    ghost var k := m.State();
    var v, n := VisitOf(id, code, x1, poke), |m.visits|;
    ghost var vs := m.visits;
    ok := m.EnterRoom(v, freq, false);
    if !ok { return; }
    Interpret(m, v, n, env);
    LeadsFurther(m.l, m.start, vs, env, k, v, m.State());
  }

  /** expect() and check_time(). The counter is taken to have reached the compare exactly when the
      timer interrupt ended the room. */
  method Ended(m: Machine, reason: Exit, hit: bool) returns (ok: bool)
    ensures ok <==> m.reason == reason && (hit <==> reason == Irq)
  {
    if m.reason != reason { return false; }
    ok := hit == (m.reason == Irq);
  }

  /** A body whose access is refused, and the check that it was contained in time. */
  method Contain(m: Machine, id: u32, code: Program, x1: u64, freq: u64, env: Env) returns (ok: bool)
    requires Ready(m, env) && Long(env) && id < ROOM_N && Ticks(freq)
    requires (id == 0 || Now(m).grant == id) && OutOfReach(m.l, id, code[0], x1)
    modifies m`cur, m`grant, m`delivered, m`rejected, m`reason, m`visits, m.t, m.t.pt, m.ram
    ensures ok && Ready(m, env) && m.t.used == old(m.t.used)
    ensures m.visits == old(m.visits) + [VisitOf(id, code, x1, false)]
    ensures Now(m) == old(Now(m)).(grant := if id == 0 then old(Now(m).grant) else ROOM_N, reason := Fault)
    ensures m.ram[..] == Poke(m.l, old(m.ram[..]), Code(m.l, id), Assemble(code))
  {
    hide PageOf, ShapeOk, LeafsOk, Nodes, Closed, OutOfReach, Poke, Assemble, RunVisit, Leads, ShownOf;
    RunRefused(m.l, m.State(), id, code, x1, |m.visits|, env);
    ok := Run(m, id, code, x1, false, freq, env);
    if !ok { return; }
    ok := Ended(m, Fault, false);
  }

  /** A body of Room 0 whose pulse is rejected, ending in a call. */
  method Reject(m: Machine, code: Program, x1: u64, freq: u64, env: Env) returns (ok: bool)
    requires Ready(m, env) && Long(env) && Ticks(freq) && (code == MAL || code == PAY || code == BAD)
    requires code == BAD ==> !(Data(m.l, 0) <= x1 < Data(m.l, 0) + 0x1000)
    requires code != BAD ==> x1 == 0
    modifies m`cur, m`grant, m`delivered, m`rejected, m`reason, m`visits, m.t, m.t.pt, m.ram
    ensures ok && Ready(m, env) && m.t.used == old(m.t.used)
    ensures m.visits == old(m.visits) + [VisitOf(0, code, x1, false)]
    ensures Now(m) == old(Now(m)).(rejected := Incr(old(Now(m).rejected)), reason := Svc)
  {
    hide PageOf, ShapeOk, LeafsOk, Nodes, Closed, RunVisit, Leads, ShownOf, Incr;
    if code == MAL { RunMalformed(m.l, m.State(), 0, MAL, 2, 0x5055, |m.visits|, env); }
    else if code == PAY { RunMalformed(m.l, m.State(), 0, PAY, 1, 1, |m.visits|, env); }
    else { RunBad(m.l, m.State(), x1, |m.visits|, env); }
    ok := Run(m, 0, code, x1, false, freq, env);
    if !ok { return; }
    ok := Ended(m, Svc, false);
  }

  /** send_once() */
  method SendOnce(m: Machine, freq: u64, env: Env) returns (ok: bool)
    requires Ready(m, env) && Long(env) && Ticks(freq)
    modifies m`cur, m`grant, m`delivered, m`rejected, m`reason, m`visits, m.t, m.t.pt, m.ram
    ensures ok && Ready(m, env) && m.t.used == old(m.t.used)
    ensures m.visits == old(m.visits) + [VisitOf(0, SEND, 0, false)]
    ensures Now(m) == old(Now(m)).(shown := old(Now(m)).shown.(payload := PAYLOAD), grant := 1,
                                   delivered := Incr(old(Now(m).delivered)), reason := Svc)
  {
    hide PageOf, ShapeOk, LeafsOk, Nodes, Closed, RunVisit, Leads, ShownOf;
    var d := m.delivered;
    RunSend(m.l, m.State(), |m.visits|, env);
    ok := Run(m, 0, SEND, 0, false, freq, env);
    if !ok { return; }
    ok := Ended(m, Svc, false);
    if !ok { return; }
    if m.delivered != Incr(d) { ok := false; }
  }

  /** Room 1 with its spinning body, ended by an interrupt. */
  method Preempt(m: Machine, poke: bool, freq: u64, env: Env) returns (ok: bool)
    requires Ready(m, env) && Ticks(freq) && Now(m).grant == 1
    modifies m`cur, m`grant, m`delivered, m`rejected, m`reason, m`visits, m.t, m.t.pt, m.ram
    ensures ok && Ready(m, env) && m.t.used == old(m.t.used)
    ensures m.visits == old(m.visits) + [VisitOf(1, SPIN, 0, poke)]
    ensures Now(m) == old(Now(m)).(grant := ROOM_N, reason := if poke then Foreign else Irq)
  {
    hide PageOf, ShapeOk, LeafsOk, Nodes, Closed, RunVisit, Leads, ShownOf;
    RunSpin(m.l, m.State(), 1, poke, |m.visits|, env);
    ok := Run(m, 1, SPIN, 0, poke, freq, env);
    if !ok { return; }
    ok := Ended(m, if poke then Foreign else Irq, !poke);
  }

  // ---- The driver --------------------------------------------------------------------

  /** An address that lies in none of the four room pages. */
  predicate Elsewhere(l: Layout, pa: u64) {
    !(l.base <= pa < l.base + 0x4000)
  }

  lemma BoundaryLeafs(l: Layout, m: map<Page, u64>, image: u64)
    requires LayoutOk(l) && Closed(m) && image < TWO48 && Elsewhere(l, image) && Present(Leaf(m, image))
    ensures var o := UserOpen(l, m, 0);
      && Uxn(Leaf(o, image)) && !El0(Leaf(o, image))
      && El0(Leaf(o, Code(l, 0))) && !Uxn(Leaf(o, Code(l, 0)))
      && El0(Leaf(o, Data(l, 0))) && Uxn(Leaf(o, Data(l, 0)))
      && !El0(Leaf(o, Code(l, 1))) && !El0(Leaf(o, Data(l, 1)))
  {
    hide PageOf, LeafWord, UserOpen, Leaf, Present, El0, Uxn, ReadOnly;
    assert !CanRead(m, image) && !CanExecute(m, image);
    OpenLeaf(l, m, 0, image);
    OpenLeaf(l, m, 0, Code(l, 0));
    OpenLeaf(l, m, 0, Data(l, 0));
    OpenLeaf(l, m, 0, Code(l, 1));
    OpenLeaf(l, m, 0, Data(l, 1));
    LeafBits(PageOf(Code(l, 0)), MAP_USER_RX);
    LeafBits(PageOf(Data(l, 0)), MAP_USER_RW);
    LeafBits(PageOf(Code(l, 1)), MAP_RW);
    LeafBits(PageOf(Data(l, 1)), MAP_RW);
  }

  /** check_boundary(): what the tables say while Room 0 is open. */
  method Boundary(m: Machine, image: u64) returns (ok: bool)
    requires m.Valid() && m.Mapped4() && Closed(m.t.leafs)
    requires image < TWO48 && Elsewhere(m.l, image) && Present(Leaf(m.t.leafs, image))
    modifies m.t, m.t.pt
    ensures ok && m.Valid() && m.Mapped4() && Closed(m.t.leafs) && m.t.used == old(m.t.used)
    ensures m.t.leafs == Priv(m.l, UserOpen(m.l, old(m.t.leafs), 0), 0)
  {
    hide PageOf, ShapeOk, LeafsOk, Nodes, Closed, Opened, UserOpen, Priv, Present, El0, Uxn, Lookup;
    BoundaryLeafs(m.l, m.t.leafs, image);
    OpenExact(m.l, m.t.leafs, 0);
    SealExact(m.l, UserOpen(m.l, m.t.leafs, 0), 0);
    ok := m.Open(0);
    if !ok { return; }
    var kernel := m.t.Leaf(image);
    var code0 := m.t.Leaf(Code(m.l, 0));
    var data0 := m.t.Leaf(Data(m.l, 0));
    var code1 := m.t.Leaf(Code(m.l, 1));
    var data1 := m.t.Leaf(Data(m.l, 1));
    ok := m.MakePriv(0);
    if !ok { return; }
    if !Uxn(kernel) || El0(kernel) { return false; }
    if !El0(code0) || Uxn(code0) { return false; }
    if !El0(data0) || !Uxn(data0) { return false; }
    if El0(code1) || El0(data1) { return false; }
    ok := true;
  }

  /** What is read from the machine between two entries. */
  lemma ReadyNow(m: Machine, env: Env)
    requires Ready(m, env)
    ensures m.Valid() && m.Mapped4() && Now(m) == SummaryOf(m.l, m.State())
    ensures Now(m).grant == m.grant && Now(m).delivered == m.delivered && Now(m).rejected == m.rejected
    ensures Now(m).reason == m.reason
  {
    hide ShapeOk, LeafsOk, Nodes, Closed, ShownOf, Leads;
  }

  /** same() */
  method Same(m: Machine, id: nat, val: u64, env: Env) returns (ok: bool)
    requires Ready(m, env) && id < ROOM_N
    ensures ok <==> (if id == 0 then Now(m).shown.canary0 else Now(m).shown.canary1) == val
  {
    hide ShapeOk, LeafsOk, Nodes, Closed, Leads, Load64;
    ReadyNow(m, env);
    var v := m.ReadWord(Data(m.l, id) + 8 * 4);
    ok := v == val;
  }

  /** slot(1)[i] */
  method Slot(m: Machine, i: nat, env: Env) returns (v: nat)
    requires Ready(m, env) && 1 <= i <= 3
    ensures v == if i == 1 then Now(m).shown.payload else if i == 2 then Now(m).shown.copied else Now(m).shown.spare
  {
    hide ShapeOk, LeafsOk, Nodes, Closed, Leads, Load64;
    ReadyNow(m, env);
    v := m.ReadWord(Data(m.l, 1) + 8 * i);
  }

  /** refuse(1U) */
  method NotOwed(m: Machine, env: Env) returns (ok: bool)
    requires Ready(m, env)
    ensures ok <==> Now(m).grant != 1
  {
    hide ShapeOk, LeafsOk, Nodes, Closed, Leads, ShownOf;
    ReadyNow(m, env);
    ok := m.Refuse(1);
  }

  lemma HeadOf(l: Layout, ram: seq<u8>, pa: nat, b: seq<u8>)
    requires |ram| == l.size && l.lo <= pa && pa + |b| <= l.lo + l.size && 4 <= |b|
    ensures Poke(l, ram, pa, b)[pa - l.lo .. pa - l.lo + 4] == b[..4]
  {
  }

  /** After a refused store into its own code page, the room's code is still the body copied there. */
  method OwnCodeKept(m: Machine, id: u32, freq: u64, env: Env) returns (ok: bool)
    requires Ready(m, env) && Long(env) && id < ROOM_N && Ticks(freq) && (id == 0 || Now(m).grant == id)
    modifies m`cur, m`grant, m`delivered, m`rejected, m`reason, m`visits, m.t, m.t.pt, m.ram
    ensures ok && Ready(m, env) && m.t.used == old(m.t.used)
    ensures m.visits == old(m.visits) + [VisitOf(id, STORE, Add64(m.l.base, if id == 0 then 0 else 0x2000), false)]
    ensures Now(m) == old(Now(m)).(grant := if id == 0 then old(Now(m).grant) else ROOM_N, reason := Fault)
  {
    hide PageOf, ShapeOk, LeafsOk, Nodes, Closed, Leads, Assemble, Poke, ShownOf;
    HeadOf(m.l, m.ram[..], Code(m.l, id), Assemble(STORE));
    ok := Contain(m, id, STORE, Code(m.l, id), freq, env);
    if !ok { return; }
    var at := Code(m.l, id) - m.l.lo;
    assert m.ram[at .. at + 4] == m.ram[..][at .. at + 4];
    if m.ram[at .. at + 4] != Assemble(STORE)[..4] { ok := false; }
  }

  // The calls of run() in the driver's stretches; the rooms' pages are at `b`, `b` + 0x1000 and so on.
  function AccessVisits(b: u64, kernel: u64): seq<Visit> {
    [VisitOf(0, FAULT, kernel, false), VisitOf(0, FAULT, Add64(b, 0x3020), false),
     VisitOf(0, STORE, Add64(b, 0x3020), false)]
  }

  function JumpVisits(b: u64): seq<Visit> {
    [VisitOf(0, EXEC, Add64(b, 0x1000), false), VisitOf(0, EXEC, Add64(b, 0x2000), false), VisitOf(0, STORE, b, false)]
  }

  function UartVisits(uartValid: bool, uart: u64): seq<Visit> {
    if uartValid then [VisitOf(0, FAULT, uart, false)] else []
  }

  function RejectedVisits(kernel: u64): seq<Visit> {
    [VisitOf(0, MAL, 0, false), VisitOf(0, PAY, 0, false), VisitOf(0, BAD, kernel, false)]
  }

  function DeliveryVisits(): seq<Visit> {
    [VisitOf(0, SEND, 0, false), VisitOf(0, SEND, 0, false), VisitOf(1, RECV, 0, false)]
  }

  function Room1Visits(b: u64, kernel: u64): seq<Visit> {
    [VisitOf(0, SEND, 0, false), VisitOf(1, STORE, Add64(b, 0x1020), false),
     VisitOf(0, SEND, 0, false), VisitOf(1, FAULT, kernel, false),
     VisitOf(0, SEND, 0, false), VisitOf(1, EXEC, b, false),
     VisitOf(0, SEND, 0, false), VisitOf(1, STORE, Add64(b, 0x2000), false),
     VisitOf(0, SEND, 0, false), VisitOf(1, STEAL, 0, false)]
  }

  function LastVisits(): seq<Visit> {
    [VisitOf(0, SEND, 0, false), VisitOf(1, REPLY, 0, false),
     VisitOf(0, SEND, 0, false), VisitOf(1, SPIN, 0, true),
     VisitOf(0, SEND, 0, false), VisitOf(1, SPIN, 0, false)]
  }

  /** The test addresses are out of reach for the bodies that try them. */
  lemma Reaches(l: Layout, x: u64)
    requires LayoutOk(l) && Elsewhere(l, x)
    ensures OutOfReach(l, 0, FAULT[0], x) && OutOfReach(l, 1, FAULT[0], x)
    ensures OutOfReach(l, 0, FAULT[0], l.base + 0x3020) && OutOfReach(l, 0, STORE[0], l.base + 0x3020)
    ensures OutOfReach(l, 0, EXEC[0], l.base + 0x1000) && OutOfReach(l, 0, EXEC[0], l.base + 0x2000)
    ensures OutOfReach(l, 1, STORE[0], l.base + 0x1020) && OutOfReach(l, 1, EXEC[0], l.base)
    ensures OutOfReach(l, 0, STORE[0], l.base) && OutOfReach(l, 1, STORE[0], l.base + 0x2000)
    ensures OutOfReach(l, 1, STEAL[0], 0)
  {
  }

  lemma JumpsOut(l: Layout)
    requires LayoutOk(l)
    ensures OutOfReach(l, 0, EXEC[0], l.base + 0x1000) && OutOfReach(l, 0, EXEC[0], l.base + 0x2000)
  {
  }

  lemma Addresses(l: Layout)
    requires LayoutOk(l)
    ensures Data(l, 0) == Add64(l.base, 0x1000) && Code(l, 1) == Add64(l.base, 0x2000) && Code(l, 0) == l.base
    ensures Data(l, 0) + 32 == Add64(l.base, 0x1020) && Data(l, 1) + 32 == Add64(l.base, 0x3020)
    ensures Add64(l.base, 0x1000) == l.base + 0x1000 && Add64(l.base, 0x2000) == l.base + 0x2000
    ensures Add64(l.base, 0x1020) == l.base + 0x1020 && Add64(l.base, 0x3020) == l.base + 0x3020
    ensures Add64(l.base, 0) == l.base
  {
  }

  /** One trespass of Room 0, after which Room 1's canary is still there. */
  method ContainAndCheck(m: Machine, code: Program, x1: u64, freq: u64, env: Env) returns (ok: bool)
    requires Ready(m, env) && Long(env) && Ticks(freq) && Now(m).shown.canary1 == CANARY1
    requires OutOfReach(m.l, 0, code[0], x1)
    modifies m`cur, m`grant, m`delivered, m`rejected, m`reason, m`visits, m.t, m.t.pt, m.ram
    ensures ok && Ready(m, env) && m.t.used == old(m.t.used) && Now(m) == old(Now(m)).(reason := Fault)
    ensures m.visits == old(m.visits) + [VisitOf(0, code, x1, false)]
  {
    hide PageOf, ShapeOk, LeafsOk, Nodes, SummaryOf, Ready, Now, Leads, Closed, VisitOf, Listing, Long, OutOfReach;
    ok := Contain(m, 0, code, x1, freq, env);
    if !ok { return; }
    ok := Same(m, 1, CANARY1, env);
  }

  /** Room 0 reads neither the kernel nor Room 1, and does not write there. */
  method ContainAccesses(m: Machine, kernel: u64, freq: u64, env: Env) returns (ok: bool)
    requires Ready(m, env) && Long(env) && Ticks(freq) && Elsewhere(m.l, kernel) && Now(m).shown.canary1 == CANARY1
    modifies m`cur, m`grant, m`delivered, m`rejected, m`reason, m`visits, m.t, m.t.pt, m.ram
    ensures ok && Ready(m, env) && m.t.used == old(m.t.used) && Now(m) == old(Now(m)).(reason := Fault)
    ensures m.visits == old(m.visits) + AccessVisits(m.l.base, kernel)
  {
    hide PageOf, ShapeOk, LeafsOk, Nodes, SummaryOf, Ready, Now, Leads, Closed, VisitOf, Listing, Incr, Plus, Long,
         OutOfReach, Elsewhere, Add64;
    ReadyNow(m, env);
    Addresses(m.l);
    Reaches(m.l, kernel);
    ok := ContainAndCheck(m, FAULT, kernel, freq, env);
    if !ok { return; }
    ok := ContainAndCheck(m, FAULT, Data(m.l, 1) + 32, freq, env);
    if !ok { return; }
    ok := ContainAndCheck(m, STORE, Data(m.l, 1) + 32, freq, env);
  }

  /** Room 0 runs neither its data nor Room 1's code, and does not write its own code. */
  method ContainJumps(m: Machine, freq: u64, env: Env) returns (ok: bool)
    requires Ready(m, env) && Long(env) && Ticks(freq) && Now(m).shown.canary1 == CANARY1
    modifies m`cur, m`grant, m`delivered, m`rejected, m`reason, m`visits, m.t, m.t.pt, m.ram
    ensures ok && Ready(m, env) && m.t.used == old(m.t.used) && Now(m) == old(Now(m)).(reason := Fault)
    ensures m.visits == old(m.visits) + JumpVisits(m.l.base)
  {
    hide PageOf, ShapeOk, LeafsOk, Nodes, SummaryOf, Ready, Now, Leads, Closed, VisitOf, Listing, Incr, Plus, Long,
         OutOfReach, Elsewhere, Add64;
    ReadyNow(m, env);
    Addresses(m.l);
    JumpsOut(m.l);
    ok := Contain(m, 0, EXEC, Data(m.l, 0), freq, env);
    if !ok { return; }
    ok := Contain(m, 0, EXEC, Code(m.l, 1), freq, env);
    if !ok { return; }
    ok := Same(m, 1, CANARY1, env);
    if !ok { return; }
    ok := OwnCodeKept(m, 0, freq, env);
  }

  /** Room 0 reaches neither the kernel, nor Room 1, nor a device, nor its own code. */
  method ContainRoom0(m: Machine, kernel: u64, uartValid: bool, uart: u64, freq: u64, env: Env) returns (ok: bool)
    requires Ready(m, env) && Long(env) && Ticks(freq) && Elsewhere(m.l, kernel) && Now(m).shown.canary1 == CANARY1
    requires uartValid ==> Elsewhere(m.l, uart)
    modifies m`cur, m`grant, m`delivered, m`rejected, m`reason, m`visits, m.t, m.t.pt, m.ram
    ensures ok && Ready(m, env) && m.t.used == old(m.t.used) && Now(m) == old(Now(m)).(reason := Fault)
    ensures m.visits == old(m.visits)
              + (AccessVisits(m.l.base, kernel) + JumpVisits(m.l.base) + UartVisits(uartValid, uart))
  {
    hide PageOf, ShapeOk, LeafsOk, Nodes, SummaryOf, Ready, Now, Leads, Closed, VisitOf, Listing, Long;
    ReadyNow(m, env);
    if uartValid { Reaches(m.l, uart); }
    ok := ContainAccesses(m, kernel, freq, env);
    if !ok { return; }
    ok := ContainJumps(m, freq, env);
    if !ok { return; }
    if uartValid { ok := Contain(m, 0, FAULT, uart, freq, env); }
  }

  /** A 32-bit counter after `n` more. */
  function Plus(c: u32, n: nat): u32 {
    (c + n) % 0x1_0000_0000
  }

  lemma PlusOne(c: u32)
    ensures Plus(c, 0) == c && Incr(c) == Plus(c, 1) && Incr(Plus(c, 1)) == Plus(c, 2) && Incr(Plus(c, 2)) == Plus(c, 3)
    ensures Incr(Plus(c, 3)) == Plus(c, 4) && Incr(Plus(c, 4)) == Plus(c, 5)
  {
  }

  lemma PlusSum(c: u32, n: nat, k: nat)
    ensures Plus(Plus(c, n), k) == Plus(c, n + k)
  {
  }

  /** The three entries of it. */
  method RejectAll(m: Machine, kernel: u64, freq: u64, env: Env) returns (ok: bool)
    requires Ready(m, env) && Long(env) && Ticks(freq) && Elsewhere(m.l, kernel)
    modifies m`cur, m`grant, m`delivered, m`rejected, m`reason, m`visits, m.t, m.t.pt, m.ram
    ensures ok && Ready(m, env) && m.t.used == old(m.t.used)
    ensures m.visits == old(m.visits) + RejectedVisits(kernel)
    ensures Now(m) == old(Now(m)).(rejected := Incr(Incr(Incr(old(Now(m).rejected)))), reason := Svc)
  {
    hide PageOf, ShapeOk, LeafsOk, Nodes, SummaryOf, Ready, Now, Leads, Closed, VisitOf, Listing, Incr, Plus, Long;
    ok := Reject(m, MAL, 0, freq, env);
    if !ok { return; }
    ok := Reject(m, PAY, 0, freq, env);
    if !ok { return; }
    ok := Reject(m, BAD, kernel, freq, env);
  }

  /** Three messages that are not delivered. */
  method Rejections(m: Machine, kernel: u64, freq: u64, env: Env) returns (ok: bool)
    requires Ready(m, env) && Long(env) && Ticks(freq) && Elsewhere(m.l, kernel) && Now(m).grant == ROOM_N
    requires Now(m).shown.canary1 == CANARY1 && Now(m).shown.payload == 0
    modifies m`cur, m`grant, m`delivered, m`rejected, m`reason, m`visits, m.t, m.t.pt, m.ram
    ensures ok && Ready(m, env) && m.t.used == old(m.t.used)
    ensures m.visits == old(m.visits) + RejectedVisits(kernel)
    ensures Now(m) == old(Now(m)).(rejected := Incr(Incr(Incr(old(Now(m).rejected)))), reason := Svc)
  {
    hide PageOf, ShapeOk, LeafsOk, Nodes, SummaryOf, Ready, Now, Leads, Closed, RejectedVisits, Incr, Plus, Long;
    ReadyNow(m, env);
    ok := NotOwed(m, env);
    if !ok { return; }
    var rej := m.rejected;
    ok := RejectAll(m, kernel, freq, env);
    if !ok { return; }
    ReadyNow(m, env);
    if m.rejected < Incr(Incr(Incr(rej))) { return false; }
    var p := Slot(m, 1, env);
    if p != 0 { return false; }
    ok := NotOwed(m, env);
    if !ok { return; }
    ok := Same(m, 1, CANARY1, env);
  }

  /** Two sends are one entry; the receiver finds the payload and nothing else. */
  method Deliver(m: Machine, freq: u64, env: Env) returns (ok: bool)
    requires Ready(m, env) && Long(env) && Ticks(freq)
    requires Now(m).shown.canary0 == CANARY0 && Now(m).shown.canary1 == CANARY1 && Now(m).shown.spare == 0
    modifies m`cur, m`grant, m`delivered, m`rejected, m`reason, m`visits, m.t, m.t.pt, m.ram
    ensures ok && Ready(m, env) && m.t.used == old(m.t.used)
    ensures m.visits == old(m.visits) + DeliveryVisits()
    ensures Now(m) == old(Now(m)).(shown := old(Now(m)).shown.(payload := PAYLOAD, copied := PAYLOAD), grant := ROOM_N,
                                   delivered := Incr(Incr(old(Now(m).delivered))), reason := Svc)
  {
    hide PageOf, ShapeOk, LeafsOk, Nodes, SummaryOf, Ready, Now, Leads, Closed, VisitOf, Listing, Incr, Plus, Long,
         OutOfReach, InRoom;
    ReadyNow(m, env);
    ok := SendOnce(m, freq, env);
    if !ok { return; }
    ok := SendOnce(m, freq, env);
    if !ok { return; }
    var p := Slot(m, 1, env);
    var q := Slot(m, 3, env);
    if p != PAYLOAD || q != 0 { return false; }
    ok := Same(m, 1, CANARY1, env);
    if !ok { return; }
    ok := Receive(m, freq, env);
    if !ok { return; }
    var c := Slot(m, 2, env);
    if c != PAYLOAD { return false; }
    ok := NotOwed(m, env);
    if !ok { return; }
    ok := Same(m, 0, CANARY0, env);
  }

  /** One more send, and Room 1 with a body that is refused. */
  method SendAndContain(m: Machine, code: Program, x1: u64, freq: u64, env: Env) returns (ok: bool)
    requires Ready(m, env) && Long(env) && Ticks(freq) && OutOfReach(m.l, 1, code[0], x1)
    modifies m`cur, m`grant, m`delivered, m`rejected, m`reason, m`visits, m.t, m.t.pt, m.ram
    ensures ok && Ready(m, env) && m.t.used == old(m.t.used)
    ensures m.visits == old(m.visits) + [VisitOf(0, SEND, 0, false), VisitOf(1, code, x1, false)]
    ensures Now(m) == old(Now(m)).(shown := old(Now(m)).shown.(payload := PAYLOAD), grant := ROOM_N,
                                   delivered := Incr(old(Now(m).delivered)), reason := Fault)
  {
    hide PageOf, ShapeOk, LeafsOk, Nodes, SummaryOf, Ready, Now, Leads, Closed, VisitOf, Listing, Incr, Plus, Long,
         OutOfReach, InRoom;
    ReadyNow(m, env);
    ok := SendOnce(m, freq, env);
    if !ok { return; }
    ok := Contain(m, 1, code, x1, freq, env);
  }

  /** Room 1 reaches neither Room 0, nor the kernel, nor its own code, nor the timer. */
  method ContainRoom1(m: Machine, kernel: u64, freq: u64, env: Env) returns (ok: bool)
    requires Ready(m, env) && Long(env) && Ticks(freq) && Elsewhere(m.l, kernel)
    requires Now(m).shown.canary0 == CANARY0 && Now(m).shown.canary1 == CANARY1 && Now(m).shown.payload == PAYLOAD
    modifies m`cur, m`grant, m`delivered, m`rejected, m`reason, m`visits, m.t, m.t.pt, m.ram
    ensures ok && Ready(m, env) && m.t.used == old(m.t.used)
    ensures m.visits == old(m.visits) + Room1Visits(m.l.base, kernel)
    ensures Now(m) == old(Now(m)).(grant := ROOM_N, delivered := Plus(old(Now(m).delivered), 5), reason := Fault)
  {
    hide PageOf, ShapeOk, LeafsOk, Nodes, SummaryOf, Ready, Now, Leads, Closed, VisitOf, Listing, Incr, Plus, Long,
         OutOfReach, Elsewhere, Add64;
    ReadyNow(m, env);
    Addresses(m.l);
    Reaches(m.l, kernel);
    PlusOne(Now(m).delivered);
    var l := m.l;
    ok := SendAndContain(m, STORE, Data(l, 0) + 32, freq, env);
    if !ok { return; }
    ok := Same(m, 0, CANARY0, env);
    if !ok { return; }
    ok := Same(m, 1, CANARY1, env);
    if !ok { return; }
    ok := SendAndContain(m, FAULT, kernel, freq, env);
    if !ok { return; }
    ok := SendAndContain(m, EXEC, Code(l, 0), freq, env);
    if !ok { return; }
    ok := SendOnce(m, freq, env);
    if !ok { return; }
    ok := OwnCodeKept(m, 1, freq, env);
    if !ok { return; }
    ok := SendAndContain(m, STEAL, 0, freq, env);
  }

  /** Room 1 with the body that tries to send. */
  method Reply(m: Machine, freq: u64, env: Env) returns (ok: bool)
    requires Ready(m, env) && Long(env) && Ticks(freq) && Now(m).grant == 1
    modifies m`cur, m`grant, m`delivered, m`rejected, m`reason, m`visits, m.t, m.t.pt, m.ram
    ensures ok && Ready(m, env) && m.t.used == old(m.t.used)
    ensures m.visits == old(m.visits) + [VisitOf(1, REPLY, 0, false)]
    ensures Now(m) == old(Now(m)).(shown := old(Now(m)).shown.(payload := PAYLOAD), grant := ROOM_N,
                                   rejected := Incr(old(Now(m).rejected)), reason := Svc)
  {
    hide PageOf, ShapeOk, LeafsOk, Nodes, Closed, RunVisit, Leads, ShownOf, Incr;
    ReadyNow(m, env);
    RunMalformed(m.l, m.State(), 1, REPLY, 0, 0x5055, |m.visits|, env);
    ok := Run(m, 1, REPLY, 0, false, freq, env);
    if !ok { return; }
    ok := Ended(m, Svc, false);
  }

  /** Room 1 with the receiving body. */
  method Receive(m: Machine, freq: u64, env: Env) returns (ok: bool)
    requires Ready(m, env) && Long(env) && Ticks(freq) && Now(m).grant == 1 && Now(m).shown.payload == PAYLOAD
    modifies m`cur, m`grant, m`delivered, m`rejected, m`reason, m`visits, m.t, m.t.pt, m.ram
    ensures ok && Ready(m, env) && m.t.used == old(m.t.used)
    ensures m.visits == old(m.visits) + [VisitOf(1, RECV, 0, false)]
    ensures Now(m) == old(Now(m)).(shown := old(Now(m)).shown.(copied := PAYLOAD), grant := ROOM_N, reason := Svc)
  {
    hide PageOf, ShapeOk, LeafsOk, Nodes, Closed, RunVisit, Leads, ShownOf;
    ReadyNow(m, env);
    RunRecv(m.l, m.State(), |m.visits|, env);
    ok := Run(m, 1, RECV, 0, false, freq, env);
    if !ok { return; }
    ok := Ended(m, Svc, false);
  }

  /** A send, and Room 1 with the body that tries to send in turn. */
  method SendAndReply(m: Machine, freq: u64, env: Env) returns (ok: bool)
    requires Ready(m, env) && Long(env) && Ticks(freq)
    modifies m`cur, m`grant, m`delivered, m`rejected, m`reason, m`visits, m.t, m.t.pt, m.ram
    ensures ok && Ready(m, env) && m.t.used == old(m.t.used)
    ensures m.visits == old(m.visits) + [VisitOf(0, SEND, 0, false), VisitOf(1, REPLY, 0, false)]
    ensures Now(m) == old(Now(m)).(shown := old(Now(m)).shown.(payload := PAYLOAD), grant := ROOM_N,
                                   delivered := Incr(old(Now(m).delivered)), rejected := Incr(old(Now(m).rejected)),
                                   reason := Svc)
  {
    hide PageOf, ShapeOk, LeafsOk, Nodes, SummaryOf, Ready, Now, Leads, Closed, VisitOf, Listing, Incr, Long;
    ReadyNow(m, env);
    var rej := m.rejected;
    ok := SendOnce(m, freq, env);
    if !ok { return; }
    ok := Reply(m, freq, env);
    if !ok { return; }
    ReadyNow(m, env);
    if m.rejected != Incr(rej) { return false; }
    ok := NotOwed(m, env);
  }

  /** A send, and Room 1 ended by an interrupt. */
  method SendAndPreempt(m: Machine, poke: bool, freq: u64, env: Env) returns (ok: bool)
    requires Ready(m, env) && Long(env) && Ticks(freq) && Now(m).shown.canary0 == CANARY0
    modifies m`cur, m`grant, m`delivered, m`rejected, m`reason, m`visits, m.t, m.t.pt, m.ram
    ensures ok && Ready(m, env) && m.t.used == old(m.t.used)
    ensures m.visits == old(m.visits) + [VisitOf(0, SEND, 0, false), VisitOf(1, SPIN, 0, poke)]
    ensures Now(m) == old(Now(m)).(shown := old(Now(m)).shown.(payload := PAYLOAD), grant := ROOM_N,
                                   delivered := Incr(old(Now(m).delivered)), reason := if poke then Foreign else Irq)
  {
    hide PageOf, ShapeOk, LeafsOk, Nodes, SummaryOf, Ready, Now, Leads, Closed, VisitOf, Listing, Incr, Long;
    ok := SendOnce(m, freq, env);
    if !ok { return; }
    ok := Preempt(m, poke, freq, env);
    if !ok { return; }
    ok := Same(m, 0, CANARY0, env);
  }

  /** Room 1 cannot send, and it is preempted by the timer and by any other interrupt. */
  method ReplyAndPreempt(m: Machine, freq: u64, env: Env) returns (ok: bool)
    requires Ready(m, env) && Long(env) && Ticks(freq)
    requires Now(m).shown.canary0 == CANARY0 && Now(m).shown.canary1 == CANARY1
    modifies m`cur, m`grant, m`delivered, m`rejected, m`reason, m`visits, m.t, m.t.pt, m.ram
    ensures ok && Ready(m, env) && m.t.used == old(m.t.used)
    ensures m.visits == old(m.visits) + LastVisits()
    ensures Now(m) == old(Now(m)).(shown := old(Now(m)).shown.(payload := PAYLOAD), grant := ROOM_N,
              delivered := Plus(old(Now(m).delivered), 3), rejected := Plus(old(Now(m).rejected), 1), reason := Irq)
  {
    hide PageOf, ShapeOk, LeafsOk, Nodes, SummaryOf, Ready, Now, Leads, Closed, VisitOf, Listing, Incr, Plus, Long;
    PlusOne(Now(m).delivered);
    PlusOne(Now(m).rejected);
    ok := SendAndReply(m, freq, env);
    if !ok { return; }
    ok := SendAndPreempt(m, true, freq, env);
    if !ok { return; }
    ok := Same(m, 1, CANARY1, env);
    if !ok { return; }
    ok := SendAndPreempt(m, false, freq, env);
  }

  // ---- nxu_rooms_run -----------------------------------------------------------------

  lemma ZeroWord(l: Layout, ram: seq<u8>, id: nat, i: nat)
    requires LayoutOk(l) && |ram| == l.size && id < ROOM_N && i < 512
    ensures WordAt(l, Poke(l, ram, Data(l, id), Zeros()), id, i) == 0
    ensures WordAt(l, Poke(l, ram, Data(l, id), Zeros()), 1 - id, i) == WordAt(l, ram, 1 - id, i)
  {
    hide Load64;
    var z, qa := Poke(l, ram, Data(l, id), Zeros()), Data(l, id) + 8 * i;
    LoadBeside(l, ram, Data(l, id), Zeros(), Data(l, 1 - id) + 8 * i);
    assert z[qa - l.lo .. qa - l.lo + 8] == ZeroFill(8);
    ZeroBytes(8);
    assert Boot.Pow256(8) > 0 by { Boot.EightBytes(); }
    Boot.WordRoundTrip(0, 8);
    LoadIs(l, z, qa);
  }

  lemma LoadIs(l: Layout, ram: seq<u8>, pa: nat)
    requires |ram| == l.size && l.lo <= pa && pa + 8 <= l.lo + l.size
    ensures Load64(l, ram, pa) == LittleEndian(ram[pa - l.lo .. pa - l.lo + 8])
  {
  }

  /** RAM with both data pages cleared and a canary in word 4 of each. */
  function Planted(l: Layout, ram: seq<u8>): (r: seq<u8>)
    requires LayoutOk(l) && |ram| == l.size
    ensures |r| == l.size
  {
    var clear := Poke(l, Poke(l, ram, Data(l, 0), Zeros()), Data(l, 1), Zeros());
    Poke(l, Poke(l, clear, Data(l, 0) + 32, LeBytes(CANARY0, 8)), Data(l, 1) + 32, LeBytes(CANARY1, 8))
  }

  lemma PlantedShows(l: Layout, ram: seq<u8>)
    requires LayoutOk(l) && |ram| == l.size
    ensures ShownOf(l, Planted(l, ram)) == Shown(CANARY0, CANARY1, 0, 0, 0)
  {
    hide WordAt, Poke, LeBytes, ZeroFill;
    var ram1 := Poke(l, ram, Data(l, 0), Zeros());
    var ram2 := Poke(l, ram1, Data(l, 1), Zeros());
    var ram3 := Poke(l, ram2, Data(l, 0) + 32, LeBytes(CANARY0, 8));
    ZeroWord(l, ram1, 1, 1);
    ZeroWord(l, ram1, 1, 2);
    ZeroWord(l, ram1, 1, 3);
    WordStored(l, ram2, 0, 4, CANARY0, 0, 4);
    WordStored(l, ram2, 0, 4, CANARY0, 1, 1);
    WordStored(l, ram2, 0, 4, CANARY0, 1, 2);
    WordStored(l, ram2, 0, 4, CANARY0, 1, 3);
    WordStored(l, ram3, 1, 4, CANARY1, 0, 4);
    WordStored(l, ram3, 1, 4, CANARY1, 1, 4);
    WordStored(l, ram3, 1, 4, CANARY1, 1, 1);
    WordStored(l, ram3, 1, 4, CANARY1, 1, 2);
    WordStored(l, ram3, 1, 4, CANARY1, 1, 3);
  }

  /** Both data pages cleared, and a canary planted in each. */
  method Prepare(m: Machine)
    requires m.Valid()
    modifies m.ram
    ensures m.Valid() && m.ram[..] == Planted(m.l, old(m.ram[..]))
  {
    hide PageOf, ShapeOk, LeafsOk, Nodes, Poke, LeBytes, ZeroFill;
    var l := m.l;
    m.ClearPage(Data(l, 0));
    m.ClearPage(Data(l, 1));
    m.WriteWord(Data(l, 0) + 8 * 4, CANARY0);
    m.WriteWord(Data(l, 1) + 8 * 4, CANARY1);
  }

  /** Every call of run() that the driver makes, in order. The rooms' pages are at `b`, `b` + 0x1000, `b` +
      0x2000 and `b` + 0x3000. */
  function Script(b: u64, kernel: u64, uartValid: bool, uart: u64): seq<Visit>
  {
    [VisitOf(0, FAULT, kernel, false), VisitOf(0, FAULT, Add64(b, 0x3020), false),
     VisitOf(0, STORE, Add64(b, 0x3020), false),
     VisitOf(0, EXEC, Add64(b, 0x1000), false), VisitOf(0, EXEC, Add64(b, 0x2000), false), VisitOf(0, STORE, b, false)]
    + (if uartValid then [VisitOf(0, FAULT, uart, false)] else [])
    + [VisitOf(0, MAL, 0, false), VisitOf(0, PAY, 0, false), VisitOf(0, BAD, kernel, false),
       VisitOf(0, SEND, 0, false), VisitOf(0, SEND, 0, false), VisitOf(1, RECV, 0, false),
       VisitOf(0, SEND, 0, false), VisitOf(1, STORE, Add64(b, 0x1020), false),
       VisitOf(0, SEND, 0, false), VisitOf(1, FAULT, kernel, false),
       VisitOf(0, SEND, 0, false), VisitOf(1, EXEC, b, false),
       VisitOf(0, SEND, 0, false), VisitOf(1, STORE, Add64(b, 0x2000), false),
       VisitOf(0, SEND, 0, false), VisitOf(1, STEAL, 0, false),
       VisitOf(0, SEND, 0, false), VisitOf(1, REPLY, 0, false),
       VisitOf(0, SEND, 0, false), VisitOf(1, SPIN, 0, true),
       VisitOf(0, SEND, 0, false), VisitOf(1, SPIN, 0, false)]
  }

  /** The state from which the entries start, given the one with which the driver starts. */
  ghost function Started(l: Layout, k: Kernel): (r: Kernel)
    requires LayoutOk(l) && |k.ram| == l.size
    ensures |r.ram| == l.size
  {
    k.(ram := Planted(l, k.ram), grant := ROOM_N,
       leafs := Priv(l, UserOpen(l, Priv(l, Priv(l, k.leafs, 0), 1), 0), 0))
  }

  /** The four pages lie in RAM, and the tables for them fit in the pool beside the tables in use. */
  ghost predicate PagesFit(l: Layout, keys: set<Page>) {
    LayoutOk(l) && |Nodes(keys + RoomPages(l, 0) + RoomPages(l, 1))| <= POOL
  }

  /** From `k` the driver's preparations and then the entries `vs` lead to `t`. */
  ghost predicate Follows(l: Layout, k: Kernel, vs: seq<Visit>, env: Env, t: Kernel) {
    LayoutOk(l) && |k.ram| == l.size && Leads(l, Started(l, k), vs, env, t)
  }

  lemma ScriptParts(b: u64, kernel: u64, uartValid: bool, uart: u64)
    ensures Script(b, kernel, uartValid, uart)
         == AccessVisits(b, kernel) + JumpVisits(b) + UartVisits(uartValid, uart) + RejectedVisits(kernel)
            + DeliveryVisits() + Room1Visits(b, kernel) + LastVisits()
  {
    hide VisitOf, Add64, Listing;
  }

  /** The four pages mapped and prepared, and the boundary checked. */
  method Setup(m: Machine, image: u64) returns (ok: bool)
    requires m.Valid() && Closed(m.t.leafs) && m.cur == 0
    requires image < TWO48 && Elsewhere(m.l, image) && Present(Leaf(m.t.leafs, image))
    modifies m`grant, m.t, m.t.pt, m.ram
    ensures ok <==> PagesFit(m.l, old(m.t.leafs.Keys))
    ensures ok ==> m.Valid() && m.Mapped4() && Closed(m.t.leafs) && m.State() == Started(m.l, old(m.State()))
  {
    hide PageOf, ShapeOk, LeafsOk, Nodes, Closed, Priv, UserOpen, Present, Leaf, Planted, Elsewhere;
    ghost var keys := m.t.leafs.Keys;
    ghost var leafs := m.t.leafs;
    PrivClosed(m.l, leafs, 0);
    PrivClosed(m.l, Priv(m.l, leafs, 0), 1);
    ImageKept(m.l, leafs, image);
    ok := m.MakePriv(0);
    if !ok {
      NodesGrow(keys + RoomPages(m.l, 0), keys + RoomPages(m.l, 0) + RoomPages(m.l, 1));
      return;
    }
    ok := m.MakePriv(1);
    if !ok { return; }
    Prepare(m);
    ok := Boundary(m, image);
    if !ok { return; }
    m.grant := ROOM_N as u32;
  }

  lemma StartedShows(l: Layout, k: Kernel)
    requires LayoutOk(l) && |k.ram| == l.size
    ensures var s := SummaryOf(l, Started(l, k));
      && s.shown == Shown(CANARY0, CANARY1, 0, 0, 0) && s.grant == ROOM_N
      && s.delivered == k.delivered && s.rejected == k.rejected
  {
    hide Planted, Priv, UserOpen, ShownOf;
    PlantedShows(l, k.ram);
  }

  lemma BeginReady(m: Machine, env: Env)
    requires m.Valid() && m.Mapped4() && Closed(m.t.leafs) && Leads(m.l, m.start, m.visits, env, m.State())
    ensures Ready(m, env) && Now(m) == SummaryOf(m.l, m.State())
  {
    hide PageOf, ShapeOk, LeafsOk, Nodes, Closed, Leads, ShownOf;
  }

  lemma EndReady(m: Machine, env: Env)
    requires Ready(m, env)
    ensures m.Valid() && Closed(m.t.leafs) && Leads(m.l, m.start, m.visits, env, m.State())
    ensures Now(m).shown == ShownOf(m.l, m.ram[..])
  {
    hide PageOf, ShapeOk, LeafsOk, Nodes, Closed, Leads, ShownOf;
  }

  /** The driver from the first mapping on. It fails only if the pool cannot hold the tables of the
      four room pages. Otherwise it makes the entries of the script, and ends in the state to which they
      lead: both canaries in place, the payload delivered and copied, ten pulses taken and four rejected,
      and Room 1 ended by the timer. */
  method Drive(m: Machine, image: u64, kernel: u64, uartValid: bool, uart: u64, freq: u64, env: Env)
    returns (ok: bool)
    requires m.Valid() && Closed(m.t.leafs) && m.cur == 0 && m.visits == []
    requires image < TWO48 && Elsewhere(m.l, image) && Present(Leaf(m.t.leafs, image))
    requires Elsewhere(m.l, kernel) && (uartValid ==> Elsewhere(m.l, uart)) && Ticks(freq) && Long(env)
    modifies m, m.t, m.t.pt, m.ram
    ensures ok <==> PagesFit(m.l, old(m.t.leafs.Keys))
    ensures ok ==> m.Valid() && Closed(m.t.leafs)
    ensures ok ==> m.visits == Script(m.l.base, kernel, uartValid, uart)
    ensures ok ==> Now(m) == Summary(Shown(0xB0B0_B0B0_B0B0, 0xA11C_E5A1_1CE5, 0x5055, 0x5055, 0), 2,
              Plus(old(m.delivered), 10), Plus(old(m.rejected), 4), Irq)
    ensures ok ==> Follows(m.l, old(m.State()), m.visits, env, m.State())
  {
    hide PageOf, ShapeOk, LeafsOk, Nodes, Closed, Started, ShownOf, Leads, VisitOf, Listing, Script, Now, Elsewhere,
         Present, Leaf, Ready, Priv, UserOpen, Planted;
    ok := Setup(m, image);
    if !ok { return; }
    m.start := m.State();
    StartedShows(m.l, old(m.State()));
    LeadsNowhere(m.l, m.start, env);
    BeginReady(m, env);
    ok := Enact(m, kernel, uartValid, uart, freq, env);
    ReadyNow(m, env);
    EndReady(m, env);
  }

  /** The entries, and the checks between them. */
  method Enact(m: Machine, kernel: u64, uartValid: bool, uart: u64, freq: u64, env: Env) returns (ok: bool)
    requires Ready(m, env) && Long(env) && Ticks(freq) && Elsewhere(m.l, kernel) && (uartValid ==> Elsewhere(m.l, uart))
    requires Now(m).shown == Shown(CANARY0, CANARY1, 0, 0, 0) && Now(m).grant == ROOM_N && m.visits == []
    modifies m`cur, m`grant, m`delivered, m`rejected, m`reason, m`visits, m.t, m.t.pt, m.ram
    ensures ok && Ready(m, env)
    ensures m.visits == Script(m.l.base, kernel, uartValid, uart)
    ensures Now(m) == Summary(Shown(CANARY0, CANARY1, PAYLOAD, PAYLOAD, 0), ROOM_N, Plus(old(Now(m).delivered), 10),
                              Plus(old(Now(m).rejected), 4), Irq)
  {
    hide PageOf, ShapeOk, LeafsOk, Nodes, SummaryOf, Ready, Now, Leads, Closed, Incr, Plus, Long, Elsewhere, Script,
         AccessVisits, JumpVisits, UartVisits, RejectedVisits, DeliveryVisits, Room1Visits, LastVisits;
    ScriptParts(m.l.base, kernel, uartValid, uart);
    ghost var d, r := Now(m).delivered, Now(m).rejected;
    PlusOne(d);
    PlusOne(r);
    ok := ContainRoom0(m, kernel, uartValid, uart, freq, env);
    if !ok { return; }
    ok := Rejections(m, kernel, freq, env);
    if !ok { return; }
    ok := Deliver(m, freq, env);
    if !ok { return; }
    ok := ContainRoom1(m, kernel, freq, env);
    if !ok { return; }
    ok := ReplyAndPreempt(m, freq, env);
    PlusSum(d, 2, 5);
    PlusSum(d, 7, 3);
    PlusSum(r, 3, 1);
  }

  lemma ImageKept(l: Layout, m: map<Page, u64>, image: u64)
    requires LayoutOk(l) && image < TWO48 && Elsewhere(l, image)
    ensures Leaf(Priv(l, Priv(l, m, 0), 1), image) == Leaf(m, image)
  {
    hide Leaf, Priv, LeafWord, PageOf;
    PrivLeaf(l, m, 0, image);
    PrivLeaf(l, Priv(l, m, 0), 1, image);
  }

  /** The driver's own RAM check is the layout that the rest needs. */
  lemma RamCheck(mem: Range, base: u64)
    requires mem.base + mem.size < TWO48 && base % 0x1000 == 0 && base <= TWO48
    ensures RangeContains(mem.base, mem.size, base, 0x4000) <==> LayoutOk(Layout(mem.base, mem.size, base))
  {
  }

  lemma ShownBytes(l: Layout, ram: seq<u8>)
    requires LayoutOk(l) && |ram| == l.size && ShownOf(l, ram) == Shown(CANARY0, CANARY1, PAYLOAD, PAYLOAD, 0)
    ensures EightAt(ram, l.lo, l.base + 0x1020) == [0xB0, 0xB0, 0xB0, 0xB0, 0xB0, 0xB0, 0, 0]
    ensures EightAt(ram, l.lo, l.base + 0x3020) == [0xE5, 0x1C, 0xA1, 0xE5, 0x1C, 0xA1, 0, 0]
    ensures EightAt(ram, l.lo, l.base + 0x3008) == EightAt(ram, l.lo, l.base + 0x3010) == [0x55, 0x50, 0, 0, 0, 0, 0, 0]
    ensures EightAt(ram, l.lo, l.base + 0x3018) == [0, 0, 0, 0, 0, 0, 0, 0]
  {
    hide LeBytes, LittleEndian;
    BytesBack(EightAt(ram, l.lo, l.base + 0x1020));
    BytesBack(EightAt(ram, l.lo, l.base + 0x3020));
    BytesBack(EightAt(ram, l.lo, l.base + 0x3008));
    BytesBack(EightAt(ram, l.lo, l.base + 0x3010));
    BytesBack(EightAt(ram, l.lo, l.base + 0x3018));
    Canary0();
    Canary1();
    Literal(PAYLOAD);
    Literal(0);
  }

  /** nxu_rooms_run. `image` is the kernel image, inside RAM and mapped by S6 with nothing open to EL0;
      `kernel` is an address in it, and the console is not in the four pages behind it. With a slice that fits
      the compare register and is long enough for the bodies, the driver reaches nxu_fail exactly when the
      four pages behind the image do not fit in RAM or their tables do not fit in the pool. Otherwise it makes
      every entry of the script and ends with ten pulses delivered and four rejected, after a timer
      interrupt, and with the canaries, the payload and its copy in RAM. */
  method RoomsRun(t: Tables, ram: array<u8>, mem: Range, image: Range, kernel: u64, uartValid: bool, uart: u64,
                  freq: u64, env: Env) returns (ok: bool, m: Machine?)
    requires t.Valid() && ram.Length == mem.size && mem.base + mem.size < TWO48
    requires RangeContains(mem.base, mem.size, image.base, image.size)
    requires Closed(t.leafs) && Present(Leaf(t.leafs, image.base))
    requires image.base <= kernel < image.base + image.size
    requires uartValid ==>
      var base := PageUp(Add64(image.base, image.size)); !(base <= uart < base + 0x4000)
    requires Ticks(freq) && Long(env)
    modifies t, t.pt, ram
    ensures var l := Layout(mem.base, mem.size, PageUp(Add64(image.base, image.size)));
      && (ok <==> PagesFit(l, old(t.leafs.Keys)))
      && (ok ==> m != null && m.ram == ram && m.visits == Script(l.base, kernel, uartValid, uart))
      && (ok ==> m.delivered == 10 && m.rejected == 4 && m.reason == Irq && m.grant == 2)
    ensures var b := PageUp(Add64(image.base, image.size));
      ok ==>
        && EightAt(ram[..], mem.base, b + 0x1020) == [0xB0, 0xB0, 0xB0, 0xB0, 0xB0, 0xB0, 0, 0]
        && EightAt(ram[..], mem.base, b + 0x3020) == [0xE5, 0x1C, 0xA1, 0xE5, 0x1C, 0xA1, 0, 0]
        && EightAt(ram[..], mem.base, b + 0x3008) == [0x55, 0x50, 0, 0, 0, 0, 0, 0]
        && EightAt(ram[..], mem.base, b + 0x3010) == [0x55, 0x50, 0, 0, 0, 0, 0, 0]
        && EightAt(ram[..], mem.base, b + 0x3018) == [0, 0, 0, 0, 0, 0, 0, 0]
  {
    hide PageOf, ShapeOk, LeafsOk, Nodes, Closed, Present, Leaf, Ready, ShownOf, EightAt, Leads, Script, RangeContains,
         Add64, PageUp, Elsewhere, Started;
    m := null;
    ImageInside(mem, image);
    var base := PageUp(Add64(image.base, image.size));
    RamCheck(mem, base);
    if !RangeContains(mem.base, mem.size, base, 0x4000) { return false, null; }
    var l := Layout(mem.base, mem.size, base);
    Behind(mem, image, kernel, uartValid, uart, l);
    var machine := new Machine(l, t, ram);
    ok := Drive(machine, image.base, kernel, uartValid, uart, freq, env);
    m := machine;
    if ok { ShownBytes(l, ram[..]); }
  }

  /** The image and the console are not among the four pages. */
  lemma Behind(mem: Range, image: Range, kernel: u64, uartValid: bool, uart: u64, l: Layout)
    requires mem.base + mem.size < TWO48 && RangeContains(mem.base, mem.size, image.base, image.size)
    requires image.base <= kernel < image.base + image.size
    requires l == Layout(mem.base, mem.size, PageUp(Add64(image.base, image.size))) && LayoutOk(l)
    requires uartValid ==> !(l.base <= uart < l.base + 0x4000)
    ensures image.base < TWO48 && Elsewhere(l, image.base) && Elsewhere(l, kernel)
    ensures uartValid ==> Elsewhere(l, uart)
  {
    hide RangeContains, Add64, PageUp;
    ImageInside(mem, image);
  }

  lemma ImageInside(mem: Range, image: Range)
    requires mem.base + mem.size < TWO48 && RangeContains(mem.base, mem.size, image.base, image.size)
    ensures 0 < image.size && mem.base <= image.base && image.base + image.size <= mem.base + mem.size
    ensures Add64(image.base, image.size) == image.base + image.size
    ensures image.base + image.size <= PageUp(Add64(image.base, image.size)) <= TWO48
  {
  }
}
