/** The room bodies of foundation/room/room_entry.S as the processor runs them: instructions fetched from
    RAM and executed under the permissions that the page tables grant, and what one entry of a room with
    each body leaves. */
module Blobs {
  import opened Words
  import opened PageTables
  import opened Rooms
  import opened Separation
  import opened RoomKernel
  import opened A64
  import Boot

  // ---- The bodies --------------------------------------------------------------------

  predicate Listing(s: seq<Instr>) {
    0 < |s| <= 16 && forall i :: 0 <= i < |s| ==> Valid(s[i])
  }

  type Program = s: seq<Instr> | Listing(s) witness [B(0)]

  // x0 holds the data page, x1 the test address.
  const FAULT: Program := [Ldr(2, 1, 0), Call(0)]
  const STORE: Program := [Str(31, 1, 0), Call(0)]
  const EXEC: Program := [Br(1)]
  const STEAL: Program := [MsrTval(31), Call(0)]
  const SEND: Program :=
    [Movz(2, 1), Str(2, 0, 0), Movz(2, 0x5055), Str(2, 0, 8), Movz(2, 0x1111), Str(2, 0, 16), Str(2, 0, 24),
     Call(1), Call(0)]
  const MAL: Program := [Movz(2, 2), Str(2, 0, 0), Movz(2, 0x5055), Str(2, 0, 8), Call(1), Call(0)]
  const PAY: Program := [Movz(2, 1), Str(2, 0, 0), Movz(2, 1), Str(2, 0, 8), Call(1), Call(0)]
  const BAD: Program := [MovReg(0, 1), Call(1), Call(0)]
  const REPLY: Program := [Movz(2, 0), Str(2, 0, 0), Movz(2, 0x5055), Str(2, 0, 8), Call(1), Call(0)]
  const RECV: Program := [Ldr(2, 0, 8), Str(2, 0, 16), Call(0)]
  const SPIN: Program := [B(0)]

  /** The bytes between a body's two labels. */
  function Assemble(code: seq<Instr>): (b: seq<u8>)
    requires forall i :: 0 <= i < |code| ==> Valid(code[i])
    ensures |b| == 4 * |code|
  {
    if code == [] then [] else LeBytes(Encode(code[0]), 4) + Assemble(code[1..])
  }

  lemma {:induction false} WordOf(code: seq<Instr>, j: nat)
    requires (forall i :: 0 <= i < |code| ==> Valid(code[i])) && j < |code|
    ensures Assemble(code)[4 * j..4 * j + 4] == LeBytes(Encode(code[j]), 4)
  {
    hide LeBytes, Encode;
    var w, rest := LeBytes(Encode(code[0]), 4), Assemble(code[1..]);
    if j > 0 {
      WordOf(code[1..], j - 1);
      assert (w + rest)[4 * j..4 * j + 4] == rest[4 * (j - 1)..4 * (j - 1) + 4];
    } else {
      assert (w + rest)[0..4] == w;
    }
  }

  lemma WordBack(w: u32)
    ensures LittleEndian(LeBytes(w, 4)) == w
  {
    assert Boot.Pow256(4) == 0x1_0000_0000;
    Boot.WordRoundTrip(w, 4);
  }

  // ---- Executing what is in RAM ------------------------------------------------------

  /** x0 to x30. */
  type Regs = r: seq<u64> | |r| == 31 witness seq(31, _ => 0)

  function Reg(r: Regs, n: nat): u64 {
    if n < 31 then r[n] else 0
  }

  function Set(r: Regs, n: nat, v: u64): Regs {
    if n < 31 then r[n := v] else r
  }

  /** After a pulse x0 holds the kernel's answer, 0, and x1 to x17 whatever the kernel left in them. */
  function Pulsed(r: Regs, junk: Regs): Regs {
    [0] + junk[1..18] + r[18..]
  }

  // ESR_EL1 for a supervisor call, a trapped system register, an unknown instruction, a misaligned pc.
  function SvcEsr(n: nat): u64 { 0x5600_0000 + n % 0x1_0000 }
  const ESR_TRAP: u64 := 0x6200_0000
  const ESR_UNKNOWN: u64 := 0x0200_0000
  const ESR_PC: u64 := 0x8A00_0000

  /** `n` byte loads from `va` up. */
  ghost function Loads(l: Layout, k: Kernel, va: u64, n: nat): (s: Stepped)
    requires LayoutOk(l) && |k.ram| == l.size && k.cur < ROOM_N
    ensures |s.k.ram| == l.size && s.k.cur == k.cur
    decreases n
  {
    if n == 0 then Stepped(k, false)
    else
      var s := Step(l, k, Load(va));
      if s.left then s else Loads(l, s.k, Add64(va, 1), n - 1)
  }

  /** Byte stores from `va` up. */
  ghost function Stores(l: Layout, k: Kernel, va: u64, b: seq<u8>): (s: Stepped)
    requires LayoutOk(l) && |k.ram| == l.size && k.cur < ROOM_N
    ensures |s.k.ram| == l.size && s.k.cur == k.cur
    decreases |b|
  {
    if b == [] then Stepped(k, false)
    else
      var s := Step(l, k, Store(va, b[0]));
      if s.left then s else Stores(l, s.k, Add64(va, 1), b[1..])
  }

  function Loaded(l: Layout, ram: seq<u8>, va: u64): u64
    requires |ram| == l.size
  {
    if l.lo <= va && va + 8 <= l.lo + l.size then Load64(l, ram, va) % 0x1_0000_0000_0000_0000 else 0
  }

  /** The word that the processor fetches. */
  ghost function Fetched(l: Layout, k: Kernel, pc: u64): u32
    requires |k.ram| == l.size
  {
    var pa := Physical(k.leafs, pc);
    if l.lo <= pa && pa + 4 <= l.lo + l.size then LittleEndian(k.ram[pa - l.lo .. pa - l.lo + 4]) % 0x1_0000_0000
    else 0
  }

  datatype Done = Done(k: Kernel, r: Regs, pc: u64, left: bool)

  /** What one instruction does once it is fetched; `left` when it ends the interval. */
  ghost function Do(l: Layout, k: Kernel, i: Instr, r: Regs, pc: u64, junk: Regs): (d: Done)
    requires LayoutOk(l) && |k.ram| == l.size && k.cur < ROOM_N
    ensures |d.k.ram| == l.size && d.k.cur == k.cur
  {
    var next := Add64(pc, 4);
    match i
    case Movz(rd, imm) => Done(k, Set(r, rd, imm % 0x1_0000), next, false)
    case MovReg(rd, rm) => Done(k, Set(r, rd, Reg(r, rm)), next, false)
    case Ldr(rt, rn, off) =>
      var va := Add64(Reg(r, rn), off % TWO64);
      var s := Loads(l, k, va, 8);
      Done(s.k, Set(r, rt, Loaded(l, k.ram, va)), next, s.left)
    case Str(rt, rn, off) =>
      var s := Stores(l, k, Add64(Reg(r, rn), off % TWO64), LeBytes(Reg(r, rt), 8));
      Done(s.k, r, next, s.left)
    case Br(rn) => Done(k, r, Reg(r, rn), false)
    case B(words) => Done(k, r, (pc + 4 * words) % 0x1_0000_0000_0000_0000, false)
    case Call(imm) =>
      var s := Step(l, k, Sync(SvcEsr(imm), r[0]));
      Done(s.k, Pulsed(r, junk), next, s.left)
    case MsrTval(_) => var s := Step(l, k, Sync(ESR_TRAP, r[0])); Done(s.k, r, next, s.left)
    case Other => var s := Step(l, k, Sync(ESR_UNKNOWN, r[0])); Done(s.k, r, next, s.left)
  }

  /** The fetch itself: the address must be a multiple of four and executable. */
  ghost function Fetches(l: Layout, k: Kernel, r: Regs, pc: u64): Stepped
    requires LayoutOk(l) && |k.ram| == l.size && k.cur < ROOM_N
  {
    if pc % 4 != 0 then Step(l, k, Sync(ESR_PC, r[0])) else Step(l, k, Fetch(pc))
  }

  /** EL0 from `pc` on; the interrupt `intid` comes after `slice` instructions. */
  ghost function Exec(l: Layout, k: Kernel, pc: u64, r: Regs, slice: nat, intid: u32, junk: Regs): (t: Kernel)
    requires LayoutOk(l) && |k.ram| == l.size && k.cur < ROOM_N
    ensures |t.ram| == l.size && t.cur == k.cur
    decreases slice
  {
    if slice == 0 then Seal(l, k, IrqReason(intid))
    else
      var f := Fetches(l, k, r, pc);
      if f.left then f.k
      else
        var d := Do(l, k, Decode(Fetched(l, k, pc)), r, pc, junk);
        if d.left then d.k else Exec(l, d.k, d.pc, d.r, slice - 1, intid, junk)
  }

  /** What the kernel cannot choose about its `n`th entry: when the slice ends, what the registers from x2
      on hold, and what a pulse leaves in them. */
  datatype Env = Env(slice: nat -> nat, regs: nat -> Regs, junk: nat -> Regs)

  function StartRegs(l: Layout, id: nat, fault: u64, rest: Regs): Regs
    requires LayoutOk(l) && id < ROOM_N
  {
    rest[0 := Data(l, id)][1 := fault]
  }

  /** nxu_room_enter, up to nxu_room_return. */
  ghost function ExecFrom(l: Layout, k: Kernel, v: Visit, n: nat, env: Env): (t: Kernel)
    requires LayoutOk(l) && |k.ram| == l.size && k.cur < ROOM_N
    ensures |t.ram| == l.size && t.cur == k.cur
  {
    Exec(l, k, Code(l, k.cur), StartRegs(l, k.cur, v.fault, env.regs(n)), env.slice(n),
         if v.poke then 0 else TIMER_PPI, env.junk(n))
  }

  /** run(), the `n`th time; None stands for nxu_fail. */
  ghost function RunVisit(l: Layout, k: Kernel, v: Visit, n: nat, env: Env): (r: Option<Kernel>)
    requires LayoutOk(l) && |k.ram| == l.size
    ensures r.Some? ==> |r.value.ram| == l.size && r.value.cur < ROOM_N
  {
    if v.id >= ROOM_N then None
    else
      var e := Enter(l, k, Interval(v.id, v.blob, v.wipe, [], true, 0));
      if e.None? then None else Some(ExecFrom(l, e.value, v, n, env))
  }

  /** A list of entries, one after the other. */
  ghost function VisitAll(l: Layout, k: Kernel, vs: seq<Visit>, env: Env): (r: Option<Kernel>)
    requires LayoutOk(l) && |k.ram| == l.size
    ensures r.Some? ==> |r.value.ram| == l.size
  {
    if vs == [] then Some(k)
    else
      var r := VisitAll(l, k, vs[..|vs| - 1], env);
      if r.None? then None else RunVisit(l, r.value, vs[|vs| - 1], |vs| - 1, env)
  }

  /** The entries `vs` lead from `k` to `t`. */
  ghost predicate Leads(l: Layout, k: Kernel, vs: seq<Visit>, env: Env, t: Kernel) {
    LayoutOk(l) && |k.ram| == l.size && VisitAll(l, k, vs, env) == Some(t)
  }

  /** The `n`th entry leads from `k` to `t`. */
  ghost predicate LeadsOn(l: Layout, k: Kernel, v: Visit, n: nat, env: Env, t: Kernel) {
    LayoutOk(l) && |k.ram| == l.size && RunVisit(l, k, v, n, env) == Some(t)
  }

  lemma LeadsFurther(l: Layout, k: Kernel, vs: seq<Visit>, env: Env, t: Kernel, v: Visit, t': Kernel)
    requires Leads(l, k, vs, env, t) && LeadsOn(l, t, v, |vs|, env, t')
    ensures Leads(l, k, vs + [v], env, t')
  {
    hide RunVisit;
    assert (vs + [v])[..|vs|] == vs;
  }

  lemma LeadsNowhere(l: Layout, k: Kernel, env: Env)
    requires LayoutOk(l) && |k.ram| == l.size
    ensures Leads(l, k, [], env, k)
  {
  }

  // ---- Single accesses in an opened room ---------------------------------------------

  ghost predicate Entered(l: Layout, k: Kernel) {
    LayoutOk(l) && |k.ram| == l.size && k.cur < ROOM_N && Opened(l, k.leafs, k.cur)
  }

  /** The body is in the code page of the running room. */
  ghost predicate Holding(l: Layout, k: Kernel, code: Program) {
    && Entered(l, k)
    && k.ram[Code(l, k.cur) - l.lo..Code(l, k.cur) - l.lo + 4 * |code|] == Assemble(code)
  }

  /** The data and instruction aborts, and the other exceptions but calls, end the interval as a fault. */
  lemma AbortsSeal(l: Layout, k: Kernel)
    requires LayoutOk(l) && |k.ram| == l.size && k.cur < ROOM_N
    ensures Exception(l, k, ESR_DATA_ABORT, 0) == Seal(l, k, Fault)
    ensures Exception(l, k, ESR_INSTR_ABORT, 0) == Seal(l, k, Fault)
    ensures forall x :: Exception(l, k, ESR_TRAP, x) == Seal(l, k, Fault)
    ensures !IsPulse(ESR_TRAP)
  {
    hide Seal, Pulse;
    assert EcOf(ESR_DATA_ABORT) == 0x24 && EcOf(ESR_INSTR_ABORT) == 0x20 && EcOf(ESR_TRAP) == 0x18;
  }

  lemma SvcCodes()
    ensures IsPulse(SvcEsr(1)) && IsLeave(SvcEsr(0)) && !IsPulse(SvcEsr(0))
  {
    assert SvcEsr(0) == 0x5600_0000 && SvcEsr(1) == 0x5600_0001;
    assert EcOf(SvcEsr(1)) == 0x15 && ImmOf(SvcEsr(1)) == 1;
    assert EcOf(SvcEsr(0)) == 0x15 && ImmOf(SvcEsr(0)) == 0;
  }

  lemma Refused(l: Layout, k: Kernel, va: u64)
    requires LayoutOk(l) && |k.ram| == l.size && k.cur < ROOM_N
    ensures !CanRead(k.leafs, va) ==> Loads(l, k, va, 8) == Stepped(Seal(l, k, Fault), true)
    ensures !CanWrite(k.leafs, va) ==>
      forall v: u64 :: Stores(l, k, va, LeBytes(v, 8)) == Stepped(Seal(l, k, Fault), true)
    ensures !CanExecute(k.leafs, va) ==> Step(l, k, Fetch(va)) == Stepped(Seal(l, k, Fault), true)
  {
    hide CanRead, CanWrite, CanExecute, Seal, Exception;
    AbortsSeal(l, k);
    assert forall v: u64 :: |LeBytes(v, 8)| == 8;
  }

  lemma StoreOwn(l: Layout, k: Kernel, va: u64, b: u8)
    requires Entered(l, k) && InPage(va, Data(l, k.cur))
    ensures Step(l, k, Store(va, b)) == Stepped(k.(ram := k.ram[va - l.lo := b]), false)
  {
    hide CanWrite, CanRead, CanExecute, Physical, Exception;
    assert CanWrite(k.leafs, va) <==> InPage(va, Data(l, k.cur));
    assert CanRead(k.leafs, va) && Physical(k.leafs, va) == va;
  }

  lemma PokeNext(l: Layout, ram: seq<u8>, va: nat, b: seq<u8>)
    requires |ram| == l.size && l.lo <= va && va + |b| <= l.lo + l.size && b != []
    ensures Poke(l, ram[va - l.lo := b[0]], va + 1, b[1..]) == Poke(l, ram, va, b)
  {
  }

  lemma {:induction false} StoresOwn(l: Layout, k: Kernel, va: u64, b: seq<u8>)
    requires Entered(l, k) && Data(l, k.cur) <= va && va + |b| <= Data(l, k.cur) + 0x1000
    ensures Stores(l, k, va, b) == Stepped(k.(ram := Poke(l, k.ram, va, b)), false)
    decreases |b|
  {
    hide Step, Opened, Poke;
    if b == [] {
      PokeNone(l, k.ram, va);
    } else {
      StoreOwn(l, k, va, b[0]);
      StoresOwn(l, k.(ram := k.ram[va - l.lo := b[0]]), va + 1, b[1..]);
      PokeNext(l, k.ram, va, b);
    }
  }

  lemma LoadOwn(l: Layout, k: Kernel, va: u64)
    requires Entered(l, k) && InPage(va, Data(l, k.cur))
    ensures Step(l, k, Load(va)) == Stepped(k, false)
  {
    hide CanWrite, CanRead, CanExecute, Physical, Exception;
    assert CanRead(k.leafs, va) <==> InPage(va, Code(l, k.cur)) || InPage(va, Data(l, k.cur));
  }

  lemma {:induction false} LoadsOwn(l: Layout, k: Kernel, va: u64, n: nat)
    requires Entered(l, k) && Data(l, k.cur) <= va && va + n <= Data(l, k.cur) + 0x1000
    ensures Loads(l, k, va, n) == Stepped(k, false)
    decreases n
  {
    hide Step, Opened;
    if n > 0 {
      LoadOwn(l, k, va);
      LoadsOwn(l, k, va + 1, n - 1);
    }
  }

  // ---- One instruction in an opened room ---------------------------------------------

  lemma FetchPage(l: Layout, k: Kernel, va: u64)
    requires Entered(l, k) && InPage(va, Code(l, k.cur))
    ensures Step(l, k, Fetch(va)) == Stepped(k, false) && Physical(k.leafs, va) == va
  {
    hide CanExecute, CanRead, CanWrite, Physical, Exception;
    assert CanExecute(k.leafs, va) <==> InPage(va, Code(l, k.cur));
    assert CanRead(k.leafs, va) <==> InPage(va, Code(l, k.cur)) || InPage(va, Data(l, k.cur));
  }

  lemma WordInRam(l: Layout, k: Kernel, code: Program, j: nat)
    requires Holding(l, k, code) && j < |code|
    ensures var va := Code(l, k.cur) + 4 * j;
      && InPage(va, Code(l, k.cur)) && va % 4 == 0
      && k.ram[va - l.lo .. va - l.lo + 4] == LeBytes(Encode(code[j]), 4)
  {
    hide Assemble, Encode, LeBytes, Opened;
    var at := Code(l, k.cur) - l.lo;
    WordIn(k.ram, at, code, j);
    Aligned(Code(l, k.cur), j);
  }

  lemma WordIn(ram: seq<u8>, at: nat, code: Program, j: nat)
    requires at + 4 * |code| <= |ram| && ram[at..at + 4 * |code|] == Assemble(code) && j < |code|
    ensures ram[at + 4 * j..at + 4 * j + 4] == LeBytes(Encode(code[j]), 4)
  {
    hide Assemble, Encode, LeBytes;
    Boot.SliceTwice(ram, at, at + 4 * |code|, 4 * j, 4 * j + 4);
    WordOf(code, j);
  }

  lemma Aligned(page: nat, j: nat)
    requires page % 0x1000 == 0
    ensures (page + 4 * j) % 4 == 0
  {
    var n := page / 0x1000 * 0x400 + j;
    assert page + 4 * j == n * 4;
    Splits(n, 0, 4);
  }

  /** The running room fetches its own body. */
  lemma FetchOwn(l: Layout, k: Kernel, code: Program, j: nat, r: Regs)
    requires Holding(l, k, code) && j < |code|
    ensures Fetches(l, k, r, Code(l, k.cur) + 4 * j) == Stepped(k, false)
    ensures Decode(Fetched(l, k, Code(l, k.cur) + 4 * j)) == code[j]
  {
    hide Step, Physical, Opened, Holding, InPage, Decode, Encode, LeBytes, LittleEndian;
    IsEntered(l, k, code);
    WordInRam(l, k, code, j);
    FetchPage(l, k, Code(l, k.cur) + 4 * j);
    WordBack(Encode(code[j]));
    DecodeEncode(code[j]);
  }

  /** One instruction of the body. */
  lemma Executes(l: Layout, k: Kernel, code: Program, j: nat, r: Regs, slice: nat, intid: u32, junk: Regs)
    requires Holding(l, k, code) && j < |code| && 0 < slice
    ensures var pc: u64 := Code(l, k.cur) + 4 * j; var d := Do(l, k, code[j], r, pc, junk);
      Exec(l, k, pc, r, slice, intid, junk)
      == if d.left then d.k else Exec(l, d.k, d.pc, d.r, slice - 1, intid, junk)
  {
    hide Do, Fetches, Fetched, Decode, Seal, Holding;
    FetchOwn(l, k, code, j, r);
  }

  function Stored(l: Layout, k: Kernel, off: nat, v: u64): (t: Kernel)
    requires LayoutOk(l) && |k.ram| == l.size && k.cur < ROOM_N && off + 8 <= 0x1000
    ensures |t.ram| == l.size && t == k.(ram := t.ram)
  {
    k.(ram := Poke(l, k.ram, Data(l, k.cur) + off, LeBytes(v, 8)))
  }

  lemma SliceBeside(l: Layout, ram: seq<u8>, pa: nat, b: seq<u8>, from: nat, to: nat)
    requires |ram| == l.size && l.lo <= pa && pa + |b| <= l.lo + l.size
    requires from <= to <= l.size && (l.lo + to <= pa || pa + |b| <= l.lo + from)
    ensures Poke(l, ram, pa, b)[from..to] == ram[from..to]
  {
    var x, y := Poke(l, ram, pa, b)[from..to], ram[from..to];
    forall i | 0 <= i < to - from ensures x[i] == y[i] { }
  }

  lemma StoredHolding(l: Layout, k: Kernel, code: Program, off: nat, v: u64)
    requires Holding(l, k, code) && off + 8 <= 0x1000
    ensures Holding(l, Stored(l, k, off, v), code)
  {
    hide Assemble, LeBytes, Opened, Poke;
    var at := Code(l, k.cur) - l.lo;
    SliceBeside(l, k.ram, Data(l, k.cur) + off, LeBytes(v, 8), at, at + 4 * |code|);
  }

  lemma PulseHolding(l: Layout, k: Kernel, code: Program, arg0: u64)
    requires Holding(l, k, code)
    ensures Holding(l, Pulse(l, k, arg0), code) && Pulse(l, k, arg0).cur == k.cur
  {
    hide Assemble, LeBytes, Opened, Poke, Accepted;
    var at := Code(l, k.cur) - l.lo;
    SliceBeside(l, k.ram, Data(l, 1) + 8, LeBytes(PAYLOAD, 8), at, at + 4 * |code|);
  }

  lemma StrDo(l: Layout, k: Kernel, rt: nat, rn: nat, off: nat, r: Regs, pc: u64, junk: Regs)
    requires Entered(l, k) && off + 8 <= 0x1000 && Reg(r, rn) == Data(l, k.cur)
    ensures Do(l, k, Str(rt, rn, off), r, pc, junk) == Done(Stored(l, k, off, Reg(r, rt)), r, Add64(pc, 4), false)
  {
    hide Opened, Step, Seal, Poke, LeBytes;
    assert Add64(Reg(r, rn), off % TWO64) == Data(l, k.cur) + off;
    StoresOwn(l, k, Data(l, k.cur) + off, LeBytes(Reg(r, rt), 8));
  }

  lemma LdrDo(l: Layout, k: Kernel, rt: nat, rn: nat, off: nat, r: Regs, pc: u64, junk: Regs)
    requires Entered(l, k) && off + 8 <= 0x1000 && Reg(r, rn) == Data(l, k.cur)
    ensures Do(l, k, Ldr(rt, rn, off), r, pc, junk)
         == Done(k, Set(r, rt, Loaded(l, k.ram, Data(l, k.cur) + off)), Add64(pc, 4), false)
  {
    hide Opened, Step, Seal, Loaded;
    assert Add64(Reg(r, rn), off % TWO64) == Data(l, k.cur) + off;
    LoadsOwn(l, k, Data(l, k.cur) + off, 8);
  }

  lemma LeaveDo(l: Layout, k: Kernel, r: Regs, pc: u64, junk: Regs)
    requires LayoutOk(l) && |k.ram| == l.size && k.cur < ROOM_N
    ensures Do(l, k, Call(0), r, pc, junk).left && Do(l, k, Call(0), r, pc, junk).k == Seal(l, k, Svc)
  {
    hide Seal, IsPulse, IsLeave, Pulse;
    SvcCodes();
  }

  lemma PulseDo(l: Layout, k: Kernel, r: Regs, pc: u64, junk: Regs)
    requires LayoutOk(l) && |k.ram| == l.size && k.cur < ROOM_N
    ensures Do(l, k, Call(1), r, pc, junk) == Done(Pulse(l, k, r[0]), Pulsed(r, junk), Add64(pc, 4), false)
  {
    hide Seal, IsPulse, IsLeave, Pulse, Pulsed;
    SvcCodes();
  }

  // One step of each kind along a body.
  lemma MovzStep(l: Layout, k: Kernel, code: Program, j: nat, r: Regs, slice: nat, intid: u32, junk: Regs)
    requires Holding(l, k, code) && j < |code| && 0 < slice && code[j].Movz?
    ensures Exec(l, k, Code(l, k.cur) + 4 * j, r, slice, intid, junk)
         == Exec(l, k, Code(l, k.cur) + 4 * (j + 1), Set(r, code[j].rd, code[j].imm), slice - 1, intid, junk)
  {
    hide Exec, Holding, Opened;
    Executes(l, k, code, j, r, slice, intid, junk);
    IsEntered(l, k, code);
    assert Valid(code[j]);
  }

  lemma StrStep(l: Layout, k: Kernel, code: Program, j: nat, r: Regs, slice: nat, intid: u32, junk: Regs)
    requires Holding(l, k, code) && j < |code| && 0 < slice && code[j].Str?
    requires code[j].off + 8 <= 0x1000 && Reg(r, code[j].rn) == Data(l, k.cur)
    ensures var t := Stored(l, k, code[j].off, Reg(r, code[j].rt));
      && Holding(l, t, code)
      && Exec(l, k, Code(l, k.cur) + 4 * j, r, slice, intid, junk)
         == Exec(l, t, Code(l, k.cur) + 4 * (j + 1), r, slice - 1, intid, junk)
  {
    hide Exec, Holding, Do, Stored, Opened;
    Executes(l, k, code, j, r, slice, intid, junk);
    assert Entered(l, k) by { IsEntered(l, k, code); }
    StrDo(l, k, code[j].rt, code[j].rn, code[j].off, r, Code(l, k.cur) + 4 * j, junk);
    StoredHolding(l, k, code, code[j].off, Reg(r, code[j].rt));
  }

  lemma IsEntered(l: Layout, k: Kernel, code: Program)
    requires Holding(l, k, code)
    ensures Entered(l, k)
  {
  }

  lemma LeaveStep(l: Layout, k: Kernel, code: Program, j: nat, r: Regs, slice: nat, intid: u32, junk: Regs)
    requires Holding(l, k, code) && j < |code| && 0 < slice && code[j] == Call(0)
    ensures Exec(l, k, Code(l, k.cur) + 4 * j, r, slice, intid, junk) == Seal(l, k, Svc)
  {
    hide Exec, Holding, Do, Seal, Opened;
    Executes(l, k, code, j, r, slice, intid, junk);
    IsEntered(l, k, code);
    LeaveDo(l, k, r, Code(l, k.cur) + 4 * j, junk);
  }

  /** A pulse, and then the call that leaves. */
  lemma PulseAndLeave(l: Layout, k: Kernel, code: Program, j: nat, r: Regs, slice: nat, intid: u32, junk: Regs)
    requires Holding(l, k, code) && j + 1 < |code| && 1 < slice && code[j] == Call(1) && code[j + 1] == Call(0)
    ensures Holding(l, Pulse(l, k, r[0]), code)
    ensures Exec(l, k, Code(l, k.cur) + 4 * j, r, slice, intid, junk) == Seal(l, Pulse(l, k, r[0]), Svc)
  {
    hide Exec, Holding, Do, Seal, Pulse, Opened, Pulsed;
    Executes(l, k, code, j, r, slice, intid, junk);
    IsEntered(l, k, code);
    PulseDo(l, k, r, Code(l, k.cur) + 4 * j, junk);
    PulseHolding(l, k, code, r[0]);
    LeaveStep(l, Pulse(l, k, r[0]), code, j + 1, Pulsed(r, junk), slice - 1, intid, junk);
  }

  // ---- What a body does --------------------------------------------------------------

  /** The first instruction, or the fetch to which it jumps, is refused: nothing changes, and the interval
      ends as a fault. */
  lemma RefusedBody(l: Layout, k: Kernel, code: Program, r: Regs, slice: nat, intid: u32, junk: Regs)
    requires Holding(l, k, code) && 1 < slice && Tries(code[0])
    requires code[0].Ldr? ==> !CanRead(k.leafs, r[1])
    requires code[0].Str? ==> !CanWrite(k.leafs, r[1])
    requires code[0].Br? ==> !CanExecute(k.leafs, r[1])
    ensures Exec(l, k, Code(l, k.cur), r, slice, intid, junk) == Seal(l, k, Fault)
  {
    hide Holding, Opened, Seal, CanRead, CanWrite, CanExecute, Do, Exec;
    Executes(l, k, code, 0, r, slice, intid, junk);
    IsEntered(l, k, code);
    DoRefused(l, k, code[0], r, Code(l, k.cur), junk);
    if code[0].Br? { JumpRefused(l, k, r[1], r, slice - 1, intid, junk); }
  }

  /** A refused access ends the interval; a jump goes through, and ends it at the next fetch. */
  lemma DoRefused(l: Layout, k: Kernel, i: Instr, r: Regs, pc: u64, junk: Regs)
    requires LayoutOk(l) && |k.ram| == l.size && k.cur < ROOM_N && Tries(i)
    requires i.Ldr? ==> !CanRead(k.leafs, r[1])
    requires i.Str? ==> !CanWrite(k.leafs, r[1])
    ensures i.Br? ==> Do(l, k, i, r, pc, junk) == Done(k, r, r[1], false)
    ensures !i.Br? ==> Do(l, k, i, r, pc, junk).left && Do(l, k, i, r, pc, junk).k == Seal(l, k, Fault)
  {
    hide Seal, CanRead, CanWrite, CanExecute, LeBytes, IsPulse, Exception, Loads, Stores, Loaded;
    Refused(l, k, r[1]);
    AbortsSeal(l, k);
    assert Add64(r[1], 0) == r[1];
  }

  /** The instructions with which a body tries its test address, or the timer. */
  predicate Tries(i: Instr) {
    i == Ldr(2, 1, 0) || i == Str(31, 1, 0) || i == Br(1) || i == MsrTval(31)
  }

  lemma JumpRefused(l: Layout, k: Kernel, pc: u64, r: Regs, slice: nat, intid: u32, junk: Regs)
    requires Entered(l, k) && 0 < slice && !CanExecute(k.leafs, pc)
    ensures Exec(l, k, pc, r, slice, intid, junk) == Seal(l, k, Fault)
  {
    hide Opened, Seal, CanExecute, IsPulse, Do, Fetched, Decode, Exception;
    AbortsSeal(l, k);
    OddPc(l, k, r[0]);
  }

  lemma OddPc(l: Layout, k: Kernel, x: u64)
    requires LayoutOk(l) && |k.ram| == l.size && k.cur < ROOM_N
    ensures Exception(l, k, ESR_PC, x) == Seal(l, k, Fault) && !IsPulse(ESR_PC)
  {
    hide Seal, Pulse;
    assert EcOf(ESR_PC) == 0x22;
  }

  lemma {:induction false} SpinBody(l: Layout, k: Kernel, r: Regs, slice: nat, intid: u32, junk: Regs)
    requires Holding(l, k, SPIN)
    ensures Exec(l, k, Code(l, k.cur), r, slice, intid, junk) == Seal(l, k, IrqReason(intid))
    decreases slice
  {
    hide Holding, Opened, Seal, Do, Fetches, Fetched;
    if slice > 0 {
      Executes(l, k, SPIN, 0, r, slice, intid, junk);
      IsEntered(l, k, SPIN);
      StaysDo(l, k, r, junk);
      SpinBody(l, k, r, slice - 1, intid, junk);
    }
  }

  lemma StaysDo(l: Layout, k: Kernel, r: Regs, junk: Regs)
    requires LayoutOk(l) && |k.ram| == l.size && k.cur < ROOM_N
    ensures Do(l, k, B(0), r, Code(l, k.cur), junk) == Done(k, r, Code(l, k.cur), false)
  {
  }

  /** Two words stored at the start of the data page, a pulse, and leave. */
  lemma MalformedBody(l: Layout, k: Kernel, code: Program, a: nat, b: nat, r: Regs, slice: nat, intid: u32, junk: Regs)
    requires Holding(l, k, code) && r[0] == Data(l, k.cur) && 6 <= slice && a < 0x1_0000 && b < 0x1_0000
    requires code == [Movz(2, a), Str(2, 0, 0), Movz(2, b), Str(2, 0, 8), Call(1), Call(0)]
    ensures Entered(l, Pulse(l, Stored(l, Stored(l, k, 0, a), 8, b), r[0]))
    ensures Exec(l, k, Code(l, k.cur), r, slice, intid, junk)
         == Seal(l, Pulse(l, Stored(l, Stored(l, k, 0, a), 8, b), r[0]), Svc)
  {
    hide Holding, Opened, Seal, Pulse, Exec, Stored, LeBytes, Poke;
    IsEntered(l, k, code);
    MovzStep(l, k, code, 0, r, slice, intid, junk);
    var r1 := Set(r, 2, a);
    StrStep(l, k, code, 1, r1, slice - 1, intid, junk);
    var k1 := Stored(l, k, 0, a);
    MovzStep(l, k1, code, 2, r1, slice - 2, intid, junk);
    var r2 := Set(r1, 2, b);
    StrStep(l, k1, code, 3, r2, slice - 3, intid, junk);
    var k2 := Stored(l, k1, 8, b);
    PulseAndLeave(l, k2, code, 4, r2, slice - 4, intid, junk);
    IsEntered(l, Pulse(l, k2, r[0]), code);
  }

  lemma SendBody(l: Layout, k: Kernel, r: Regs, slice: nat, intid: u32, junk: Regs)
    requires Holding(l, k, SEND) && r[0] == Data(l, k.cur) && 9 <= slice
    ensures Entered(l, Pulse(l, Filled(l, k), r[0]))
    ensures Exec(l, k, Code(l, k.cur), r, slice, intid, junk) == Seal(l, Pulse(l, Filled(l, k), r[0]), Svc)
  {
    hide Holding, Opened, Seal, Pulse, Exec, Stored, LeBytes, Poke;
    IsEntered(l, k, SEND);
    MovzStep(l, k, SEND, 0, r, slice, intid, junk);
    var r1 := Set(r, 2, 1);
    StrStep(l, k, SEND, 1, r1, slice - 1, intid, junk);
    var k1 := Stored(l, k, 0, 1);
    MovzStep(l, k1, SEND, 2, r1, slice - 2, intid, junk);
    var r2 := Set(r1, 2, 0x5055);
    StrStep(l, k1, SEND, 3, r2, slice - 3, intid, junk);
    var k2 := Stored(l, k1, 8, 0x5055);
    MovzStep(l, k2, SEND, 4, r2, slice - 4, intid, junk);
    var r3 := Set(r2, 2, 0x1111);
    StrStep(l, k2, SEND, 5, r3, slice - 5, intid, junk);
    var k3 := Stored(l, k2, 16, 0x1111);
    StrStep(l, k3, SEND, 6, r3, slice - 6, intid, junk);
    var k4 := Stored(l, k3, 24, 0x1111);
    PulseAndLeave(l, k4, SEND, 7, r3, slice - 7, intid, junk);
    IsEntered(l, Pulse(l, k4, r[0]), SEND);
  }

  /** The message of the sending body: destination 1, the payload, and two words that stay behind. */
  function Filled(l: Layout, k: Kernel): (t: Kernel)
    requires LayoutOk(l) && |k.ram| == l.size && k.cur < ROOM_N
    ensures |t.ram| == l.size && t.cur == k.cur
  {
    Stored(l, Stored(l, Stored(l, Stored(l, k, 0, 1), 8, 0x5055), 16, 0x1111), 24, 0x1111)
  }

  lemma BadBody(l: Layout, k: Kernel, r: Regs, slice: nat, intid: u32, junk: Regs)
    requires Holding(l, k, BAD) && 3 <= slice
    ensures Entered(l, Pulse(l, k, r[1]))
    ensures Exec(l, k, Code(l, k.cur), r, slice, intid, junk) == Seal(l, Pulse(l, k, r[1]), Svc)
  {
    hide Holding, Opened, Seal, Pulse, Exec;
    IsEntered(l, k, BAD);
    Executes(l, k, BAD, 0, r, slice, intid, junk);
    PulseAndLeave(l, k, BAD, 1, Set(r, 0, r[1]), slice - 1, intid, junk);
    IsEntered(l, Pulse(l, k, r[1]), BAD);
  }

  lemma RecvBody(l: Layout, k: Kernel, r: Regs, slice: nat, intid: u32, junk: Regs)
    requires Holding(l, k, RECV) && r[0] == Data(l, k.cur) && 3 <= slice
    ensures var t := Stored(l, k, 16, Loaded(l, k.ram, Data(l, k.cur) + 8));
      Entered(l, t) && Exec(l, k, Code(l, k.cur), r, slice, intid, junk) == Seal(l, t, Svc)
  {
    hide Holding, Opened, Seal, Exec, Stored, LeBytes, Poke, Loaded, Do;
    IsEntered(l, k, RECV);
    Executes(l, k, RECV, 0, r, slice, intid, junk);
    LdrDo(l, k, 2, 0, 8, r, Code(l, k.cur), junk);
    var v := Loaded(l, k.ram, Data(l, k.cur) + 8);
    StrStep(l, k, RECV, 1, Set(r, 2, v), slice - 1, intid, junk);
    var t := Stored(l, k, 16, v);
    LeaveStep(l, t, RECV, 2, Set(r, 2, v), slice - 2, intid, junk);
    IsEntered(l, t, RECV);
  }

  // ---- The words the kernel looks at -------------------------------------------------

  function WordAt(l: Layout, ram: seq<u8>, id: nat, i: nat): nat
    requires LayoutOk(l) && |ram| == l.size && id < ROOM_N && i < 512
  {
    Load64(l, ram, Data(l, id) + 8 * i)
  }

  /** Word 4 of both data pages, and words 1, 2 and 3 of Room 1's. */
  datatype Shown = Shown(canary0: nat, canary1: nat, payload: nat, copied: nat, spare: nat)

  function ShownOf(l: Layout, ram: seq<u8>): Shown
    requires LayoutOk(l) && |ram| == l.size
  {
    Shown(WordAt(l, ram, 0, 4), WordAt(l, ram, 1, 4), WordAt(l, ram, 1, 1), WordAt(l, ram, 1, 2), WordAt(l, ram, 1, 3))
  }

  lemma WordStored(l: Layout, ram: seq<u8>, id: nat, j: nat, v: u64, id': nat, j': nat)
    requires LayoutOk(l) && |ram| == l.size && id < ROOM_N && id' < ROOM_N && j < 512 && j' < 512
    ensures WordAt(l, Poke(l, ram, Data(l, id) + 8 * j, LeBytes(v, 8)), id', j')
         == if id == id' && j == j' then v else WordAt(l, ram, id', j')
  {
    hide Poke, Load64, LeBytes;
    var pa, qa := Data(l, id) + 8 * j, Data(l, id') + 8 * j';
    if id == id' && j == j' { Boot.StoreThenLoad(l, ram, pa, v); } else { Boot.StoreBeside(l, ram, pa, v, qa); }
  }

  lemma ShownStored(l: Layout, ram: seq<u8>, id: nat, j: nat, v: u64)
    requires LayoutOk(l) && |ram| == l.size && id < ROOM_N && j < 4
    ensures var s, t := ShownOf(l, ram), ShownOf(l, Poke(l, ram, Data(l, id) + 8 * j, LeBytes(v, 8)));
      t == if id == 0 || j == 0 then s
           else if j == 1 then s.(payload := v)
           else if j == 2 then s.(copied := v)
           else s.(spare := v)
  {
    hide WordAt, Poke, LeBytes;
    WordStored(l, ram, id, j, v, 0, 4);
    WordStored(l, ram, id, j, v, 1, 4);
    WordStored(l, ram, id, j, v, 1, 1);
    WordStored(l, ram, id, j, v, 1, 2);
    WordStored(l, ram, id, j, v, 1, 3);
  }

  lemma LoadBeside(l: Layout, ram: seq<u8>, pa: nat, b: seq<u8>, qa: nat)
    requires |ram| == l.size && l.lo <= pa && pa + |b| <= l.lo + l.size
    requires l.lo <= qa && qa + 8 <= l.lo + l.size && (qa + 8 <= pa || pa + |b| <= qa)
    ensures Load64(l, Poke(l, ram, pa, b), qa) == Load64(l, ram, qa)
  {
    assert Poke(l, ram, pa, b)[qa - l.lo .. qa - l.lo + 8] == ram[qa - l.lo .. qa - l.lo + 8];
  }

  lemma ShownCode(l: Layout, ram: seq<u8>, id: nat, b: seq<u8>)
    requires LayoutOk(l) && |ram| == l.size && id < ROOM_N && |b| <= 64
    ensures ShownOf(l, Poke(l, ram, Code(l, id), b)) == ShownOf(l, ram)
  {
    hide Poke, Load64;
    LoadBeside(l, ram, Code(l, id), b, Data(l, 0) + 32);
    LoadBeside(l, ram, Code(l, id), b, Data(l, 1) + 32);
    LoadBeside(l, ram, Code(l, id), b, Data(l, 1) + 8);
    LoadBeside(l, ram, Code(l, id), b, Data(l, 1) + 16);
    LoadBeside(l, ram, Code(l, id), b, Data(l, 1) + 24);
  }

  // ---- One entry of a room -----------------------------------------------------------

  ghost predicate Good(l: Layout, k: Kernel) {
    LayoutOk(l) && |k.ram| == l.size && k.cur < ROOM_N && Closed(k.leafs)
  }

  function EntryOf(id: nat, code: Program): Interval {
    Interval(id, Assemble(code), false, [], true, 0)
  }

  /** An entry with one of the bodies. */
  function VisitOf(id: nat, code: Program, fault: u64, poke: bool): Visit {
    Visit(id, Assemble(code), fault, false, poke)
  }

  /** The slice is long enough for any of the bodies but the one that spins. */
  predicate Ample(env: Env, n: nat) {
    16 <= env.slice(n)
  }

  /** What the entry leaves, as far as the kernel looks. */
  datatype Summary = Summary(shown: Shown, grant: nat, delivered: u32, rejected: u32, reason: Exit)

  function SummaryOf(l: Layout, k: Kernel): Summary
    requires LayoutOk(l) && |k.ram| == l.size
  {
    Summary(ShownOf(l, k.ram), k.grant, k.delivered, k.rejected, k.reason)
  }

  /** Entering is possible when it is owed; it copies the body and opens the room. */
  lemma EnterOpens(l: Layout, k: Kernel, id: nat, code: Program)
    requires Good(l, k) && id < ROOM_N && (id == 0 || k.grant == id)
    ensures var e := Enter(l, k, EntryOf(id, code));
      && e.Some? && Holding(l, e.value, code) && e.value.cur == id
      && e.value.ram == Poke(l, k.ram, Code(l, id), Assemble(code))
      && SummaryOf(l, e.value) == SummaryOf(l, k).(grant := if id == 0 then k.grant else ROOM_N)
  {
    hide Closed, Opened, UserOpen, Priv, Poke, Assemble, ShownOf;
    PrivClosed(l, k.leafs, id);
    OpenExact(l, Priv(l, k.leafs, id), id);
    ShownCode(l, k.ram, id, Assemble(code));
    PokedSlice(l, k.ram, Code(l, id), Assemble(code));
  }

  lemma PokedSlice(l: Layout, ram: seq<u8>, pa: nat, b: seq<u8>)
    requires |ram| == l.size && l.lo <= pa && pa + |b| <= l.lo + l.size
    ensures Poke(l, ram, pa, b)[pa - l.lo..pa - l.lo + |b|] == b
  {
  }

  lemma SealCloses(l: Layout, k: Kernel, reason: Exit)
    requires Entered(l, k)
    ensures Good(l, Seal(l, k, reason)) && SummaryOf(l, Seal(l, k, reason)) == SummaryOf(l, k).(reason := reason)
    ensures Seal(l, k, reason).ram == k.ram
  {
    hide Closed, Opened, Priv, ShownOf;
    SealExact(l, k.leafs, k.cur);
  }

  /** The test address is out of the room's reach in the way its body tries to use it. */
  predicate OutOfReach(l: Layout, id: nat, i: Instr, x1: u64) {
    match i
    case Ldr(2, 1, 0) => !InRoom(l, id, x1)
    case Str(31, 1, 0) => !(Data(l, id) <= x1 < Data(l, id) + 0x1000)
    case Br(1) => !(Code(l, id) <= x1 < Code(l, id) + 0x1000)
    case MsrTval(31) => true
    case _ => false
  }

  lemma ReachRefused(l: Layout, k: Kernel, i: Instr, x1: u64)
    requires Entered(l, k) && OutOfReach(l, k.cur, i, x1)
    ensures Tries(i)
    ensures i.Ldr? ==> !CanRead(k.leafs, x1)
    ensures i.Str? ==> !CanWrite(k.leafs, x1)
    ensures i.Br? ==> !CanExecute(k.leafs, x1)
  {
    hide CanRead, CanWrite, CanExecute, Physical;
    assert CanRead(k.leafs, x1) <==> InPage(x1, Code(l, k.cur)) || InPage(x1, Data(l, k.cur));
    assert CanWrite(k.leafs, x1) <==> InPage(x1, Data(l, k.cur));
    assert CanExecute(k.leafs, x1) <==> InPage(x1, Code(l, k.cur));
  }

  lemma RunRefused(l: Layout, k: Kernel, id: nat, code: Program, x1: u64, n: nat, env: Env)
    requires Good(l, k) && id < ROOM_N && (id == 0 || k.grant == id) && OutOfReach(l, id, code[0], x1) && Ample(env, n)
    ensures var r := RunVisit(l, k, VisitOf(id, code, x1, false), n, env);
      && r.Some? && Good(l, r.value) && r.value.ram == Poke(l, k.ram, Code(l, id), Assemble(code))
      && SummaryOf(l, r.value) == SummaryOf(l, k).(grant := if id == 0 then k.grant else ROOM_N, reason := Fault)
  {
    hide Closed, Opened, Holding, Enter, Exec, Poke, ShownOf, Assemble, OutOfReach, Seal, CanRead, CanWrite,
         CanExecute, SummaryOf;
    EnterOpens(l, k, id, code);
    var e := Enter(l, k, EntryOf(id, code)).value;
    IsEntered(l, e, code);
    ReachRefused(l, e, code[0], x1);
    RefusedBody(l, e, code, StartRegs(l, id, x1, env.regs(n)), env.slice(n), TIMER_PPI, env.junk(n));
    SealCloses(l, e, Fault);
  }

  lemma RunSpin(l: Layout, k: Kernel, id: nat, poke: bool, n: nat, env: Env)
    requires Good(l, k) && id < ROOM_N && (id == 0 || k.grant == id)
    ensures var r := RunVisit(l, k, VisitOf(id, SPIN, 0, poke), n, env);
      && r.Some? && Good(l, r.value)
      && SummaryOf(l, r.value)
         == SummaryOf(l, k).(grant := if id == 0 then k.grant else ROOM_N, reason := if poke then Foreign else Irq)
  {
    hide Closed, Opened, Holding, Enter, Exec, Poke, ShownOf, Assemble, Seal, SummaryOf;
    EnterOpens(l, k, id, SPIN);
    var e := Enter(l, k, EntryOf(id, SPIN)).value;
    IsEntered(l, e, SPIN);
    SpinBody(l, e, StartRegs(l, id, 0, env.regs(n)), env.slice(n), if poke then 0 else TIMER_PPI, env.junk(n));
    SealCloses(l, e, if poke then Foreign else Irq);
  }

  lemma StoredShown(l: Layout, k: Kernel, j: nat, v: u64)
    requires LayoutOk(l) && |k.ram| == l.size && k.cur < ROOM_N && j < 4
    ensures var s, t := SummaryOf(l, k), SummaryOf(l, Stored(l, k, 8 * j, v));
      && (k.cur == 0 || j == 0 ==> t == s)
      && (k.cur == 1 && j == 1 ==> t == s.(shown := s.shown.(payload := v)))
      && (k.cur == 1 && j == 2 ==> t == s.(shown := s.shown.(copied := v)))
  {
    hide ShownOf, Poke, LeBytes;
    ShownStored(l, k.ram, k.cur, j, v);
  }

  /** A pulse whose two words are known. */
  lemma PulseSummary(l: Layout, k: Kernel)
    requires LayoutOk(l) && |k.ram| == l.size && k.cur < ROOM_N
    ensures var ok := k.cur == 0 && WordAt(l, k.ram, 0, 0) == 1 && WordAt(l, k.ram, 0, 1) == PAYLOAD;
      var s := SummaryOf(l, k);
      SummaryOf(l, Pulse(l, k, Data(l, k.cur)))
      == if ok then s.(shown := s.shown.(payload := PAYLOAD), grant := 1, delivered := Incr(k.delivered))
         else s.(rejected := Incr(k.rejected))
  {
    hide ShownOf, Poke, LeBytes, Load64, Incr;
    ShownStored(l, k.ram, 1, 1, PAYLOAD);
  }

  /** The first two words after the two stores with which a message starts. */
  lemma TwoWords(l: Layout, k: Kernel, a: u64, b: u64)
    requires LayoutOk(l) && |k.ram| == l.size && k.cur == 0
    ensures var t := Stored(l, Stored(l, k, 0, a), 8, b);
      WordAt(l, t.ram, 0, 0) == a && WordAt(l, t.ram, 0, 1) == b
  {
    hide WordAt, Poke, LeBytes;
    WordStored(l, k.ram, 0, 0, a, 0, 0);
    WordStored(l, Stored(l, k, 0, a).ram, 0, 1, b, 0, 0);
    WordStored(l, Stored(l, k, 0, a).ram, 0, 1, b, 0, 1);
  }

  /** A message to a destination other than 1, with another payload, or from Room 1, is rejected. */
  lemma RunMalformed(l: Layout, k: Kernel, id: nat, code: Program, a: nat, b: nat, n: nat, env: Env)
    requires Good(l, k) && id < ROOM_N && (id == 0 || k.grant == id) && Ample(env, n) && a < 0x1_0000 && b < 0x1_0000
    requires code == [Movz(2, a), Str(2, 0, 0), Movz(2, b), Str(2, 0, 8), Call(1), Call(0)]
    requires id == 1 || a != 1 || b != PAYLOAD
    ensures var r := RunVisit(l, k, VisitOf(id, code, 0, false), n, env);
      && r.Some? && Good(l, r.value)
      && SummaryOf(l, r.value) == SummaryOf(l, k).(
           shown := if id == 0 then ShownOf(l, k.ram) else ShownOf(l, k.ram).(payload := b),
           grant := if id == 0 then k.grant else ROOM_N, rejected := Incr(k.rejected), reason := Svc)
  {
    hide Closed, Opened, Holding, Enter, Exec, Poke, ShownOf, Assemble, Seal, WordAt, Stored, Pulse, Incr;
    EnterOpens(l, k, id, code);
    var e := Enter(l, k, EntryOf(id, code)).value;
    MalformedBody(l, e, code, a, b, StartRegs(l, id, 0, env.regs(n)), env.slice(n), TIMER_PPI, env.junk(n));
    var k1 := Stored(l, e, 0, a);
    var k2 := Stored(l, k1, 8, b);
    StoredShown(l, e, 0, a);
    StoredShown(l, k1, 1, b);
    if id == 0 { TwoWords(l, e, a, b); }
    PulseSummary(l, k2);
    SealCloses(l, Pulse(l, k2, Data(l, id)), Svc);
  }

  lemma RunSend(l: Layout, k: Kernel, n: nat, env: Env)
    requires Good(l, k) && Ample(env, n)
    ensures var r := RunVisit(l, k, VisitOf(0, SEND, 0, false), n, env);
      && r.Some? && Good(l, r.value)
      && SummaryOf(l, r.value) == SummaryOf(l, k).(shown := ShownOf(l, k.ram).(payload := PAYLOAD), grant := 1,
                                             delivered := Incr(k.delivered), reason := Svc)
  {
    hide Closed, Opened, Holding, Enter, Exec, Poke, ShownOf, Assemble, Seal, WordAt, Pulse, Incr, Filled;
    EnterOpens(l, k, 0, SEND);
    var e := Enter(l, k, EntryOf(0, SEND)).value;
    SendBody(l, e, StartRegs(l, 0, 0, env.regs(n)), env.slice(n), TIMER_PPI, env.junk(n));
    FilledSummary(l, e);
    PulseSummary(l, Filled(l, e));
    SealCloses(l, Pulse(l, Filled(l, e), Data(l, 0)), Svc);
  }

  lemma FilledSummary(l: Layout, k: Kernel)
    requires LayoutOk(l) && |k.ram| == l.size && k.cur == 0
    ensures SummaryOf(l, Filled(l, k)) == SummaryOf(l, k) && Filled(l, k) == k.(ram := Filled(l, k).ram)
    ensures WordAt(l, Filled(l, k).ram, 0, 0) == 1 && WordAt(l, Filled(l, k).ram, 0, 1) == PAYLOAD
  {
    hide ShownOf, WordAt, Poke, LeBytes;
    var k1 := Stored(l, k, 0, 1);
    var k2 := Stored(l, k1, 8, 0x5055);
    var k3 := Stored(l, k2, 16, 0x1111);
    StoredShown(l, k, 0, 1);
    StoredShown(l, k1, 1, 0x5055);
    StoredShown(l, k2, 2, 0x1111);
    StoredShown(l, k3, 3, 0x1111);
    TwoWords(l, k, 1, 0x5055);
    WordStored(l, k2.ram, 0, 2, 0x1111, 0, 0);
    WordStored(l, k2.ram, 0, 2, 0x1111, 0, 1);
    WordStored(l, k3.ram, 0, 3, 0x1111, 0, 0);
    WordStored(l, k3.ram, 0, 3, 0x1111, 0, 1);
  }

  /** A pulse with a pointer outside the data page is rejected. */
  lemma RunBad(l: Layout, k: Kernel, x1: u64, n: nat, env: Env)
    requires Good(l, k) && !(Data(l, 0) <= x1 < Data(l, 0) + 0x1000) && Ample(env, n)
    ensures var r := RunVisit(l, k, VisitOf(0, BAD, x1, false), n, env);
      && r.Some? && Good(l, r.value)
      && SummaryOf(l, r.value) == SummaryOf(l, k).(rejected := Incr(k.rejected), reason := Svc)
  {
    hide Closed, Opened, Holding, Enter, Exec, Poke, ShownOf, Assemble, Seal, Incr;
    EnterOpens(l, k, 0, BAD);
    var e := Enter(l, k, EntryOf(0, BAD)).value;
    BadBody(l, e, StartRegs(l, 0, x1, env.regs(n)), env.slice(n), TIMER_PPI, env.junk(n));
    assert Pulse(l, e, x1) == e.(rejected := Incr(e.rejected));
    SealCloses(l, Pulse(l, e, x1), Svc);
  }

  /** Room 1 copies its payload word to the next word. */
  lemma RunRecv(l: Layout, k: Kernel, n: nat, env: Env)
    requires Good(l, k) && k.grant == 1 && ShownOf(l, k.ram).payload < TWO64 && Ample(env, n)
    ensures var r := RunVisit(l, k, VisitOf(1, RECV, 0, false), n, env);
      && r.Some? && Good(l, r.value)
      && SummaryOf(l, r.value) == SummaryOf(l, k).(shown := ShownOf(l, k.ram).(copied := ShownOf(l, k.ram).payload),
                                             grant := ROOM_N, reason := Svc)
  {
    hide Closed, Opened, Holding, Enter, Exec, Poke, Assemble, Seal, Load64, Stored;
    EnterOpens(l, k, 1, RECV);
    var e := Enter(l, k, EntryOf(1, RECV)).value;
    RecvBody(l, e, StartRegs(l, 1, 0, env.regs(n)), env.slice(n), TIMER_PPI, env.junk(n));
    var v := Loaded(l, e.ram, Data(l, 1) + 8);
    assert v == ShownOf(l, k.ram).payload;
    StoredShown(l, e, 2, v);
    SealCloses(l, Stored(l, e, 16, v), Svc);
  }

  function MachineWords(code: Program): seq<u32> {
    seq(|code|, i requires 0 <= i < |code| => Encode(code[i]))
  }

  /** The bodies as machine words. */
  lemma BodyWords()
    ensures MachineWords(FAULT) == [0xF940_0022, 0xD400_0001] && MachineWords(STORE) == [0xF900_003F, 0xD400_0001]
    ensures MachineWords(EXEC) == [0xD61F_0020] && MachineWords(SPIN) == [0x1400_0000]
    ensures MachineWords(STEAL) == [0xD51B_E21F, 0xD400_0001]
    ensures MachineWords(SEND) == [0xD280_0022, 0xF900_0002, 0xD28A_0AA2, 0xF900_0402, 0xD282_2222, 0xF900_0802,
                                   0xF900_0C02, 0xD400_0021, 0xD400_0001]
    ensures MachineWords(MAL) == [0xD280_0042, 0xF900_0002, 0xD28A_0AA2, 0xF900_0402, 0xD400_0021, 0xD400_0001]
    ensures MachineWords(PAY) == [0xD280_0022, 0xF900_0002, 0xD280_0022, 0xF900_0402, 0xD400_0021, 0xD400_0001]
    ensures MachineWords(REPLY) == [0xD280_0002, 0xF900_0002, 0xD28A_0AA2, 0xF900_0402, 0xD400_0021, 0xD400_0001]
    ensures MachineWords(BAD) == [0xAA01_03E0, 0xD400_0021, 0xD400_0001]
    ensures MachineWords(RECV) == [0xF940_0402, 0xF900_0802, 0xD400_0001]
  {
    assert Encode(Call(0)) == 0xD400_0001 && Encode(Call(1)) == 0xD400_0021;
    assert Encode(Str(2, 0, 0)) == 0xF900_0002 && Encode(Str(2, 0, 8)) == 0xF900_0402;
    assert Encode(Str(2, 0, 16)) == 0xF900_0802 && Encode(Str(2, 0, 24)) == 0xF900_0C02;
    assert Encode(Movz(2, 0x5055)) == 0xD28A_0AA2 && Encode(Movz(2, 0x1111)) == 0xD282_2222;
  }
}
