/** CPU bring-up from S9 to the freeze (foundation/cpu/cpu.c, foundation/cpu/smp.c,
    foundation/signal/signal.c, foundation/observe/freeze.c) as interleaved atomic steps of one
    boot CPU and any number of secondaries. */
module Smp {
  import opened Words

  // ---- State -------------------------------------------------------------------------

  /** nxu_cpu[i].state */
  datatype CpuState = PRESENT | INITIALIZED | AVAILABLE | STARTING | ONLINE

  /** nxu_cpu[i].ctx.life */
  datatype Life = INERT | ARMED | RUNNING | WAITING

  /** Where a secondary stands in nxu_secondary. */
  datatype SecPc =
    | Off        // not started
    | Enter      // about to check its exception level
    | SetLife    // about to write ctx.life
    | SetState   // about to write state
    | Unmask     // about to unmask interrupts
    | Loop       // about to execute wfi
    | Sleep      // in wfi
    | Look       // woken: about to read nxu_ipi_echo
    | Clear      // has seen its own id: about to clear nxu_ipi_echo
    | Reply      // about to send the SGI to the boot CPU
    | Stuck      // wrong exception level: halted

  /** `sent` counts the SGIs that were made pending here, over the whole run. */
  datatype Cpu = Cpu(state: CpuState, life: Life, el: nat, ttbr: u64, pc: SecPc, released: bool,
                     unmasked: bool, pending: bool, inIrq: bool, seen: u32, sent: nat)

  /** An SGI of S13: the first round, or the one behind a request. */
  datatype Goal = Ping(i: nat) | Request(e: nat, second: bool, back: u32)

  /** Where the boot CPU stands. */
  datatype BootPc =
    | Bind(i: nat) | Avail(i: nat)                       // S9
    | Gic                                                // S10
    | TimerArm | TimerWait                               // S11
    | Self | Start(i: nat) | Release(i: nat) | Await(i: nat)  // S12
    | IpiInit                                            // S13
    | Read(g: Goal) | Send(g: Goal, before: u32) | Seen(g: Goal, before: u32)
    | EchoRead(e: nat, second: bool) | EchoWrite(e: nat, second: bool, back: u32)
    | EchoWait(e: nat, second: bool, back: u32)
    | Freeze | Check(i: nat) | Done                      // S14
    | FreezeFailed

  datatype Signal = Signal(enabled: bool, tcb: bool)

  /** What no step changes: the cluster (Aff2) of each CPU, the control level, the table base,
      and what S4 and S6 left behind. */
  datatype Config = Config(clusters: seq<nat>, controlEl: nat, ttbr: u64, armed: bool, freq: u64)

  /** The last three fields are history: who was asked, who cleared a request, who answered. */
  datatype State = State(cpus: seq<Cpu>, pc: BootPc, halted: bool, frozen: bool, timer: Signal, ipi: Signal,
                         unbound: bool, echo: nat,
                         requests: seq<nat>, cleared: seq<nat>, replied: seq<nat>)

  /** One atomic step. `fine` is what the hardware answers where the boot CPU depends on it; a
      step that is not enabled changes nothing. */
  datatype Act =
    | Boot(fine: bool)
    | Arrive(i: nat)
    | Sec(i: nat, el: nat)
    | Ack(i: nat)
    | Count(i: nat)
    | Wake(i: nat)   // wfi ends for no reason, which the architecture permits

  // ---- The boot CPU ------------------------------------------------------------------

  /** The first CPU from `i` on in another cluster than the boot CPU; 0 when there is none. */
  function CrossFrom(clusters: seq<nat>, i: nat): (r: nat)
    requires 0 < |clusters|
    ensures r == 0 || (i <= r < |clusters| && clusters[r] != clusters[0])
    ensures forall j :: i <= j < (if r == 0 then |clusters| else r) ==> clusters[j] == clusters[0]
    decreases |clusters| - i
  {
    if i >= |clusters| then 0
    else if clusters[i] != clusters[0] then i
    else CrossFrom(clusters, i + 1)
  }

  function Cross(k: Config): (r: nat)
    requires 0 < |k.clusters|
    ensures r == 0 || (0 < r < |k.clusters| && k.clusters[r] != k.clusters[0])
    ensures forall j :: 1 <= j < (if r == 0 then |k.clusters| else r) ==> k.clusters[j] == k.clusters[0]
  {
    CrossFrom(k.clusters, 1)
  }

  function HasSecond(k: Config): bool
    requires 0 < |k.clusters|
  {
    Cross(k) > 1
  }

  function Dst(g: Goal): nat {
    match g case Ping(i) => i case Request(e, _, _) => e
  }

  function Inc(n: u32): u32 {
    if n == 0xffff_ffff then 0 else n + 1
  }

  function AfterGoal(k: Config, g: Goal): BootPc
    requires 0 < |k.clusters|
  {
    match g
    case Ping(i) =>
      if i + 1 < |k.clusters| then Read(Ping(i + 1))
      else if |k.clusters| > 1 then EchoRead(1, false)
      else Freeze
    case Request(e, second, back) => EchoWait(e, second, back)
  }

  /** The checks that nxu_s14_freeze makes before its loop. */
  predicate FreezeOk(k: Config, s: State) {
    && k.armed && s.frozen && |s.cpus| != 0 && k.freq != 0
    && (s.timer.enabled ==> s.timer.tcb) && (s.ipi.enabled ==> s.ipi.tcb)
  }

  /** The checks of one round of its loop. */
  predicate CheckOk(k: Config, c: Cpu) {
    && c.state == ONLINE && (c.life == RUNNING || c.life == WAITING)
    && c.el == k.controlEl && c.ttbr == k.ttbr
  }

  function Pend(c: Cpu): Cpu {
    c.(pending := true, sent := c.sent + 1)
  }

  /** The state names CPUs that exist, as far as the next step uses them. */
  predicate Sound(k: Config, s: State) {
    && |s.cpus| == |k.clusters| && 0 < |s.cpus|
    && match s.pc
       case Bind(i) => i < |s.cpus|
       case Avail(i) => i < |s.cpus|
       case Start(i) => i < |s.cpus|
       case Release(i) => i < |s.cpus|
       case Await(i) => i < |s.cpus|
       case Read(g) => Dst(g) < |s.cpus|
       case Send(g, _) => Dst(g) < |s.cpus|
       case Seen(g, _) => Dst(g) < |s.cpus|
       case _ => true
  }

  /** What a step of the boot CPU never touches: where the secondaries stand, interrupts being
      handled, the answers to requests, and nxu_ipi_echo outside EchoWrite. */
  predicate Framed(s: State, t: State) {
    && |t.cpus| == |s.cpus| && t.cleared == s.cleared && t.replied == s.replied
    && (s.pc.EchoWrite? || t.echo == s.echo)
    && forall i {:trigger t.cpus[i]} :: 0 <= i < |s.cpus| ==>
         && t.cpus[i].pc == s.cpus[i].pc && t.cpus[i].inIrq == s.cpus[i].inIrq
         && (s.cpus[i].released ==> t.cpus[i].released)
  }

  /** nxu_s9_init, nxu_s10_gic and nxu_s11_time */
  function EarlyStep(k: Config, s: State, fine: bool): (t: State)
    requires Sound(k, s)
    ensures Framed(s, t)
  {
    var n := |s.cpus|;
    match s.pc
    case Bind(i) =>
      var c := s.cpus[i].(life := if i == 0 then RUNNING else ARMED, el := k.controlEl, ttbr := k.ttbr,
                          seen := 0, state := INITIALIZED);
      s.(cpus := s.cpus[i := c], pc := Avail(i))
    case Avail(i) =>
      s.(cpus := s.cpus[i := s.cpus[i].(state := AVAILABLE)], pc := if i + 1 < n then Bind(i + 1) else Gic)
    case Gic => if fine then s.(frozen := true, pc := TimerArm) else s.(halted := true)
    case TimerArm => s.(timer := Signal(true, true), pc := TimerWait)
    case TimerWait => if fine then s.(pc := Self) else s.(halted := true)
    case _ => s
  }

  /** nxu_s12_smp */
  function SmpStep(k: Config, s: State, fine: bool): (t: State)
    requires Sound(k, s)
    ensures Framed(s, t)
  {
    var n := |s.cpus|;
    match s.pc
    case Self =>
      if !fine then s.(halted := true)
      else s.(cpus := s.cpus[0 := s.cpus[0].(state := ONLINE)], pc := if n > 1 then Start(1) else IpiInit)
    case Start(i) => s.(cpus := s.cpus[i := s.cpus[i].(state := STARTING)], pc := Release(i))
    case Release(i) =>
      if fine then s.(cpus := s.cpus[i := s.cpus[i].(released := true)], pc := Await(i))
      else s.(halted := true)
    case Await(i) =>
      if s.cpus[i].state == ONLINE then s.(pc := if i + 1 < n then Start(i + 1) else IpiInit)
      else if fine then s
      else s.(halted := true)
    case _ => s
  }

  /** ipi_to: it ends once the counter of the CPU it addresses has moved. */
  function GoalStep(k: Config, s: State, fine: bool): (t: State)
    requires Sound(k, s)
    ensures Framed(s, t)
  {
    match s.pc
    case Read(g) => s.(pc := Send(g, s.cpus[Dst(g)].seen))
    case Send(g, before) => s.(cpus := s.cpus[Dst(g) := Pend(s.cpus[Dst(g)])], pc := Seen(g, before))
    case Seen(g, before) =>
      if s.cpus[Dst(g)].seen != before then s.(pc := AfterGoal(k, g))
      else if fine then s
      else s.(halted := true)
    case _ => s
  }

  /** nxu_s13_ipi around its calls of ipi_to */
  function IpiStep(k: Config, s: State, fine: bool): (t: State)
    requires Sound(k, s)
    ensures Framed(s, t)
  {
    match s.pc
    case IpiInit =>
      s.(ipi := Signal(true, true), cpus := s.cpus[0 := s.cpus[0].(unmasked := true, seen := 0)], pc := Read(Ping(0)))
    case EchoRead(e, second) => s.(pc := EchoWrite(e, second, s.cpus[0].seen))
    case EchoWrite(e, second, back) =>
      if e < |s.cpus| then s.(echo := e, requests := s.requests + [e], pc := Read(Request(e, second, back))) else s
    case EchoWait(e, second, back) =>
      if s.cpus[0].seen != back then s.(pc := if !second && HasSecond(k) then EchoRead(Cross(k), true) else Freeze)
      else if fine then s
      else s.(halted := true)
    case _ => s
  }

  /** nxu_s14_freeze */
  function FreezeStep(k: Config, s: State): (t: State)
    requires Sound(k, s)
    ensures Framed(s, t)
  {
    match s.pc
    case Freeze => s.(pc := if FreezeOk(k, s) then Check(0) else FreezeFailed)
    case Check(i) =>
      if i < |s.cpus| then s.(pc := if CheckOk(k, s.cpus[i]) then Check(i + 1) else FreezeFailed)
      else s.(cpus := s.cpus[0 := s.cpus[0].(life := WAITING)], pc := Done)
    case _ => s
  }

  function BootStep(k: Config, s: State, fine: bool): (t: State)
    requires Sound(k, s)
    ensures Framed(s, t)
  {
    var pc := s.pc;
    if pc.Bind? || pc.Avail? || pc.Gic? || pc.TimerArm? || pc.TimerWait? then EarlyStep(k, s, fine)
    else if pc.Self? || pc.Start? || pc.Release? || pc.Await? then SmpStep(k, s, fine)
    else if pc.Read? || pc.Send? || pc.Seen? then GoalStep(k, s, fine)
    else if pc.IpiInit? || pc.EchoRead? || pc.EchoWrite? || pc.EchoWait? then IpiStep(k, s, fine)
    else FreezeStep(k, s)
  }

  // ---- The secondaries and the interrupts --------------------------------------------

  /** What the next step of a secondary does to its own record. */
  function SecOwn(echo: nat, i: nat, el: nat, c: Cpu): Cpu {
    match c.pc
    case Enter => c.(pc := if el == 1 then SetLife else Stuck)
    case SetLife => c.(life := WAITING, pc := SetState)
    case SetState => c.(state := ONLINE, pc := Unmask)
    case Unmask => c.(unmasked := true, pc := Loop)
    case Loop => c.(pc := Sleep)
    case Sleep => if c.pending then c.(pc := Look) else c
    case Look => c.(pc := if echo == i && c.seen != 0 then Clear else Loop)
    case Clear => c.(pc := Reply)
    case Reply => c.(pc := Loop)
    case _ => c
  }

  /** nxu_secondary, one step: it clears nxu_ipi_echo, and then sends an SGI to the boot CPU. */
  function SecStep(s: State, i: nat, el: nat): State
    requires 0 < i < |s.cpus|
  {
    var pc := s.cpus[i].pc;
    var t := s.(cpus := s.cpus[i := SecOwn(s.echo, i, el, s.cpus[i])]);
    if pc.Clear? then t.(echo := 0, cleared := s.cleared + [i])
    else if pc.Reply? then t.(replied := s.replied + [i], cpus := t.cpus[0 := Pend(s.cpus[0])])
    else t
  }

  /** An SGI is taken: its handler begins, and returns behind the wfi if the CPU slept in one. */
  function Taken(c: Cpu): Cpu {
    c.(pending := false, inIrq := true, pc := if c.pc.Sleep? then Look else c.pc)
  }

  function Step(k: Config, s: State, a: Act): State
    requires Sound(k, s)
  {
    match a
    case Boot(fine) => if s.halted || s.cpus[0].inIrq then s else BootStep(k, s, fine)
    case Arrive(i) =>
      if 0 < i < |s.cpus| && s.cpus[i].released && s.cpus[i].pc == Off
      then s.(cpus := s.cpus[i := s.cpus[i].(pc := Enter)]) else s
    case Sec(i, el) => if 0 < i < |s.cpus| && !s.cpus[i].inIrq then SecStep(s, i, el) else s
    case Ack(i) =>
      if i < |s.cpus| && s.cpus[i].unmasked && s.cpus[i].pending && !s.cpus[i].inIrq
      then s.(cpus := s.cpus[i := Taken(s.cpus[i])]) else s
    case Count(i) =>
      if i < |s.cpus| && s.cpus[i].inIrq
      then if s.ipi.enabled
           then s.(cpus := s.cpus[i := s.cpus[i].(seen := Inc(s.cpus[i].seen), inIrq := false)])
           else s.(unbound := true)
      else s
    case Wake(i) =>
      if 0 < i < |s.cpus| && s.cpus[i].pc.Sleep? then s.(cpus := s.cpus[i := s.cpus[i].(pc := Look)]) else s
  }

  /** What S8 hands over: every CPU PRESENT, nothing started, nothing pending. */
  predicate Initial(k: Config, s: State) {
    && |s.cpus| == |k.clusters| && 0 < |s.cpus| && k.armed && k.freq != 0
    && s.pc == Bind(0) && !s.halted && !s.frozen && !s.unbound && s.echo == 0
    && s.timer == s.ipi == Signal(false, false)
    && s.requests == s.cleared == s.replied == []
    && forall i :: 0 <= i < |s.cpus| ==>
         var c := s.cpus[i];
         && c.state == PRESENT && c.pc == Off && !c.released && !c.unmasked && !c.pending && !c.inIrq
         && c.seen == 0 && c.sent == 0
  }

  // ---- What the boot CPU's position says about everything else -----------------------

  /** Whether a secondary has reported ONLINE. */
  predicate Up(pc: SecPc) {
    pc.Unmask? || pc.Loop? || pc.Sleep? || pc.Look? || pc.Clear? || pc.Reply?
  }

  /** S13 has begun. */
  predicate Late(pc: BootPc) {
    pc.Read? || pc.Send? || pc.Seen? || pc.EchoRead? || pc.EchoWrite? || pc.EchoWait?
    || pc.Freeze? || pc.Check? || pc.Done?
  }

  /** The boot CPU has seen CPU `i` ONLINE. */
  predicate Joined(pc: BootPc, i: nat) {
    match pc
    case Start(j) => i < j
    case Release(j) => i < j
    case Await(j) => i < j
    case IpiInit => true
    case _ => Late(pc)
  }

  predicate HasReleased(pc: BootPc, i: nat) {
    Joined(pc, i) || pc == Await(i)
  }

  predicate Bound(pc: BootPc, i: nat) {
    match pc case Bind(j) => i < j case Avail(j) => i <= j case _ => true
  }

  function StateOf(pc: BootPc, i: nat, sec: SecPc): CpuState {
    match pc
    case Bind(j) => if i < j then AVAILABLE else PRESENT
    case Avail(j) => if i < j then AVAILABLE else if i == j then INITIALIZED else PRESENT
    case Start(j) => if i < j then ONLINE else AVAILABLE
    case Release(j) => if i < j then ONLINE else if i == j then STARTING else AVAILABLE
    case Await(j) => if i < j then ONLINE else if i > j then AVAILABLE else if Up(sec) then ONLINE else STARTING
    case IpiInit => ONLINE
    case _ => if Late(pc) then ONLINE else AVAILABLE
  }

  predicate LifeOk(pc: BootPc, i: nat, c: Cpu) {
    if !Bound(pc, i) then true
    else if i == 0 then c.life == if pc.Done? then WAITING else RUNNING
    else c.life == if Up(c.pc) || c.pc.SetState? then WAITING else ARMED
  }

  /** The requests that the boot CPU has written. */
  function RequestsOf(k: Config, pc: BootPc): seq<nat>
    requires 0 < |k.clusters|
  {
    match pc
    case EchoRead(e, second) => if second then [1] else []
    case EchoWrite(e, second, _) => if second then [1] else []
    case EchoWait(e, second, _) => if second then [1, e] else [e]
    case Read(g) => GoalRequests(g)
    case Send(g, _) => GoalRequests(g)
    case Seen(g, _) => GoalRequests(g)
    case _ =>
      if !Late(pc) || |k.clusters| == 1 then [] else if HasSecond(k) then [1, Cross(k)] else [1]
  }

  function GoalRequests(g: Goal): seq<nat> {
    match g
    case Ping(_) => []
    case Request(e, second, _) => if second then [1, e] else [e]
  }

  /** A request is out, and the boot CPU has not yet seen its answer. */
  predicate InWindow(pc: BootPc) {
    match pc
    case Read(g) => g.Request?
    case Send(g, _) => g.Request?
    case Seen(g, _) => g.Request?
    case EchoWait(_, _, _) => true
    case _ => false
  }

  /** The SGIs that the boot CPU has sent to CPU `i`. */
  function SentOf(k: Config, pc: BootPc, i: nat): nat
    requires 0 < |k.clusters|
  {
    match pc
    case Read(Ping(j)) => if i < j then 1 else 0
    case Send(Ping(j), _) => if i < j then 1 else 0
    case Seen(Ping(j), _) => if i <= j then 1 else 0
    case Read(Request(e, second, _)) => if second && i == 1 then 2 else 1
    case Send(Request(e, second, _), _) => if second && i == 1 then 2 else 1
    case Seen(Request(e, _, _), _) => if i in RequestsOf(k, pc) then 2 else 1
    case _ => if !Late(pc) then 0 else if i in RequestsOf(k, pc) then 2 else 1
  }

  /** The constants that the boot CPU's position carries. */
  predicate GoalOk(k: Config, g: Goal)
    requires 0 < |k.clusters|
  {
    match g
    case Ping(i) => i < |k.clusters|
    case Request(e, second, back) => RequestOk(k, e, second) && back == if second then 2 else 1
  }

  predicate RequestOk(k: Config, e: nat, second: bool)
    requires 0 < |k.clusters|
  {
    1 <= e < |k.clusters| && if second then HasSecond(k) && e == Cross(k) else e == 1
  }

  predicate PcOk(k: Config, pc: BootPc)
    requires 0 < |k.clusters|
  {
    match pc
    case Bind(i) => i < |k.clusters|
    case Avail(i) => i < |k.clusters|
    case Start(i) => 0 < i < |k.clusters|
    case Release(i) => 0 < i < |k.clusters|
    case Await(i) => 0 < i < |k.clusters|
    case Read(g) => GoalOk(k, g)
    case Send(g, before) => GoalOk(k, g) && before == if g.Ping? then 0 else 1
    case Seen(g, before) => GoalOk(k, g) && before == if g.Ping? then 0 else 1
    case EchoRead(e, second) => RequestOk(k, e, second)
    case EchoWrite(e, second, back) => RequestOk(k, e, second) && back == if second then 2 else 1
    case EchoWait(e, second, back) => RequestOk(k, e, second) && back == if second then 2 else 1
    case FreezeFailed => false
    case _ => true
  }

  // ---- The invariant -----------------------------------------------------------------

  function Bit(b: bool): nat { if b then 1 else 0 }

  /** Nothing is on its way to this CPU. */
  predicate Quiet(c: Cpu) { !c.pending && !c.inIrq }

  /** All there is to say of one secondary, given where the boot CPU stands. */
  predicate SecOk(k: Config, pc: BootPc, i: nat, c: Cpu)
    requires 0 < |k.clusters|
  {
    && c.state == StateOf(pc, i, c.pc) && LifeOk(pc, i, c)
    && (Bound(pc, i) ==> c.el == k.controlEl && c.ttbr == k.ttbr)
    && (c.released <==> HasReleased(pc, i)) && (!c.pc.Off? ==> c.released)
    && (Joined(pc, i) ==> Up(c.pc)) && (c.unmasked <==> Up(c.pc) && !c.pc.Unmask?)
    && SgiOk(k, pc, i, c)
  }

  /** Every SGI sent to it was counted, but for one that may be on its way while it is awaited. */
  predicate SgiOk(k: Config, pc: BootPc, i: nat, c: Cpu)
    requires 0 < |k.clusters|
  {
    && !(c.pending && c.inIrq)
    && c.sent == c.seen + Bit(c.pending) + Bit(c.inIrq) && c.sent == SentOf(k, pc, i)
    && ((pc.Seen? && Dst(pc.g) == i) || Quiet(c))
    && (!c.unmasked ==> c.seen == 0 && !c.inIrq)
  }

  /** Whether the boot CPU has sent the SGI to itself with which S13 begins. */
  function PingedSelf(pc: BootPc): nat {
    if pc.Read? && pc.g == Ping(0) then 0
    else if pc.Send? && pc.g == Ping(0) then 0
    else Bit(Late(pc))
  }

  /** The same of the boot CPU's own record. */
  predicate BootOk(k: Config, s: State)
    requires 0 < |k.clusters| && 0 < |s.cpus|
  {
    var c, pc := s.cpus[0], s.pc;
    && c.pc.Off? && c.state == StateOf(pc, 0, c.pc) && LifeOk(pc, 0, c)
    && (Bound(pc, 0) ==> c.el == k.controlEl && c.ttbr == k.ttbr)
    && !(c.pending && c.inIrq)
    && c.sent == c.seen + Bit(c.pending) + Bit(c.inIrq)
    && c.sent == |s.replied| + PingedSelf(pc) && (Late(pc) ==> c.unmasked)
    && ((pc.Seen? && pc.g == Ping(0)) || (InWindow(pc) && |s.replied| == |s.requests|) || Quiet(c))
  }

  predicate SignalsOk(k: Config, s: State) {
    && k.armed && k.freq != 0 && !s.unbound
    && (s.frozen <==> !(s.pc.Bind? || s.pc.Avail? || s.pc.Gic?))
    && (s.timer.enabled ==> s.timer.tcb) && (s.ipi.enabled ==> s.ipi.tcb)
    && (s.ipi.enabled <==> Late(s.pc))
  }

  /** A request that is out and not yet cleared is the last one, and answers follow requests in
      order, one each. */
  predicate EchoOk(k: Config, s: State)
    requires 0 < |k.clusters|
  {
    && s.requests == RequestsOf(k, s.pc)
    && (if s.echo == 0 then s.cleared == s.requests
        else InWindow(s.pc) && s.requests == s.cleared + [s.echo])
    && ((InWindow(s.pc) && s.echo == 0) || s.replied == s.cleared) && OneBehind(s.replied, s.cleared)
  }

  predicate OneBehind(replied: seq<nat>, cleared: seq<nat>) {
    replied == cleared || (cleared != [] && replied == cleared[..|cleared| - 1])
  }

  /** A CPU about to clear, or to answer, is the one that the request names. */
  predicate HandlerOk(s: State, i: nat, pc: SecPc) {
    && (pc.Clear? ==> s.echo == i)
    && (pc.Reply? ==> s.echo == 0 && s.cleared == s.replied + [i])
  }

  /** An answer that is due is being sent by the CPU that cleared the request. */
  predicate ReplyDue(s: State) {
    s.replied == s.cleared
    || (s.cleared != [] && var e := s.cleared[|s.cleared| - 1]; 0 < e < |s.cpus| && s.cpus[e].pc.Reply?)
  }

  predicate Inv(k: Config, s: State) {
    && |s.cpus| == |k.clusters| && 0 < |s.cpus| && PcOk(k, s.pc)
    && SignalsOk(k, s) && BootOk(k, s) && EchoOk(k, s) && ReplyDue(s)
    && forall i {:trigger s.cpus[i]} :: 0 < i < |s.cpus| ==>
         SecOk(k, s.pc, i, s.cpus[i]) && HandlerOk(s, i, s.cpus[i].pc)
  }

  lemma InvSound(k: Config, s: State)
    requires Inv(k, s)
    ensures Sound(k, s)
  {
  }

  lemma InitialInv(k: Config, s: State)
    requires Initial(k, s)
    ensures Inv(k, s)
  {
  }

  // ---- Every step keeps it -----------------------------------------------------------

  /** The part of the invariant that does not range over the secondaries. */
  predicate Core(k: Config, s: State) {
    && |s.cpus| == |k.clusters| && 0 < |s.cpus| && PcOk(k, s.pc) && SignalsOk(k, s) && BootOk(k, s)
  }

  lemma EarlySec(k: Config, s: State, fine: bool, i: nat)
    requires Core(k, s) && Sound(k, s) && 0 < i < |s.cpus| && SecOk(k, s.pc, i, s.cpus[i])
    requires s.pc.Bind? || s.pc.Avail? || s.pc.Gic? || s.pc.TimerArm? || s.pc.TimerWait?
    ensures var s' := EarlyStep(k, s, fine); |s'.cpus| == |s.cpus| && SecOk(k, s'.pc, i, s'.cpus[i])
  {
    hide SignalsOk, BootOk;
  }

  lemma EarlyCore(k: Config, s: State, fine: bool)
    requires Core(k, s) && Sound(k, s) && EchoOk(k, s)
    requires s.pc.Bind? || s.pc.Avail? || s.pc.Gic? || s.pc.TimerArm? || s.pc.TimerWait?
    ensures Core(k, EarlyStep(k, s, fine))
  {
  }

  lemma SmpSec(k: Config, s: State, fine: bool, i: nat)
    requires Core(k, s) && Sound(k, s) && 0 < i < |s.cpus| && SecOk(k, s.pc, i, s.cpus[i])
    requires s.pc.Self? || s.pc.Start? || s.pc.Release? || s.pc.Await?
    ensures var s' := SmpStep(k, s, fine); |s'.cpus| == |s.cpus| && SecOk(k, s'.pc, i, s'.cpus[i])
  {
    hide SignalsOk, BootOk;
  }

  lemma SmpCore(k: Config, s: State, fine: bool)
    requires Core(k, s) && Sound(k, s)
    requires s.pc.Self? || s.pc.Start? || s.pc.Release? || s.pc.Await?
    ensures Core(k, SmpStep(k, s, fine))
  {
  }

  lemma WaitSgi(k: Config, s: State, fine: bool, i: nat)
    requires Core(k, s) && Sound(k, s) && 0 < i < |s.cpus| && SgiOk(k, s.pc, i, s.cpus[i]) && s.pc.Seen?
    ensures var s' := GoalStep(k, s, fine); |s'.cpus| == |s.cpus| && SgiOk(k, s'.pc, i, s'.cpus[i])
  {
    hide SignalsOk, BootOk, LifeOk, StateOf, Joined, HasReleased, Bound;
  }

  lemma GoalSgi(k: Config, s: State, fine: bool, i: nat)
    requires Core(k, s) && Sound(k, s) && 0 < i < |s.cpus| && SgiOk(k, s.pc, i, s.cpus[i])
    requires s.pc.Read? || s.pc.Send? || s.pc.Seen?
    ensures var s' := GoalStep(k, s, fine); |s'.cpus| == |s.cpus| && SgiOk(k, s'.pc, i, s'.cpus[i])
  {
    hide SignalsOk, BootOk, LifeOk, StateOf, Joined, HasReleased, Bound, AfterGoal;
    if s.pc.Seen? { WaitSgi(k, s, fine, i); }
  }

  lemma GoalSec(k: Config, s: State, fine: bool, i: nat)
    requires Core(k, s) && Sound(k, s) && 0 < i < |s.cpus| && SecOk(k, s.pc, i, s.cpus[i])
    requires s.pc.Read? || s.pc.Send? || s.pc.Seen?
    ensures var s' := GoalStep(k, s, fine); |s'.cpus| == |s.cpus| && SecOk(k, s'.pc, i, s'.cpus[i])
  {
    hide SignalsOk, BootOk, SgiOk;
    GoalSgi(k, s, fine, i);
  }

  lemma SendCore(k: Config, s: State, fine: bool)
    requires Core(k, s) && Sound(k, s) && EchoOk(k, s) && (s.pc.Read? || s.pc.Send?)
    requires Dst(s.pc.g) > 0 ==> SecOk(k, s.pc, Dst(s.pc.g), s.cpus[Dst(s.pc.g)])
    ensures Core(k, GoalStep(k, s, fine))
  {
  }

  lemma SeenCore(k: Config, s: State, fine: bool)
    requires Core(k, s) && Sound(k, s) && EchoOk(k, s) && s.pc.Seen?
    requires Dst(s.pc.g) > 0 ==> SecOk(k, s.pc, Dst(s.pc.g), s.cpus[Dst(s.pc.g)])
    ensures Core(k, GoalStep(k, s, fine))
  {
    hide BootOk;
    SeenSelf(k, s, fine);
  }

  lemma SeenSelf(k: Config, s: State, fine: bool)
    requires Core(k, s) && Sound(k, s) && EchoOk(k, s) && s.pc.Seen?
    ensures |GoalStep(k, s, fine).cpus| == |s.cpus| && BootOk(k, GoalStep(k, s, fine))
  {
    hide SignalsOk, SecOk;
  }

  lemma IpiSec(k: Config, s: State, fine: bool, i: nat)
    requires Core(k, s) && Sound(k, s) && 0 < i < |s.cpus| && SecOk(k, s.pc, i, s.cpus[i])
    requires s.pc.IpiInit? || s.pc.EchoRead? || s.pc.EchoWrite? || s.pc.EchoWait?
    ensures var s' := IpiStep(k, s, fine); |s'.cpus| == |s.cpus| && SecOk(k, s'.pc, i, s'.cpus[i])
  {
    hide SignalsOk, BootOk;
  }

  lemma IpiInitSelf(k: Config, s: State, fine: bool)
    requires Core(k, s) && Sound(k, s) && EchoOk(k, s) && s.pc.IpiInit?
    ensures var s' := IpiStep(k, s, fine); |s'.cpus| == |s.cpus| && PcOk(k, s'.pc) && BootOk(k, s')
  {
    hide SignalsOk;
  }

  lemma EchoSelf(k: Config, s: State, fine: bool)
    requires Core(k, s) && Sound(k, s) && EchoOk(k, s) && (s.pc.EchoRead? || s.pc.EchoWrite?)
    ensures var s' := IpiStep(k, s, fine); |s'.cpus| == |s.cpus| && PcOk(k, s'.pc) && BootOk(k, s')
  {
    hide SignalsOk;
  }

  lemma EchoWaitSelf(k: Config, s: State, fine: bool)
    requires Core(k, s) && Sound(k, s) && EchoOk(k, s) && s.pc.EchoWait?
    ensures var s' := IpiStep(k, s, fine); |s'.cpus| == |s.cpus| && PcOk(k, s'.pc) && BootOk(k, s')
  {
    hide SignalsOk;
  }

  lemma IpiSelf(k: Config, s: State, fine: bool)
    requires Core(k, s) && Sound(k, s) && EchoOk(k, s)
    requires s.pc.IpiInit? || s.pc.EchoRead? || s.pc.EchoWrite? || s.pc.EchoWait?
    ensures var s' := IpiStep(k, s, fine); |s'.cpus| == |s.cpus| && PcOk(k, s'.pc) && BootOk(k, s')
  {
    hide Core, Sound, EchoOk, BootOk, PcOk, IpiStep;
    match s.pc
    case IpiInit => IpiInitSelf(k, s, fine);
    case EchoWait(_, _, _) => EchoWaitSelf(k, s, fine);
    case _ => EchoSelf(k, s, fine);
  }

  lemma IpiCore(k: Config, s: State, fine: bool)
    requires Core(k, s) && Sound(k, s) && EchoOk(k, s)
    requires s.pc.IpiInit? || s.pc.EchoRead? || s.pc.EchoWrite? || s.pc.EchoWait?
    ensures Core(k, IpiStep(k, s, fine))
  {
    hide BootOk, PcOk, EchoOk;
    IpiSelf(k, s, fine);
  }

  lemma FreezeSec(k: Config, s: State, i: nat)
    requires Core(k, s) && Sound(k, s) && 0 < i < |s.cpus| && SecOk(k, s.pc, i, s.cpus[i])
    requires PcOk(k, FreezeStep(k, s).pc) && (s.pc.Freeze? || s.pc.Check? || s.pc.Done?)
    ensures var s' := FreezeStep(k, s); |s'.cpus| == |s.cpus| && SecOk(k, s'.pc, i, s'.cpus[i])
  {
    hide SignalsOk, BootOk, SgiOk, FreezeOk, CheckOk;
    FreezeSgi(k, s.pc, FreezeStep(k, s).pc, i, s.cpus[i]);
  }

  lemma FreezeSgi(k: Config, pc: BootPc, pc': BootPc, i: nat, c: Cpu)
    requires 0 < |k.clusters| && SgiOk(k, pc, i, c)
    requires (pc.Freeze? || pc.Check? || pc.Done?) && (pc'.Freeze? || pc'.Check? || pc'.Done?)
    ensures SgiOk(k, pc', i, c)
  {
  }

  /** No check of the freeze fails. */
  lemma FreezeCore(k: Config, s: State)
    requires Core(k, s) && Sound(k, s) && (s.pc.Freeze? || s.pc.Check? || s.pc.Done?)
    requires s.pc.Check? && 0 < s.pc.i < |s.cpus| ==> SecOk(k, s.pc, s.pc.i, s.cpus[s.pc.i])
    ensures Core(k, FreezeStep(k, s))
  {
  }

  lemma EarlyEcho(k: Config, s: State, fine: bool)
    requires Sound(k, s) && EchoOk(k, s) && !Late(s.pc)
    ensures !Late(EarlyStep(k, s, fine).pc) && EchoOk(k, EarlyStep(k, s, fine))
  {
  }

  lemma SmpEcho(k: Config, s: State, fine: bool)
    requires Sound(k, s) && EchoOk(k, s) && !Late(s.pc)
    ensures !Late(SmpStep(k, s, fine).pc) && EchoOk(k, SmpStep(k, s, fine))
  {
  }

  lemma GoalEcho(k: Config, s: State, fine: bool)
    requires Core(k, s) && Sound(k, s) && EchoOk(k, s) && (s.pc.Read? || s.pc.Send? || s.pc.Seen?)
    ensures EchoOk(k, GoalStep(k, s, fine))
  {
    hide SignalsOk, BootOk, OneBehind;
  }

  /** The boot CPU leaves its wait only when the CPU it asked has cleared the request and answered. */
  lemma WaitOver(k: Config, s: State)
    requires Core(k, s) && Sound(k, s) && EchoOk(k, s) && s.pc.EchoWait? && s.cpus[0].seen != s.pc.back
    ensures s.echo == 0 && s.replied == s.cleared == s.requests && s.pc.e in s.requests
  {
    hide SignalsOk;
  }

  lemma IpiEcho(k: Config, s: State, fine: bool)
    requires Core(k, s) && Sound(k, s) && EchoOk(k, s)
    requires s.pc.IpiInit? || s.pc.EchoRead? || s.pc.EchoWrite? || s.pc.EchoWait?
    ensures EchoOk(k, IpiStep(k, s, fine))
  {
    hide SignalsOk, BootOk;
    if s.pc.EchoWait? && s.cpus[0].seen != s.pc.back { WaitOver(k, s); }
  }

  lemma FreezeEcho(k: Config, s: State)
    requires Core(k, s) && Sound(k, s) && EchoOk(k, s) && PcOk(k, FreezeStep(k, s).pc)
    requires s.pc.Freeze? || s.pc.Check? || s.pc.Done?
    ensures EchoOk(k, FreezeStep(k, s))
  {
    hide SignalsOk, BootOk, FreezeOk, CheckOk;
  }

  lemma BootHandler(k: Config, s: State, fine: bool, i: nat)
    requires Sound(k, s) && EchoOk(k, s) && 0 < i < |s.cpus| && HandlerOk(s, i, s.cpus[i].pc)
    ensures var s' := BootStep(k, s, fine);
      |s'.cpus| == |s.cpus| && s'.cpus[i].pc == s.cpus[i].pc && HandlerOk(s', i, s'.cpus[i].pc)
  {
    hide BootStep, RequestsOf;
    assert Framed(s, BootStep(k, s, fine));
  }

  lemma BootCore(k: Config, s: State, fine: bool)
    requires Inv(k, s) && !s.cpus[0].inIrq
    ensures Core(k, BootStep(k, s, fine)) && EchoOk(k, BootStep(k, s, fine))
  {
    hide SignalsOk, BootOk, EchoOk, SecOk, HandlerOk, EarlyStep, SmpStep, GoalStep, IpiStep, FreezeStep;
    InvSound(k, s);
    var pc := s.pc;
    if pc.Bind? || pc.Avail? || pc.Gic? || pc.TimerArm? || pc.TimerWait? {
      EarlyCore(k, s, fine);
      EarlyEcho(k, s, fine);
    } else if pc.Self? || pc.Start? || pc.Release? || pc.Await? {
      SmpCore(k, s, fine);
      SmpEcho(k, s, fine);
    } else if pc.Read? || pc.Send? || pc.Seen? {
      if pc.Seen? { SeenCore(k, s, fine); } else { SendCore(k, s, fine); }
      GoalEcho(k, s, fine);
    } else if pc.IpiInit? || pc.EchoRead? || pc.EchoWrite? || pc.EchoWait? {
      IpiCore(k, s, fine);
      IpiEcho(k, s, fine);
    } else {
      FreezeCore(k, s);
      FreezeEcho(k, s);
    }
  }

  lemma BootSec(k: Config, s: State, fine: bool, i: nat)
    requires Inv(k, s) && !s.cpus[0].inIrq && 0 < i < |s.cpus|
    ensures var s' := BootStep(k, s, fine); |s'.cpus| == |s.cpus| && SecOk(k, s'.pc, i, s'.cpus[i])
  {
    hide SignalsOk, BootOk, EchoOk, SecOk, HandlerOk, EarlyStep, SmpStep, GoalStep, IpiStep, FreezeStep;
    InvSound(k, s);
    BootCore(k, s, fine);
    var pc := s.pc;
    if pc.Bind? || pc.Avail? || pc.Gic? || pc.TimerArm? || pc.TimerWait? { EarlySec(k, s, fine, i); }
    else if pc.Self? || pc.Start? || pc.Release? || pc.Await? { SmpSec(k, s, fine, i); }
    else if pc.Read? || pc.Send? || pc.Seen? { GoalSec(k, s, fine, i); }
    else if pc.IpiInit? || pc.EchoRead? || pc.EchoWrite? || pc.EchoWait? { IpiSec(k, s, fine, i); }
    else { FreezeSec(k, s, i); }
  }

  lemma BootKeeps(k: Config, s: State, fine: bool)
    requires Inv(k, s) && !s.cpus[0].inIrq
    ensures Inv(k, BootStep(k, s, fine))
  {
    hide SignalsOk, BootOk, EchoOk, SecOk, HandlerOk, BootStep, PcOk;
    InvSound(k, s);
    BootCore(k, s, fine);
    var s' := BootStep(k, s, fine);
    forall i {:trigger s'.cpus[i]} | 0 < i < |s'.cpus|
      ensures SecOk(k, s'.pc, i, s'.cpus[i]) && HandlerOk(s', i, s'.cpus[i].pc)
    {
      BootSec(k, s, fine, i);
      BootHandler(k, s, fine, i);
    }
    assert Framed(s, s');
  }

  // ---- Steps of the secondaries, interrupts ------------------------------------------

  /** The step of a secondary, seen from the secondary itself. */
  lemma SecSelf(k: Config, pc: BootPc, echo: nat, i: nat, el: nat, c: Cpu)
    requires 0 < |k.clusters| && 0 < i && SecOk(k, pc, i, c)
    ensures SecOk(k, pc, i, SecOwn(echo, i, el, c))
  {
    hide SentOf;
  }

  /** A CPU that is about to clear has seen its own number. */
  lemma SecHandler(s: State, i: nat, el: nat)
    requires 0 < i < |s.cpus| && HandlerOk(s, i, s.cpus[i].pc)
    requires s.cpus[i].pc.Clear? ==> s.replied == s.cleared
    ensures var s' := SecStep(s, i, el); HandlerOk(s', i, SecOwn(s.echo, i, el, s.cpus[i]).pc)
  {
  }

  /** The same step, seen from another secondary. */
  lemma SecOther(s: State, i: nat, el: nat, j: nat)
    requires 0 < i < |s.cpus| && 0 < j < |s.cpus| && i != j
    requires HandlerOk(s, i, s.cpus[i].pc) && HandlerOk(s, j, s.cpus[j].pc)
    ensures HandlerOk(SecStep(s, i, el), j, s.cpus[j].pc)
  {
    assert (s.replied + [i])[|s.replied|] != (s.replied + [j])[|s.replied|];
  }

  lemma SecEcho(k: Config, s: State, i: nat, el: nat)
    requires 0 < |k.clusters| && 0 < i < |s.cpus| && EchoOk(k, s) && HandlerOk(s, i, s.cpus[i].pc)
    ensures EchoOk(k, SecStep(s, i, el))
  {
    hide RequestsOf, InWindow, SecOwn;
    assert (s.cleared + [i])[..|s.cleared|] == s.cleared;
  }

  /** The answer finds no SGI still on its way to the boot CPU. */
  lemma ReplyFindsQuiet(k: Config, s: State, i: nat)
    requires Core(k, s) && EchoOk(k, s) && 0 < i < |s.cpus| && s.cpus[i].pc.Reply? && HandlerOk(s, i, s.cpus[i].pc)
    ensures Quiet(s.cpus[0]) && |s.replied| + 1 == |s.requests| && InWindow(s.pc)
  {
    hide SignalsOk, StateOf, LifeOk;
  }

  lemma SecCore(k: Config, s: State, i: nat, el: nat)
    requires Core(k, s) && EchoOk(k, s) && 0 < i < |s.cpus| && HandlerOk(s, i, s.cpus[i].pc)
    ensures Core(k, SecStep(s, i, el))
  {
    hide PcOk, EchoOk, StateOf, SecOwn;
    if s.cpus[i].pc.Reply? { ReplyFindsQuiet(k, s, i); }
  }

  lemma SecKeeps(k: Config, s: State, i: nat, el: nat)
    requires Inv(k, s) && 0 < i < |s.cpus|
    ensures Inv(k, SecStep(s, i, el))
  {
    hide SignalsOk, BootOk, SecOk, HandlerOk, SecOwn, PcOk, RequestsOf, InWindow, OneBehind;
    SecCore(k, s, i, el);
    SecEcho(k, s, i, el);
    var s' := SecStep(s, i, el);
    SecSelf(k, s.pc, s.echo, i, el, s.cpus[i]);
    if s.cpus[i].pc.Clear? { ClearNamed(s, i); }
    SecHandler(s, i, el);
    forall j {:trigger s'.cpus[j]} | 0 < j < |s'.cpus|
      ensures SecOk(k, s'.pc, j, s'.cpus[j]) && HandlerOk(s', j, s'.cpus[j].pc)
    {
      if j != i { SecOther(s, i, el, j); }
    }
    SecReply(s, i, el);
  }

  lemma SecReply(s: State, i: nat, el: nat)
    requires 0 < i < |s.cpus| && HandlerOk(s, i, s.cpus[i].pc) && ReplyDue(s)
    ensures ReplyDue(SecStep(s, i, el))
  {
    assert (s.replied + [i])[|s.replied|] == i;
  }

  lemma ClearNamed(s: State, i: nat)
    requires i < |s.cpus| && HandlerOk(s, i, s.cpus[i].pc) && s.cpus[i].pc.Clear?
    ensures s.echo == i
  {
  }

  /** A CPU being started, or taking an interrupt, changes its own record alone. */
  function OwnStep(a: Act, ipi: bool, c: Cpu): Cpu {
    match a
    case Arrive(_) => if c.released && c.pc == Off then c.(pc := Enter) else c
    case Ack(_) => if c.unmasked && c.pending && !c.inIrq then Taken(c) else c
    case Wake(_) => if c.pc.Sleep? then c.(pc := Look) else c
    case Count(_) => if c.inIrq && ipi then c.(seen := Inc(c.seen), inIrq := false) else c
    case _ => c
  }

  lemma OwnSec(k: Config, pc: BootPc, a: Act, ipi: bool, i: nat, c: Cpu)
    requires 0 < |k.clusters| && 0 < i && SecOk(k, pc, i, c)
    ensures var c' := OwnStep(a, ipi, c);
      SecOk(k, pc, i, c') && (c'.pc.Clear? <==> c.pc.Clear?) && (c'.pc.Reply? <==> c.pc.Reply?)
  {
    hide RequestsOf;
  }

  /** Such a step changes the record of the CPU it names, and nothing else but `unbound`. */
  lemma StepOwn(k: Config, s: State, a: Act)
    requires Sound(k, s) && (a.Ack? || a.Count? || a.Arrive? || a.Wake?)
    requires a.Count? && a.i < |s.cpus| && s.cpus[a.i].inIrq ==> s.ipi.enabled
    requires a.Arrive? || a.Wake? ==> 0 < a.i
    ensures var c := if a.i < |s.cpus| then s.cpus[a.i := OwnStep(a, s.ipi.enabled, s.cpus[a.i])] else s.cpus;
      Step(k, s, a) == s.(cpus := c)
  {
    hide BootStep, SecStep;
  }

  lemma IrqCore(k: Config, s: State, a: Act)
    requires Core(k, s) && EchoOk(k, s) && (a.Ack? || a.Count?)
    ensures Core(k, s.(cpus := s.cpus[0 := OwnStep(a, s.ipi.enabled, s.cpus[0])]))
  {
    hide PcOk, StateOf;
  }

  /** No CPU takes an SGI before the signal is bound. */
  lemma IrqBound(k: Config, s: State, i: nat)
    requires Inv(k, s) && i < |s.cpus| && s.cpus[i].inIrq
    ensures s.ipi.enabled
  {
    hide StateOf, LifeOk, SentOf, RequestsOf, PcOk;
  }

  /** Replacing one CPU's record by a sound one keeps the invariant. */
  lemma Replace(k: Config, s: State, i: nat, c: Cpu)
    requires Inv(k, s) && i < |s.cpus|
    requires if i == 0 then Core(k, s.(cpus := s.cpus[0 := c])) else SecOk(k, s.pc, i, c) && HandlerOk(s, i, c.pc)
    requires i > 0 && s.cpus[i].pc.Reply? ==> c.pc.Reply?
    ensures Inv(k, s.(cpus := s.cpus[i := c]))
  {
    hide SecOk, PcOk, StateOf, LifeOk, Late, InWindow, RequestsOf, OneBehind;
  }

  lemma IrqKeeps(k: Config, s: State, a: Act)
    requires Inv(k, s) && (a.Ack? || a.Count? || a.Arrive? || a.Wake?)
    requires a.Arrive? || a.Wake? ==> 0 < a.i
    ensures Inv(k, Step(k, s, a))
  {
    hide SignalsOk, BootOk, EchoOk, SecOk, HandlerOk, PcOk, Step, OwnStep;
    InvSound(k, s);
    if a.Count? && a.i < |s.cpus| && s.cpus[a.i].inIrq { IrqBound(k, s, a.i); }
    StepOwn(k, s, a);
    if a.i < |s.cpus| {
      var c := OwnStep(a, s.ipi.enabled, s.cpus[a.i]);
      if a.i == 0 {
        IrqCore(k, s, a);
      } else {
        OwnSec(k, s.pc, a, s.ipi.enabled, a.i, s.cpus[a.i]);
        SameHandler(s, a.i, s.cpus[a.i].pc, c.pc);
      }
      Replace(k, s, a.i, c);
    }
  }

  lemma SameHandler(s: State, i: nat, was: SecPc, now: SecPc)
    requires HandlerOk(s, i, was) && (now.Clear? <==> was.Clear?) && (now.Reply? <==> was.Reply?)
    ensures HandlerOk(s, i, now)
  {
  }

  /** Every step, of any CPU, keeps the invariant. */
  lemma StepKeeps(k: Config, s: State, a: Act)
    requires Inv(k, s)
    ensures Sound(k, s) && Inv(k, Step(k, s, a))
  {
    hide SignalsOk, BootOk, EchoOk, SecOk, HandlerOk, PcOk, BootStep, SecStep;
    InvSound(k, s);
    match a
    case Boot(fine) => if !s.halted && !s.cpus[0].inIrq { BootKeeps(k, s, fine); }
    case Sec(i, el) => if 0 < i < |s.cpus| && !s.cpus[i].inIrq { SecKeeps(k, s, i, el); }
    case Arrive(i) => if 0 < i { IrqKeeps(k, s, a); }
    case Wake(i) => if 0 < i { IrqKeeps(k, s, a); }
    case Ack(i) => IrqKeeps(k, s, a);
    case Count(i) => IrqKeeps(k, s, a);
  }

  // ---- Whole runs --------------------------------------------------------------------

  function Next(k: Config, s: State, a: Act): State {
    if Sound(k, s) then Step(k, s, a) else s
  }

  /** The state after a schedule: any interleaving of boot, secondaries, arrivals and interrupts. */
  function Run(k: Config, s: State, acts: seq<Act>): State
    decreases |acts|
  {
    if acts == [] then s else Run(k, Next(k, s, acts[0]), acts[1..])
  }

  lemma {:induction false} RunKeeps(k: Config, s: State, acts: seq<Act>)
    requires Inv(k, s)
    ensures Inv(k, Run(k, s, acts))
    decreases |acts|
  {
    hide Inv, Step, Sound;
    if acts != [] {
      StepKeeps(k, s, acts[0]);
      RunKeeps(k, Next(k, s, acts[0]), acts[1..]);
    }
  }

  /** S12 has returned. */
  predicate AfterS12(pc: BootPc) {
    pc.IpiInit? || Late(pc)
  }

  /** In every interleaving: one CPU at most is STARTING, the lower ones being ONLINE and the higher
      ones AVAILABLE; a secondary that is ONLINE is WAITING; after S12 all are ONLINE; no check of the
      freeze fails; and no CPU takes an SGI that is not bound. */
  lemma BringUp(k: Config, s: State, acts: seq<Act>)
    requires Initial(k, s)
    ensures var t := Run(k, s, acts);
      && |t.cpus| == |s.cpus|
      && (forall i, j :: 0 <= i < j < |t.cpus| && t.cpus[j].state == STARTING ==> t.cpus[i].state == ONLINE)
      && (forall i, j :: 0 <= i < j < |t.cpus| && t.cpus[i].state == STARTING ==> t.cpus[j].state == AVAILABLE)
      && (forall i :: 0 < i < |t.cpus| && t.cpus[i].state == ONLINE ==> t.cpus[i].life == WAITING)
      && (AfterS12(t.pc) ==> forall i :: 0 <= i < |t.cpus| ==> t.cpus[i].state == ONLINE)
      && !t.pc.FreezeFailed? && !t.unbound
  {
    hide Inv, Run, Initial;
    InitialInv(k, s);
    RunKeeps(k, s, acts);
    States(k, Run(k, s, acts));
    RunShape(k, s, acts);
  }

  lemma RunShape(k: Config, s: State, acts: seq<Act>)
    requires Inv(k, s) && Inv(k, Run(k, s, acts))
    ensures |Run(k, s, acts).cpus| == |s.cpus|
  {
  }

  lemma States(k: Config, t: State)
    requires Inv(k, t)
    ensures !t.pc.FreezeFailed? && !t.unbound
    ensures forall i, j :: 0 <= i < j < |t.cpus| && t.cpus[j].state == STARTING ==> t.cpus[i].state == ONLINE
    ensures forall i, j :: 0 <= i < j < |t.cpus| && t.cpus[i].state == STARTING ==> t.cpus[j].state == AVAILABLE
    ensures forall i :: 0 < i < |t.cpus| && t.cpus[i].state == ONLINE ==> t.cpus[i].life == WAITING
    ensures AfterS12(t.pc) ==> forall i :: 0 <= i < |t.cpus| ==> t.cpus[i].state == ONLINE
  {
    hide SgiOk, RequestsOf;
  }

  function Rank(c: CpuState): nat {
    match c case PRESENT => 1 case INITIALIZED => 2 case AVAILABLE => 3 case STARTING => 4 case ONLINE => 5
  }

  lemma BootForward(k: Config, s: State, fine: bool, i: nat)
    requires Inv(k, s) && Sound(k, s) && i < |s.cpus|
    ensures var t := BootStep(k, s, fine);
      && Rank(s.cpus[i].state) <= Rank(t.cpus[i].state)
      && (i > 0 ==> Rank(t.cpus[i].state) <= Rank(s.cpus[i].state) + 1)
  {
    hide SecOk, SignalsOk, BootOk, HandlerOk, EchoOk, Rank, EarlyStep, SmpStep, GoalStep, IpiStep, FreezeStep;
    EarlyForward(k, s, fine, i);
    SmpForward(k, s, fine, i);
    LateForward(k, s, fine, i);
  }

  lemma EarlyForward(k: Config, s: State, fine: bool, i: nat)
    requires Inv(k, s) && Sound(k, s) && i < |s.cpus|
    ensures Rank(s.cpus[i].state) <= Rank(EarlyStep(k, s, fine).cpus[i].state) <= Rank(s.cpus[i].state) + 1
  {
    hide SgiOk, SignalsOk, HandlerOk, EchoOk, LifeOk, Framed, ReplyDue;
  }

  /** The CPU that is started next is AVAILABLE. */
  lemma StartsAvailable(k: Config, s: State)
    requires Inv(k, s) && s.pc.Start?
    ensures 0 < s.pc.i < |s.cpus| && s.cpus[s.pc.i].state == AVAILABLE
  {
    hide SgiOk, SignalsOk, HandlerOk, EchoOk, BootOk, LifeOk, ReplyDue, Bound, Joined, HasReleased;
  }

  lemma SmpForward(k: Config, s: State, fine: bool, i: nat)
    requires Inv(k, s) && Sound(k, s) && i < |s.cpus|
    ensures Rank(s.cpus[i].state) <= Rank(SmpStep(k, s, fine).cpus[i].state)
    ensures i > 0 ==> Rank(SmpStep(k, s, fine).cpus[i].state) <= Rank(s.cpus[i].state) + 1
  {
    hide Inv, Framed;
    if s.pc.Start? { StartsAvailable(k, s); }
  }

  lemma LateForward(k: Config, s: State, fine: bool, i: nat)
    requires Sound(k, s) && i < |s.cpus|
    ensures GoalStep(k, s, fine).cpus[i].state == s.cpus[i].state
    ensures IpiStep(k, s, fine).cpus[i].state == s.cpus[i].state
    ensures FreezeStep(k, s).cpus[i].state == s.cpus[i].state
  {
    hide GoalStep, IpiStep, FreezeStep;
    GoalForward(k, s, fine, i);
    IpiForward(k, s, fine, i);
    FreezeForward(k, s, i);
  }

  lemma GoalForward(k: Config, s: State, fine: bool, i: nat)
    requires Sound(k, s) && i < |s.cpus|
    ensures GoalStep(k, s, fine).cpus[i].state == s.cpus[i].state
  {
  }

  lemma IpiForward(k: Config, s: State, fine: bool, i: nat)
    requires Sound(k, s) && i < |s.cpus|
    ensures IpiStep(k, s, fine).cpus[i].state == s.cpus[i].state
  {
  }

  lemma FreezeForward(k: Config, s: State, i: nat)
    requires Sound(k, s) && i < |s.cpus|
    ensures FreezeStep(k, s).cpus[i].state == s.cpus[i].state
  {
    hide FreezeOk, CheckOk;
  }

  lemma SecForward(k: Config, pc: BootPc, echo: nat, i: nat, el: nat, c: Cpu)
    requires 0 < |k.clusters| && 0 < i && SecOk(k, pc, i, c)
    ensures Rank(c.state) <= Rank(SecOwn(echo, i, el, c).state) <= Rank(c.state) + 1
  {
    hide SgiOk, LifeOk, Bound;
  }

  /** One step moves no CPU back, and a secondary by one rung at most. */
  lemma StepForward(k: Config, s: State, a: Act, i: nat)
    requires Inv(k, s) && i < |s.cpus|
    ensures Sound(k, s)
    ensures var t := Step(k, s, a);
      && |t.cpus| == |s.cpus|
      && Rank(s.cpus[i].state) <= Rank(t.cpus[i].state)
      && (i > 0 ==> Rank(t.cpus[i].state) <= Rank(s.cpus[i].state) + 1)
  {
    hide SecOk, SignalsOk, BootOk, HandlerOk, EchoOk, PcOk, BootStep, SecOwn, Rank;
    InvSound(k, s);
    match a
    case Boot(fine) => BootForward(k, s, fine, i);
    case Sec(j, el) => if 0 < j < |s.cpus| { SecForward(k, s.pc, s.echo, j, el, s.cpus[j]); }
    case _ => SameStates(k, s, a, i);
  }

  /** Arrivals and interrupts leave the states alone. */
  lemma SameStates(k: Config, s: State, a: Act, i: nat)
    requires Sound(k, s) && i < |s.cpus| && !a.Boot? && !a.Sec?
    ensures var t := Step(k, s, a); |t.cpus| == |s.cpus| && t.cpus[i].state == s.cpus[i].state
  {
    hide Sound;
  }

  /** Over whole runs, a CPU's state only moves forward. */
  lemma {:induction false} Forward(k: Config, s: State, acts: seq<Act>, i: nat)
    requires Inv(k, s) && i < |s.cpus|
    ensures var t := Run(k, s, acts); |t.cpus| == |s.cpus| && Rank(s.cpus[i].state) <= Rank(t.cpus[i].state)
    decreases |acts|
  {
    hide Inv, Step, Rank;
    if acts != [] {
      StepForward(k, s, acts[0], i);
      StepKeeps(k, s, acts[0]);
      Forward(k, Next(k, s, acts[0]), acts[1..], i);
    }
  }

  // ---- Deadlock ----------------------------------------------------------------------

  /** A step that somebody takes: not the boot CPU giving up, and not a wfi that ends for no reason. */
  predicate Active(a: Act) {
    a != Boot(false) && !a.Wake?
  }

  predicate Asleep(c: Cpu) {
    c.pc.Sleep? && Quiet(c)
  }

  /** Everybody waits: the boot CPU for an answer, and every secondary in its wfi with nothing on its way. */
  predicate Dead(s: State) {
    && 0 < |s.cpus| && s.pc.EchoWait? && s.cpus[0].seen == s.pc.back && Quiet(s.cpus[0])
    && forall i :: 0 < i < |s.cpus| ==> Asleep(s.cpus[i])
  }

  /** A step whose CPU changes is a step that changes something. */
  lemma CpuMoves(k: Config, s: State, a: Act, i: nat)
    requires Sound(k, s) && i < |s.cpus| && |Step(k, s, a).cpus| == |s.cpus| && Step(k, s, a).cpus[i] != s.cpus[i]
    ensures Next(k, s, a) != s
  {
  }

  /** CPU `d` has an SGI on its way, and a step of its own brings it nearer. */
  lemma SgiMoves(k: Config, s: State, d: nat) returns (a: Act)
    requires Inv(k, s) && d < |s.cpus| && !Quiet(s.cpus[d]) && Late(s.pc)
    ensures Active(a) && Next(k, s, a) != s
  {
    hide RequestsOf, SentOf, EchoOk, HandlerOk, ReplyDue, StateOf, LifeOk, BootStep;
    InvSound(k, s);
    var c := s.cpus[d];
    if c.inIrq { a := Count(d); }
    else if c.unmasked { a := Ack(d); }
    else { a := Sec(d, 1); }
    CpuMoves(k, s, a, d);
  }

  /** A secondary that is released and not ONLINE yet has a step to take. */
  lemma StartMoves(k: Config, s: State, i: nat) returns (a: Act)
    requires Inv(k, s) && s.pc == Await(i) && s.cpus[i].state != ONLINE && !s.cpus[i].pc.Stuck?
    ensures Active(a) && Next(k, s, a) != s
  {
    hide RequestsOf, EchoOk, HandlerOk, ReplyDue, LifeOk, BootStep, SignalsOk, BootOk;
    InvSound(k, s);
    a := if s.cpus[i].pc.Off? then Arrive(i) else Sec(i, 1);
    CpuMoves(k, s, a, i);
  }

  /** A secondary that is up, takes no interrupt and does not sleep has a step to take. */
  lemma AwakeMoves(k: Config, s: State, i: nat)
    requires Sound(k, s) && 0 < i < |s.cpus| && Up(s.cpus[i].pc) && Quiet(s.cpus[i]) && !s.cpus[i].pc.Sleep?
    ensures Active(Sec(i, 1)) && Next(k, s, Sec(i, 1)) != s
  {
    hide BootStep;
    CpuMoves(k, s, Sec(i, 1), i);
  }

  /** While the boot CPU waits for an answer, no SGI is on its way to a secondary, and all are up. */
  lemma WaitFacts(k: Config, s: State, i: nat)
    requires Inv(k, s) && s.pc.EchoWait? && 0 < i < |s.cpus|
    ensures Up(s.cpus[i].pc) && Quiet(s.cpus[i])
  {
    hide SignalsOk, BootOk, EchoOk, HandlerOk, ReplyDue, StateOf, LifeOk, SentOf;
    assert SecOk(k, s.pc, i, s.cpus[i]);
  }

  lemma EchoMoves(k: Config, s: State) returns (a: Act)
    requires Inv(k, s) && s.pc.EchoWait? && s.cpus[0].seen == s.pc.back && !Dead(s)
    ensures Active(a) && Next(k, s, a) != s
  {
    if !Quiet(s.cpus[0]) {
      a := SgiMoves(k, s, 0);
    } else {
      var i: nat :| 0 < i < |s.cpus| && !Asleep(s.cpus[i]);
      hide Inv;
      InvSound(k, s);
      WaitFacts(k, s, i);
      AwakeMoves(k, s, i);
      a := Sec(i, 1);
    }
  }

  lemma SomeStep(k: Config, s: State) returns (a: Act)
    requires Inv(k, s) && !s.halted && !s.pc.Done? && !Dead(s)
    requires forall i :: 0 <= i < |s.cpus| ==> !s.cpus[i].pc.Stuck?
    ensures Active(a) && Next(k, s, a) != s
  {
    hide SecOk, SignalsOk, BootOk, HandlerOk, EchoOk, ReplyDue, SecStep, BootStep, Dead;
    InvSound(k, s);
    if s.cpus[0].inIrq {
      LateIrq(k, s);
      a := SgiMoves(k, s, 0);
    } else if s.pc.Await? && s.cpus[s.pc.i].state != ONLINE {
      a := StartMoves(k, s, s.pc.i);
    } else if s.pc.Seen? && s.cpus[Dst(s.pc.g)].seen == s.pc.before {
      Awaited(k, s);
      a := SgiMoves(k, s, Dst(s.pc.g));
    } else if s.pc.EchoWait? && s.cpus[0].seen == s.pc.back {
      a := EchoMoves(k, s);
    } else {
      a := Boot(true);
      BootMoves(k, s);
    }
  }

  /** In a dead state nothing moves but by giving up, or by a wfi that ends for no reason. */
  lemma DeadStays(k: Config, s: State, a: Act)
    requires Inv(k, s) && Dead(s) && Active(a)
    ensures Next(k, s, a) == s
  {
    hide SignalsOk, BootOk, EchoOk, HandlerOk, ReplyDue, SecOk;
    InvSound(k, s);
    match a
    case Boot(_) =>
    case Arrive(i) => if 0 < i < |s.cpus| { assert Asleep(s.cpus[i]); }
    case Sec(i, el) =>
      if 0 < i < |s.cpus| {
        assert Asleep(s.cpus[i]);
        assert s.cpus[i := s.cpus[i]] == s.cpus;
      }
    case Ack(i) => if 0 < i < |s.cpus| { assert Asleep(s.cpus[i]); }
    case Count(i) => if 0 < i < |s.cpus| { assert Asleep(s.cpus[i]); }
    case Wake(_) =>
  }

  /** Short of the freeze, as long as the boot CPU has not given up and no secondary came up at a wrong
      exception level, somebody has a step to take if and only if the state is not dead. */
  lemma NoDeadlock(k: Config, s: State, acts: seq<Act>)
    requires Initial(k, s)
    ensures var t := Run(k, s, acts);
      !t.halted && !t.pc.Done? && (forall i :: 0 <= i < |t.cpus| ==> !t.cpus[i].pc.Stuck?) ==>
        ((exists a :: Active(a) && Next(k, t, a) != t) <==> !Dead(t))
  {
    hide Inv, Run, Initial, Next, Dead;
    InitialInv(k, s);
    RunKeeps(k, s, acts);
    var t := Run(k, s, acts);
    if !t.halted && !t.pc.Done? && forall i :: 0 <= i < |t.cpus| ==> !t.cpus[i].pc.Stuck? {
      if Dead(t) {
        forall a | Active(a) ensures Next(k, t, a) == t { DeadStays(k, t, a); }
      } else {
        var a := SomeStep(k, t);
      }
    }
  }

  /** Where the boot CPU waits for nothing, its step takes it on. */
  lemma BootMoves(k: Config, s: State)
    requires Sound(k, s) && PcOk(k, s.pc) && !s.pc.Done?
    requires s.pc.Await? ==> s.cpus[s.pc.i].state == ONLINE
    requires s.pc.Seen? ==> s.cpus[Dst(s.pc.g)].seen != s.pc.before
    requires s.pc.EchoWait? ==> s.cpus[0].seen != s.pc.back
    ensures BootStep(k, s, true).pc != s.pc
  {
    hide Framed, FreezeOk, CheckOk;
    match s.pc
    case Bind(_) =>
    case Avail(_) =>
    case Start(_) =>
    case Release(_) =>
    case Await(_) =>
    case Read(_) =>
    case Send(_, _) =>
    case Seen(_, _) =>
    case EchoRead(_, _) =>
    case EchoWrite(_, _, _) =>
    case EchoWait(_, _, _) =>
    case Check(_) =>
    case _ =>
  }

  lemma LateIrq(k: Config, s: State)
    requires Inv(k, s) && s.cpus[0].inIrq
    ensures Late(s.pc)
  {
  }

  /** An SGI that is awaited and not yet counted is on its way. */
  lemma Awaited(k: Config, s: State)
    requires Inv(k, s) && s.pc.Seen? && s.cpus[Dst(s.pc.g)].seen == s.pc.before
    ensures !Quiet(s.cpus[Dst(s.pc.g)])
  {
    hide SignalsOk, HandlerOk, StateOf, LifeOk;
  }

  // ---- The lost wake-up --------------------------------------------------------------

  /** The CPU that is asked has taken the SGI behind the request, and goes to sleep, or sleeps, without
      having read the request. */
  predicate Lost(s: State) {
    && 0 < s.echo < |s.cpus| && (s.pc.EchoWait? || (s.pc.Seen? && s.pc.g.Request?))
    && (s.cpus[s.echo].pc.Loop? || s.cpus[s.echo].pc.Sleep?) && !s.cpus[s.echo].pending
  }

  /** The SGI behind a request is taken between the last read of nxu_ipi_echo and the wfi. */
  predicate Careless(s: State, a: Act) {
    && a.Ack? && 0 < a.i < |s.cpus| && s.echo == a.i && s.cpus[a.i].pc.Loop?
    && s.cpus[a.i].unmasked && s.cpus[a.i].pending && !s.cpus[a.i].inIrq
  }

  /** An open request names the CPU that the boot CPU is dealing with. */
  lemma OpenNamed(k: Config, s: State)
    requires Inv(k, s) && s.echo != 0
    ensures 0 < s.echo < |s.cpus| && InWindow(s.pc)
    ensures s.pc.EchoWait? ==> s.echo == s.pc.e
    ensures s.pc.Read? || s.pc.Send? || s.pc.Seen? ==> s.pc.g.Request? && s.echo == Dst(s.pc.g)
  {
    hide SignalsOk, BootOk, SecOk, HandlerOk, ReplyDue;
    assert s.requests[|s.requests| - 1] == s.echo;
  }

  lemma AllAnswered(s: State)
    requires ReplyDue(s) && forall i :: 0 < i < |s.cpus| ==> Asleep(s.cpus[i])
    ensures s.replied == s.cleared
  {
  }

  lemma DeadIsLost(k: Config, s: State)
    requires Inv(k, s) && Dead(s)
    ensures Lost(s)
  {
    hide SignalsOk, HandlerOk, StateOf, LifeOk;
    AllAnswered(s);
    OpenNamed(k, s);
    assert Asleep(s.cpus[s.echo]);
  }

  /** An open request is not answered yet, so its wait is not over. */
  lemma StillOpen(k: Config, s: State)
    requires Inv(k, s) && s.pc.EchoWait? && s.echo != 0
    ensures s.cpus[0].seen == s.pc.back
  {
    hide SignalsOk, BootOk, EchoOk, SecOk, HandlerOk, ReplyDue;
    InvSound(k, s);
    if s.cpus[0].seen != s.pc.back { WaitOver(k, s); }
  }

  lemma LostBoot(k: Config, s: State)
    requires Inv(k, s) && Lost(s)
    ensures Lost(Next(k, s, Boot(true)))
  {
    hide SignalsOk, BootOk, EchoOk, SecOk, HandlerOk, ReplyDue, Framed;
    InvSound(k, s);
    if s.pc.EchoWait? { StillOpen(k, s); }
  }

  /** While a request is open nobody clears it or answers but the CPU it names. */
  lemma LostOther(k: Config, s: State, i: nat)
    requires Inv(k, s) && s.echo != 0 && 0 < i < |s.cpus| && i != s.echo
    ensures !s.cpus[i].pc.Clear? && !s.cpus[i].pc.Reply?
  {
    hide SignalsOk, BootOk, EchoOk, SecOk, ReplyDue;
  }

  /** A lost request stays lost, whatever anybody does. */
  lemma LostStays(k: Config, s: State, a: Act)
    requires Inv(k, s) && Lost(s) && Active(a)
    ensures Lost(Next(k, s, a))
  {
    hide Inv, BootStep;
    InvSound(k, s);
    if a.Boot? { LostBoot(k, s); }
    if a.Sec? && 0 < a.i < |s.cpus| && a.i != s.echo { LostOther(k, s, a.i); }
  }

  /** From a lost request no run leads on: the boot CPU is left with its wait, until it gives up. */
  lemma {:induction false} LostForever(k: Config, s: State, more: seq<Act>)
    requires Inv(k, s) && Lost(s) && forall a <- more :: Active(a)
    ensures var t := Run(k, s, more); Lost(t) && (t.pc.EchoWait? || t.pc.Seen?)
    decreases |more|
  {
    hide Inv, Next, Lost;
    if more != [] {
      LostStays(k, s, more[0]);
      StepKeeps(k, s, more[0]);
      NextIsStep(k, s, more[0]);
      LostForever(k, Next(k, s, more[0]), more[1..]);
    } else {
      LostWaits(s);
    }
  }

  lemma LostWaits(s: State)
    requires Lost(s)
    ensures s.pc.EchoWait? || s.pc.Seen?
  {
  }

  lemma NextIsStep(k: Config, s: State, a: Act)
    requires Sound(k, s)
    ensures Next(k, s, a) == Step(k, s, a)
  {
  }

  lemma CarelessLoses(k: Config, s: State, a: Act)
    requires Inv(k, s) && Careless(s, a)
    ensures Lost(Next(k, s, a))
  {
    hide SignalsOk, BootOk, HandlerOk, ReplyDue, StateOf, LifeOk;
    InvSound(k, s);
    assert SecOk(k, s.pc, a.i, s.cpus[a.i]);
  }

  /** The CPU that is asked has taken an SGI before. */
  lemma AskedHasSeen(k: Config, s: State)
    requires Inv(k, s) && s.echo != 0
    ensures 0 < s.echo < |s.cpus| && s.cpus[s.echo].seen != 0 && s.cpus[s.echo].unmasked && Up(s.cpus[s.echo].pc)
    ensures !s.cpus[s.echo].pc.Unmask? && !s.cpus[s.echo].pc.Reply?
  {
    hide SignalsOk, BootOk, ReplyDue, LifeOk;
    OpenNamed(k, s);
    assert SecOk(k, s.pc, s.echo, s.cpus[s.echo]);
  }

  /** A step of the boot CPU loses nothing: the SGI behind a request is pending when it is sent. */
  lemma BootLosesNot(k: Config, s: State)
    requires Inv(k, s) && Lost(Next(k, s, Boot(true)))
    ensures Lost(s)
  {
    hide SignalsOk, BootOk, SecOk, HandlerOk, ReplyDue, FreezeOk, CheckOk;
    InvSound(k, s);
    if s.echo != 0 { OpenNamed(k, s); }
  }

  /** There is one way only to lose a request. */
  lemma LostArises(k: Config, s: State, a: Act)
    requires Inv(k, s) && Active(a) && !Lost(s) && Lost(Next(k, s, a))
    ensures Careless(s, a)
  {
    hide Inv, BootStep;
    InvSound(k, s);
    if a.Boot? { BootLosesNot(k, s); }
    if s.echo != 0 { AskedHasSeen(k, s); }
  }

  lemma {:induction false} RunLast(k: Config, s: State, acts: seq<Act>, a: Act)
    ensures Run(k, s, acts + [a]) == Next(k, Run(k, s, acts), a)
    decreases |acts|
  {
    hide Next;
    if acts == [] {
      assert [a][1..] == [];
    } else {
      assert (acts + [a])[1..] == acts[1..] + [a];
      RunLast(k, Next(k, s, acts[0]), acts[1..], a);
    }
  }

  /** Some step of the schedule is careless. */
  predicate TakesCarelessly(k: Config, s: State, acts: seq<Act>) {
    exists n :: 0 <= n < |acts| && Careless(Run(k, s, acts[..n]), acts[n])
  }

  lemma CarelessOneMore(k: Config, s: State, acts: seq<Act>, a: Act)
    ensures TakesCarelessly(k, s, acts + [a]) <==> TakesCarelessly(k, s, acts) || Careless(Run(k, s, acts), a)
  {
    hide Careless, Run;
    var all := acts + [a];
    assert all[..|acts|] == acts && all[|acts|] == a;
    if n :| 0 <= n < |all| && Careless(Run(k, s, all[..n]), all[n]) {
      if n < |acts| { assert all[..n] == acts[..n] && all[n] == acts[n]; }
    }
    if n :| 0 <= n < |acts| && Careless(Run(k, s, acts[..n]), acts[n]) {
      assert all[..n] == acts[..n] && all[n] == acts[n];
    }
  }

  /** A request is lost if and only if, at some step of the schedule, the CPU that is asked takes the SGI
      behind the request between its last read of nxu_ipi_echo and its wfi. */
  lemma {:induction false} LostIff(k: Config, s: State, acts: seq<Act>)
    requires Initial(k, s) && forall a <- acts :: Active(a)
    ensures Lost(Run(k, s, acts)) <==> TakesCarelessly(k, s, acts)
    decreases |acts|
  {
    hide Initial, Lost, Careless, TakesCarelessly, Inv, Run, Next, Active;
    if acts == [] {
      LostNotAtFirst(k, s);
    } else {
      var init, a := acts[..|acts| - 1], acts[|acts| - 1];
      assert acts == init + [a];
      LostIff(k, s, init);
      RunLast(k, s, init, a);
      CarelessOneMore(k, s, init, a);
      InitialInv(k, s);
      RunKeeps(k, s, init);
      var t := Run(k, s, init);
      if Lost(t) { LostStays(k, t, a); }
      else if Lost(Next(k, t, a)) { LostArises(k, t, a); }
      else if Careless(t, a) { CarelessLoses(k, t, a); }
    }
  }

  lemma LostNotAtFirst(k: Config, s: State)
    requires Initial(k, s)
    ensures !Lost(Run(k, s, [])) && !TakesCarelessly(k, s, [])
  {
  }

  /** In a schedule without such a step the run never dies: until it is over somebody has a step to take. */
  lemma CarefulMoves(k: Config, s: State, acts: seq<Act>) returns (a: Act)
    requires Initial(k, s) && (forall a <- acts :: Active(a)) && !TakesCarelessly(k, s, acts)
    requires var t := Run(k, s, acts);
      !t.halted && !t.pc.Done? && forall i :: 0 <= i < |t.cpus| ==> !t.cpus[i].pc.Stuck?
    ensures Active(a) && Next(k, Run(k, s, acts), a) != Run(k, s, acts)
  {
    hide Initial, Lost, Inv, Run, Next, Dead, TakesCarelessly, Active;
    InitialInv(k, s);
    RunKeeps(k, s, acts);
    LostIff(k, s, acts);
    var t := Run(k, s, acts);
    if Dead(t) { DeadIsLost(k, t); }
    a := SomeStep(k, t);
  }

  /** The schedule so far, in which everybody was active, and the state it leads to. */
  ghost predicate Led(k: Config, s: State, acts: seq<Act>, t: State) {
    t == Run(k, s, acts) && Inv(k, t) && (forall a <- acts :: Active(a)) && |k.clusters| == 2
  }

  lemma Lead(k: Config, s: State, acts: seq<Act>, t: State, a: Act) returns (acts': seq<Act>, t': State)
    requires Led(k, s, acts, t) && Active(a)
    ensures acts' == acts + [a] && Sound(k, t) && t' == Step(k, t, a) && Led(k, s, acts', t')
  {
    hide Inv, Run, Step, Active;
    acts', t' := acts + [a], Next(k, t, a);
    RunLast(k, s, acts, a);
    StepKeeps(k, t, a);
    NextIsStep(k, t, a);
  }

  /** A step of the boot CPU that finds what it waits for. */
  lemma LeadBoot(k: Config, s: State, acts: seq<Act>, t: State) returns (acts': seq<Act>, t': State)
    requires Led(k, s, acts, t) && !t.halted && !t.cpus[0].inIrq
    ensures Led(k, s, acts', t') && Sound(k, t) && t' == BootStep(k, t, true)
  {
    hide Inv, Run, BootStep;
    acts', t' := Lead(k, s, acts, t, Boot(true));
  }

  /** Both CPUs bound, the stages up to S11 behind, CPU 1 released. */
  lemma LeadToRelease(k: Config, s: State) returns (acts: seq<Act>, t: State)
    requires Initial(k, s) && |k.clusters| == 2
    ensures Led(k, s, acts, t) && t.pc == Await(1) && !t.halted && t.cpus[1].pc.Off?
  {
    hide Inv, Run, SmpStep, GoalStep, IpiStep, FreezeStep, Framed;
    InitialInv(k, s);
    acts, t := [], s;
    assert Led(k, s, acts, t) by { RunNone(k, s); }
    acts, t := LeadBoot(k, s, acts, t);
    acts, t := LeadBoot(k, s, acts, t);
    acts, t := LeadBoot(k, s, acts, t);
    acts, t := LeadBoot(k, s, acts, t);
    assert t.pc == Gic && !t.halted && |t.cpus| == 2 && t.cpus[1].pc.Off? && !t.cpus[0].inIrq;
    acts, t := LeadBoot(k, s, acts, t);
    acts, t := LeadBoot(k, s, acts, t);
    acts, t := LeadBoot(k, s, acts, t);
    assert t.pc == Self && !t.halted && t.cpus[1].pc.Off? && !t.cpus[0].inIrq;
    acts, t := LeadRelease(k, s, acts, t);
  }

  lemma LeadRelease(k: Config, s: State, acts0: seq<Act>, t0: State) returns (acts: seq<Act>, t: State)
    requires Led(k, s, acts0, t0) && t0.pc == Self && !t0.halted && |t0.cpus| == 2
    requires t0.cpus[1].pc.Off? && !t0.cpus[0].inIrq
    ensures Led(k, s, acts, t) && t.pc == Await(1) && !t.halted && t.cpus[1].pc.Off?
  {
    hide Inv, Run, EarlyStep, GoalStep, IpiStep, FreezeStep, Framed;
    acts, t := LeadBoot(k, s, acts0, t0);
    acts, t := LeadBoot(k, s, acts, t);
    acts, t := LeadBoot(k, s, acts, t);
  }

  lemma RunNone(k: Config, s: State)
    ensures Run(k, s, []) == s
  {
  }

  /** CPU 1 stands before its wfi, and nothing is on its way to either CPU. */
  predicate BeforeWfi(t: State) {
    && |t.cpus| == 2 && !t.halted && Quiet(t.cpus[0]) && Quiet(t.cpus[1])
    && t.cpus[1].pc.Loop? && t.cpus[1].unmasked && t.cpus[1].state == ONLINE
  }

  /** CPU 1 comes up as far as the place before its first wfi. */
  lemma LeadOnline(k: Config, s: State, acts0: seq<Act>, t0: State) returns (acts: seq<Act>, t: State)
    requires Led(k, s, acts0, t0) && t0.pc == Await(1) && !t0.halted && t0.cpus[1].pc.Off?
    ensures Led(k, s, acts, t) && t.pc == Await(1) && BeforeWfi(t)
  {
    hide Led, Inv, Run, BootStep, SecStep;
    assert Inv(k, t0) && |k.clusters| == 2 by { LedFacts(k, s, acts0, t0); }
    AwaitFacts(k, t0);
    acts, t := Lead(k, s, acts0, t0, Arrive(1));
    acts, t := LeadOwn(k, s, acts, t);
    acts, t := LeadOwn(k, s, acts, t);
    acts, t := LeadOwn(k, s, acts, t);
    acts, t := LeadOwn(k, s, acts, t);
  }

  lemma LedFacts(k: Config, s: State, acts: seq<Act>, t: State)
    requires Led(k, s, acts, t)
    ensures Inv(k, t) && |k.clusters| == 2
  {
    hide Inv, Run;
  }

  /** A step of CPU 1 that concerns nobody else. */
  lemma LeadOwn(k: Config, s: State, acts0: seq<Act>, t0: State) returns (acts: seq<Act>, t: State)
    requires Led(k, s, acts0, t0) && |t0.cpus| > 1 && !t0.cpus[1].inIrq
    requires !t0.cpus[1].pc.Clear? && !t0.cpus[1].pc.Reply?
    ensures Led(k, s, acts, t) && t == t0.(cpus := t0.cpus[1 := SecOwn(t0.echo, 1, 1, t0.cpus[1])])
  {
    hide Led, BootStep, SecOwn;
    acts, t := Lead(k, s, acts0, t0, Sec(1, 1));
  }

  lemma AwaitFacts(k: Config, t: State)
    requires Inv(k, t) && |k.clusters| == 2 && t.pc == Await(1)
    ensures |t.cpus| == 2 && t.cpus[1].released && Quiet(t.cpus[0]) && Quiet(t.cpus[1])
  {
  }

  /** An SGI is sent. */
  lemma LeadSend(k: Config, s: State, acts0: seq<Act>, t0: State) returns (acts: seq<Act>, t: State)
    requires Led(k, s, acts0, t0) && BeforeWfi(t0) && t0.pc.Read? && Dst(t0.pc.g) < 2
    ensures var d := Dst(t0.pc.g);
      && Led(k, s, acts, t)
      && t == t0.(pc := Seen(t0.pc.g, t0.cpus[d].seen), cpus := t0.cpus[d := Pend(t0.cpus[d])])
  {
    hide Inv, Run, EarlyStep, SmpStep, IpiStep, FreezeStep, Framed, AfterGoal;
    acts, t := LeadBoot(k, s, acts0, t0);
    acts, t := LeadBoot(k, s, acts, t);
  }

  /** It is taken by a CPU that does not sleep, and counted. */
  lemma LeadTake(k: Config, s: State, acts0: seq<Act>, t0: State, d: nat) returns (acts: seq<Act>, t: State)
    requires Led(k, s, acts0, t0) && d < |t0.cpus| && t0.cpus[d].pending && !t0.cpus[d].inIrq && t0.cpus[d].unmasked
    requires !t0.cpus[d].pc.Sleep? && t0.ipi.enabled
    ensures Led(k, s, acts, t)
    ensures t == t0.(cpus := t0.cpus[d := t0.cpus[d].(pending := false, seen := Inc(t0.cpus[d].seen))])
  {
    hide Inv, Run, BootStep, SecStep;
    acts, t := Lead(k, s, acts0, t0, Ack(d));
    acts, t := Lead(k, s, acts, t, Count(d));
    assert t.cpus == t0.cpus[d := t0.cpus[d].(pending := false, seen := Inc(t0.cpus[d].seen))];
  }

  lemma LeadGoal(k: Config, s: State, acts0: seq<Act>, t0: State) returns (acts: seq<Act>, t: State)
    requires Led(k, s, acts0, t0) && BeforeWfi(t0) && t0.pc.Read? && Dst(t0.pc.g) < 2
    requires t0.cpus[0].unmasked && t0.cpus[0].pc.Off? && t0.ipi.enabled
    ensures Led(k, s, acts, t) && BeforeWfi(t) && t.pc == AfterGoal(k, t0.pc.g)
    ensures t.cpus[0].unmasked && t.cpus[0].pc.Off? && t.ipi.enabled && t.echo == t0.echo
    ensures Dst(t0.pc.g) == 1 ==> t.cpus[0] == t0.cpus[0]
  {
    hide Inv, Run, EarlyStep, SmpStep, IpiStep, FreezeStep, Framed, AfterGoal;
    acts, t := LeadSend(k, s, acts0, t0);
    acts, t := LeadTake(k, s, acts, t, Dst(t0.pc.g));
    acts, t := LeadBoot(k, s, acts, t);
  }

  lemma BootIsOff(k: Config, t: State)
    requires Inv(k, t)
    ensures t.cpus[0].pc.Off?
  {
  }

  lemma LeadPings(k: Config, s: State, acts0: seq<Act>, t0: State) returns (acts: seq<Act>, t: State)
    requires Led(k, s, acts0, t0) && t0.pc == Await(1) && BeforeWfi(t0)
    ensures Led(k, s, acts, t) && t.pc == EchoRead(1, false) && BeforeWfi(t)
    ensures t.cpus[0].unmasked && t.cpus[0].pc.Off? && t.ipi.enabled
  {
    hide Inv, Run, EarlyStep, FreezeStep, GoalStep, Framed;
    BootIsOff(k, t0);
    acts, t := LeadBoot(k, s, acts0, t0);
    acts, t := LeadBoot(k, s, acts, t);
    assert t.pc == Read(Ping(0));
    acts, t := LeadGoal(k, s, acts, t);
    acts, t := LeadGoal(k, s, acts, t);
  }

  /** A run into a dead state: CPU 1 takes both its SGIs before its first wfi. The first moves the boot
      CPU on to its request, and the second is the one behind it; then CPU 1 goes to sleep. */
  lemma LostRun(k: Config, s: State) returns (acts: seq<Act>)
    requires Initial(k, s) && |k.clusters| == 2
    ensures forall a <- acts :: Active(a)
    ensures var t := Run(k, s, acts);
      && !t.halted && Dead(t) && t.echo == 1 && t.pc.EchoWait?
      && forall a :: Active(a) ==> Next(k, t, a) == t
  {
    hide Inv, Run, EarlyStep, SmpStep, GoalStep, FreezeStep, Framed, Next;
    var t;
    acts, t := LeadToRelease(k, s);
    acts, t := LeadOnline(k, s, acts, t);
    acts, t := LeadPings(k, s, acts, t);
    acts, t := LeadBoot(k, s, acts, t);
    acts, t := LeadBoot(k, s, acts, t);
    assert t.pc.Read? && t.pc.g.Request? && t.pc.g.back == t.cpus[0].seen && t.echo == 1;
    acts, t := LeadGoal(k, s, acts, t);
    acts, t := Lead(k, s, acts, t, Sec(1, 1));
    forall a | Active(a) ensures Next(k, t, a) == t { DeadStays(k, t, a); }
  }

  // ---- The echo handshake ------------------------------------------------------------

  predicate Prefix(a: seq<nat>, b: seq<nat>) { |a| <= |b| && a == b[..|a|] }

  /** In every interleaving the CPUs that clear a request, and those that answer one, are the ones
      asked, in order and once each; at most one request is open, and none names the boot CPU or
      the same CPU twice. */
  lemma EchoOnce(k: Config, s: State, acts: seq<Act>)
    requires Initial(k, s)
    ensures var t := Run(k, s, acts);
      && Prefix(t.cleared, t.requests) && |t.requests| <= |t.cleared| + 1 && |t.requests| <= 2
      && Prefix(t.replied, t.cleared) && |t.cleared| <= |t.replied| + 1
      && (t.echo == 0 <==> t.cleared == t.requests)
      && (t.echo != 0 ==> t.requests == t.cleared + [t.echo])
      && (forall r :: r in t.requests ==> 0 < r < |t.cpus|)
      && (forall i, j :: 0 <= i < j < |t.requests| ==> t.requests[i] != t.requests[j])
  {
    hide Inv, Run, Initial;
    InitialInv(k, s);
    RunKeeps(k, s, acts);
    var t := Run(k, s, acts);
    RequestsNamed(k, t);
    EchoMeans(k, t);
  }

  lemma RequestsNamed(k: Config, t: State)
    requires Inv(k, t)
    ensures |t.requests| <= 2 && forall r :: r in t.requests ==> 0 < r < |t.cpus|
    ensures forall i, j :: 0 <= i < j < |t.requests| ==> t.requests[i] != t.requests[j]
  {
    hide SignalsOk, BootOk, SecOk, HandlerOk, OneBehind, RequestsOf, PcOk, ReplyDue;
    OursNamed(k, t.pc);
  }

  lemma OursNamed(k: Config, pc: BootPc)
    requires 0 < |k.clusters| && PcOk(k, pc)
    ensures var q := RequestsOf(k, pc);
      |q| <= 2 && (forall r :: r in q ==> 0 < r < |k.clusters|) && (|q| == 2 ==> q[0] != q[1])
  {
    hide Cross;
  }

  lemma EchoMeans(k: Config, t: State)
    requires Inv(k, t)
    ensures Prefix(t.cleared, t.requests) && |t.requests| <= |t.cleared| + 1
    ensures Prefix(t.replied, t.cleared) && |t.cleared| <= |t.replied| + 1
    ensures t.echo == 0 <==> t.cleared == t.requests
    ensures t.echo != 0 ==> t.requests == t.cleared + [t.echo]
  {
    hide SignalsOk, BootOk, SecOk, HandlerOk, RequestsOf, PcOk;
  }

  /** A request that is open is closed by no step but one of the CPU it names. */
  lemma ClearedByNamed(k: Config, s: State, a: Act)
    requires Inv(k, s) && s.echo != 0
    ensures Sound(k, s) && Step(k, s, a).echo != s.echo ==> a.Sec? && a.i == s.echo && Step(k, s, a).echo == 0
  {
    hide SignalsOk, BootOk, SecOk, RequestsOf, BootStep;
    InvSound(k, s);
    assert s.pc.EchoWrite? ==> !InWindow(s.pc);
    if a.Boot? { assert Framed(s, BootStep(k, s, a.fine)); }
  }

  /** The boot CPU leaves a wait for an answer without halting only when the CPU it asked has cleared
      the request and answered it. */
  lemma AnswerSeen(k: Config, s: State, acts: seq<Act>, fine: bool)
    requires Initial(k, s)
    ensures var t := Run(k, s, acts);
      var u := Next(k, t, Boot(fine));
      t.pc.EchoWait? && !u.halted && u.pc != t.pc ==>
        u.echo == 0 && t.pc.e in u.cleared && u.replied == u.cleared == u.requests
  {
    hide SignalsOk, BootOk, SecOk, RequestsOf, HandlerOk, Inv, Run, Initial;
    InitialInv(k, s);
    RunKeeps(k, s, acts);
    var t := Run(k, s, acts);
    InvSound(k, t);
    if t.pc.EchoWait? && t.cpus[0].seen != t.pc.back { WaitAnswered(k, t); }
  }

  lemma WaitAnswered(k: Config, t: State)
    requires Inv(k, t) && t.pc.EchoWait? && t.cpus[0].seen != t.pc.back
    ensures t.echo == 0 && t.pc.e in t.cleared && t.replied == t.cleared == t.requests
  {
    hide SignalsOk, BootOk, SecOk, RequestsOf, HandlerOk;
    InvSound(k, t);
    WaitOver(k, t);
  }

  /** When S13 is over every SGI was taken and counted: one at each CPU, one more at each CPU asked,
      and at the boot CPU one more for each answer; the CPUs asked are CPU 1 and the first CPU of
      another cluster. */
  lemma SgisCounted(k: Config, s: State, acts: seq<Act>)
    requires Initial(k, s)
    ensures var t := Run(k, s, acts);
      t.pc.Freeze? || t.pc.Check? || t.pc.Done? ==>
        && |t.cpus| == |s.cpus| && t.requests == t.replied
        && t.requests == (if |k.clusters| == 1 then [] else if HasSecond(k) then [1, Cross(k)] else [1])
        && t.cpus[0].seen == 1 + |t.requests|
        && (forall i {:trigger t.cpus[i]} :: 0 < i < |t.cpus| ==> t.cpus[i].seen == if i in t.requests then 2 else 1)
        && (forall i {:trigger t.cpus[i]} :: 0 <= i < |t.cpus| ==> Quiet(t.cpus[i]))
  {
    hide Inv, Run, Initial;
    InitialInv(k, s);
    RunKeeps(k, s, acts);
    var t := Run(k, s, acts);
    RunShape(k, s, acts);
    if t.pc.Freeze? || t.pc.Check? || t.pc.Done? { Counted(k, t); }
  }

  lemma Counted(k: Config, t: State)
    requires Inv(k, t) && (t.pc.Freeze? || t.pc.Check? || t.pc.Done?)
    ensures t.requests == t.replied
    ensures t.requests == (if |k.clusters| == 1 then [] else if HasSecond(k) then [1, Cross(k)] else [1])
    ensures t.cpus[0].seen == 1 + |t.requests|
    ensures forall i {:trigger t.cpus[i]} :: 0 < i < |t.cpus| ==> t.cpus[i].seen == if i in t.requests then 2 else 1
    ensures forall i {:trigger t.cpus[i]} :: 0 <= i < |t.cpus| ==> Quiet(t.cpus[i])
  {
    hide SignalsOk, HandlerOk;
  }

  /** Once the freeze is done, every present CPU is ONLINE, WAITING, and bound to the one table. */
  lemma Frozen(k: Config, s: State, acts: seq<Act>)
    requires Initial(k, s)
    ensures var t := Run(k, s, acts);
      t.pc.Done? ==> t.frozen && forall i {:trigger t.cpus[i]} :: 0 <= i < |t.cpus| ==>
        var c := t.cpus[i]; c.state == ONLINE && c.life == WAITING && c.el == k.controlEl && c.ttbr == k.ttbr
  {
    hide Inv, Run, Initial;
    InitialInv(k, s);
    RunKeeps(k, s, acts);
    if Run(k, s, acts).pc.Done? { FrozenState(k, Run(k, s, acts)); }
  }

  lemma FrozenState(k: Config, t: State)
    requires Inv(k, t) && t.pc.Done?
    ensures t.frozen && forall i {:trigger t.cpus[i]} :: 0 <= i < |t.cpus| ==>
        var c := t.cpus[i]; c.state == ONLINE && c.life == WAITING && c.el == k.controlEl && c.ttbr == k.ttbr
  {
  }

  /** From any state at all: the freeze goes on exactly when the space is armed, the present set frozen and
      not empty, the timer has a frequency, and no enabled signal has another owner than the kernel; and past
      CPU `i` exactly when it is ONLINE, RUNNING or WAITING, at the control level and on the one table. */
  lemma FreezeChecks(k: Config, s: State)
    requires Sound(k, s)
    ensures s.pc.Freeze? ==>
      (FreezeStep(k, s).pc == Check(0) <==>
        && k.armed && s.frozen && 0 < |s.cpus| && k.freq != 0
        && !(s.timer.enabled && !s.timer.tcb) && !(s.ipi.enabled && !s.ipi.tcb))
    ensures s.pc.Check? && s.pc.i < |s.cpus| ==>
      var c := s.cpus[s.pc.i];
      (FreezeStep(k, s).pc == Check(s.pc.i + 1) <==>
        c.state == ONLINE && (c.life == RUNNING || c.life == WAITING) && c.el == k.controlEl && c.ttbr == k.ttbr)
    ensures (s.pc.Freeze? || (s.pc.Check? && s.pc.i < |s.cpus|)) && FreezeStep(k, s).pc.FreezeFailed? ==>
      FreezeStep(k, s) == s.(pc := FreezeFailed)
  {
  }

  /** A secondary that looks takes up a request exactly when the request names it and it has counted an SGI;
      in every run the second follows from the first, so that no request is passed over for it. */
  lemma LookTakesUp(k: Config, s: State, acts: seq<Act>, i: nat, el: nat)
    requires Initial(k, s) && 0 < i < |Run(k, s, acts).cpus| && Run(k, s, acts).cpus[i].pc.Look?
    ensures var t := Run(k, s, acts);
      && SecStep(t, i, el).cpus[i].pc == (if t.echo == i && t.cpus[i].seen != 0 then Clear else Loop)
      && (t.echo == i ==> t.cpus[i].seen != 0)
  {
    hide Inv, Run, Initial;
    InitialInv(k, s);
    RunKeeps(k, s, acts);
    var t := Run(k, s, acts);
    if t.echo == i { NamedHasCounted(k, t, i); }
  }

  lemma NamedHasCounted(k: Config, t: State, i: nat)
    requires Inv(k, t) && 0 < i < |t.cpus| && t.echo == i
    ensures t.cpus[i].seen != 0
  {
    hide SignalsOk, BootOk, HandlerOk, ReplyDue, LifeOk, StateOf, Cross;
  }

  // ---- Signals, and the level at which secondaries enter -----------------------------

  /** S11 has bound the timer. */
  predicate TimerBound(pc: BootPc) {
    !pc.Bind? && !pc.Avail? && !pc.Gic? && !pc.TimerArm?
  }

  predicate TimerOk(s: State) {
    s.timer == if TimerBound(s.pc) then Signal(true, true) else Signal(false, false)
  }

  lemma BootTimer(k: Config, s: State, fine: bool)
    requires Sound(k, s) && TimerOk(s)
    ensures TimerOk(BootStep(k, s, fine))
  {
    hide EarlyStep, SmpStep, GoalStep, IpiStep, FreezeStep, Framed, Sound, TimerOk;
    EarlyTimer(k, s, fine);
    SmpTimer(k, s, fine);
    GoalTimer(k, s, fine);
    IpiTimer(k, s, fine);
    FreezeTimer(k, s);
  }

  lemma EarlyTimer(k: Config, s: State, fine: bool)
    requires Sound(k, s) && TimerOk(s)
    ensures TimerOk(EarlyStep(k, s, fine))
  {
    hide Framed;
  }

  lemma SmpTimer(k: Config, s: State, fine: bool)
    requires Sound(k, s) && TimerOk(s)
    ensures TimerOk(SmpStep(k, s, fine))
  {
    hide Framed;
  }

  lemma GoalTimer(k: Config, s: State, fine: bool)
    requires Sound(k, s) && TimerOk(s)
    ensures TimerOk(GoalStep(k, s, fine))
  {
    hide Framed, Cross;
  }

  lemma IpiTimer(k: Config, s: State, fine: bool)
    requires Sound(k, s) && TimerOk(s)
    ensures TimerOk(IpiStep(k, s, fine))
  {
    hide Framed, Cross;
  }

  lemma FreezeTimer(k: Config, s: State)
    requires Sound(k, s) && TimerOk(s)
    ensures TimerOk(FreezeStep(k, s))
  {
    hide Framed, FreezeOk, CheckOk;
  }

  lemma StepTimer(k: Config, s: State, a: Act)
    requires TimerOk(s)
    ensures TimerOk(Next(k, s, a))
  {
    hide BootStep, Sound, SecOwn, TimerOk;
    if Sound(k, s) {
      match a
      case Boot(fine) => BootTimer(k, s, fine);
      case _ => SameSignals(k, s, a);
    }
  }

  lemma SameSignals(k: Config, s: State, a: Act)
    requires Sound(k, s) && !a.Boot?
    ensures Step(k, s, a).pc == s.pc && Step(k, s, a).timer == s.timer
    ensures TimerOk(Step(k, s, a)) <==> TimerOk(s)
  {
    hide Sound, SecOwn;
  }

  lemma {:induction false} RunTimer(k: Config, s: State, acts: seq<Act>)
    requires TimerOk(s)
    ensures TimerOk(Run(k, s, acts))
    decreases |acts|
  {
    hide TimerOk, Next;
    if acts != [] {
      StepTimer(k, s, acts[0]);
      RunTimer(k, Next(k, s, acts[0]), acts[1..]);
    }
  }

  /** Over every run the timer is enabled, and owned by the kernel, from S11 on and not before; the SGI from
      S13 on and not before; and the present set is frozen from the end of S10 on and not before. */
  lemma SignalsBound(k: Config, s: State, acts: seq<Act>)
    requires Initial(k, s)
    ensures var t := Run(k, s, acts);
      && t.timer == (if TimerBound(t.pc) then Signal(true, true) else Signal(false, false))
      && (t.ipi.enabled <==> Late(t.pc)) && (t.ipi.enabled ==> t.ipi.tcb)
      && (t.frozen <==> !(t.pc.Bind? || t.pc.Avail? || t.pc.Gic?))
  {
    hide Inv, Run, Initial;
    assert TimerOk(s) by { StartsUnbound(k, s); }
    RunTimer(k, s, acts);
    InitialInv(k, s);
    RunKeeps(k, s, acts);
    SignalsHold(k, Run(k, s, acts));
  }

  lemma StartsUnbound(k: Config, s: State)
    requires Initial(k, s)
    ensures TimerOk(s)
  {
  }

  lemma SignalsHold(k: Config, t: State)
    requires Inv(k, t)
    ensures (t.ipi.enabled <==> Late(t.pc)) && (t.ipi.enabled ==> t.ipi.tcb)
    ensures t.frozen <==> !(t.pc.Bind? || t.pc.Avail? || t.pc.Gic?)
  {
    hide SecOk, BootOk, EchoOk, ReplyDue, HandlerOk, PcOk;
  }

  /** The secondary has passed the check of its exception level. */
  predicate Passed(s: State, i: nat) {
    i < |s.cpus| && !s.cpus[i].pc.Off? && !s.cpus[i].pc.Enter? && !s.cpus[i].pc.Stuck?
  }

  lemma BootPasses(k: Config, s: State, fine: bool, i: nat)
    requires Sound(k, s)
    ensures Passed(BootStep(k, s, fine), i) <==> Passed(s, i)
  {
    hide BootStep, Sound;
    assert Framed(s, BootStep(k, s, fine));
  }

  /** Nothing but a step at level 1 takes it past that check. */
  lemma PassesAt1(k: Config, s: State, a: Act, i: nat)
    requires !Passed(s, i) && Passed(Next(k, s, a), i)
    ensures a == Sec(i, 1) && s.cpus[i].pc.Enter?
  {
    hide BootStep, Inv;
    if Sound(k, s) {
      BootPasses(k, s, true, i);
      BootPasses(k, s, false, i);
    }
  }

  lemma {:induction false} EnteredAt1(k: Config, s: State, acts: seq<Act>, i: nat)
    requires !Passed(s, i) && Passed(Run(k, s, acts), i)
    ensures exists j :: 0 <= j < |acts| && acts[j] == Sec(i, 1) && i < |Run(k, s, acts[..j]).cpus|
                        && Run(k, s, acts[..j]).cpus[i].pc.Enter?
    decreases |acts|
  {
    hide Next, Passed;
    if acts != [] {
      var a := acts[0];
      if Passed(Next(k, s, a), i) {
        PassesAt1(k, s, a, i);
        assert acts[..0] == [];
        assert i < |s.cpus| by { PassedThere(k, s, a, i); }
        assert acts[0] == Sec(i, 1) && Run(k, s, acts[..0]).cpus[i].pc.Enter?;
      } else {
        EnteredAt1(k, Next(k, s, a), acts[1..], i);
        var j :| 0 <= j < |acts| - 1 && acts[1..][j] == Sec(i, 1)
                 && i < |Run(k, Next(k, s, a), acts[1..][..j]).cpus|
                 && Run(k, Next(k, s, a), acts[1..][..j]).cpus[i].pc.Enter?;
        assert acts[..j + 1][0] == a && acts[..j + 1][1..] == acts[1..][..j];
        assert acts[j + 1] == Sec(i, 1) && Run(k, s, acts[..j + 1]).cpus[i].pc.Enter?;
      }
    }
  }

  lemma PassedThere(k: Config, s: State, a: Act, i: nat)
    requires Passed(Next(k, s, a), i)
    ensures i < |s.cpus|
  {
    hide BootStep, SecOwn;
    if Sound(k, s) && a.Boot? && !s.halted && !s.cpus[0].inIrq { assert Framed(s, BootStep(k, s, a.fine)); }
  }

  /** In every interleaving a secondary that is ONLINE came in at exception level 1: some step of the run is
      the one in which it found that level. */
  lemma OnlineAt1(k: Config, s: State, acts: seq<Act>, i: nat)
    requires Initial(k, s) && 0 < i < |Run(k, s, acts).cpus| && Run(k, s, acts).cpus[i].state == ONLINE
    ensures exists j :: 0 <= j < |acts| && acts[j] == Sec(i, 1) && i < |Run(k, s, acts[..j]).cpus|
                        && Run(k, s, acts[..j]).cpus[i].pc.Enter?
  {
    hide Inv, Run;
    InitialInv(k, s);
    RunKeeps(k, s, acts);
    OnlineIsUp(k, Run(k, s, acts), i);
    EnteredAt1(k, s, acts, i);
  }

  lemma OnlineIsUp(k: Config, t: State, i: nat)
    requires Inv(k, t) && 0 < i < |t.cpus| && t.cpus[i].state == ONLINE
    ensures Passed(t, i)
  {
    hide SgiOk, SignalsOk, BootOk, EchoOk, HandlerOk, ReplyDue, LifeOk;
  }

  /** S9, one CPU after the other: those done are AVAILABLE, the next is INITIALIZED between its two steps, and
      the others are PRESENT. */
  lemma BoundInOrder(k: Config, s: State, acts: seq<Act>)
    requires Initial(k, s)
    ensures var t := Run(k, s, acts);
      t.pc.Bind? || t.pc.Avail? ==>
        forall i :: 0 <= i < |t.cpus| ==>
          t.cpus[i].state == (if i < t.pc.i then AVAILABLE
                              else if i == t.pc.i && t.pc.Avail? then INITIALIZED else PRESENT)
  {
    hide Inv, Run, Initial;
    InitialInv(k, s);
    RunKeeps(k, s, acts);
    BoundStates(k, Run(k, s, acts));
  }

  lemma BoundStates(k: Config, t: State)
    requires Inv(k, t)
    ensures t.pc.Bind? || t.pc.Avail? ==>
      forall i :: 0 <= i < |t.cpus| ==>
        t.cpus[i].state == (if i < t.pc.i then AVAILABLE
                            else if i == t.pc.i && t.pc.Avail? then INITIALIZED else PRESENT)
  {
    hide SgiOk, SignalsOk, EchoOk, HandlerOk, ReplyDue, LifeOk;
  }
}
