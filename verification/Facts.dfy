/** Fact corroboration (foundation/facts/facts.c, S4), with the promotion of the distributor fact
    that S10 makes (foundation/signal/signal.c:91-94): sources that disagree stop the boot. */
module Facts {
  import opened Words
  import Cpus
  import Fdt

  /** What S3 hands over (struct nxu_dtb_cand): what the decoder found, and a timer interrupt. */
  datatype Candidate = Candidate(valid: bool, found: Fdt.Cand, timerPpi: u32)

  /** What the board file offers (struct nxu_board_facts). */
  datatype Board = Board(present: bool, ram: seq<Range>, cpus: seq<u64>, gicd: Range, gicr: Range,
                         uart: Range, psci: u32, timerFreq: u64, pwrc: Range)

  /** The source mask: observed, device tree, board. */
  datatype Sources = Sources(obs: bool, dtb: bool, board: bool)

  datatype Grade = Ungraded | Observed | Single | Corroborated

  datatype Fact = Fact(range: Range, source: Sources, grade: Grade)

  datatype CpuFact = CpuFact(mpidr: u64, source: Sources, grade: Grade)

  function Bit(b: bool): nat { if b then 1 else 0 }

  function Bits(s: Sources): nat { Bit(s.obs) + Bit(s.dtb) + Bit(s.board) }

  /** A fact is graded CORROBORATED exactly when its mask has at least two bits. */
  predicate WellGraded(s: Sources, g: Grade) {
    g == Corroborated <==> Bits(s) >= 2
  }

  // ---- Who speaks for what -----------------------------------------------------------

  predicate DtbRam(c: Candidate, i: nat) { c.valid && i < |c.found.mem| }

  predicate BoardRam(b: Board, i: nat) { b.present && i < |b.ram| }

  /** Two claims about one range agree unless both are made and differ. */
  predicate Agree(x: Range, xSpeaks: bool, y: Range, ySpeaks: bool) {
    xSpeaks && ySpeaks ==> x == y
  }

  predicate MemoryAgrees(c: Candidate, b: Board) {
    && (DtbRam(c, 0) || BoardRam(b, 0))
    && forall i :: 0 <= i < |c.found.mem| && i < MEM_FACT_MAX && DtbRam(c, i) && BoardRam(b, i) ==>
         c.found.mem[i] == b.ram[i]
  }

  /** An accepted range: it is what every source that speaks for it says, and the mask lists them. */
  predicate MemoryFact(c: Candidate, b: Board, i: nat, f: Fact) {
    && f.source == Sources(false, DtbRam(c, i), BoardRam(b, i)) && WellGraded(f.source, f.grade)
    && (f.grade == Single || f.grade == Corroborated)
    && (DtbRam(c, i) ==> f.range == c.found.mem[i]) && (BoardRam(b, i) ==> f.range == b.ram[i])
    && (DtbRam(c, i) || BoardRam(b, i))
  }

  /** The same of a controller: the mask is empty, and so is the range, when nobody speaks. */
  predicate ControllerFact(x: Range, xSpeaks: bool, y: Range, ySpeaks: bool, f: Fact) {
    && f.source == Sources(false, xSpeaks, ySpeaks) && WellGraded(f.source, f.grade)
    && (xSpeaks ==> f.range == x) && (ySpeaks ==> f.range == y)
    && (!xSpeaks && !ySpeaks ==> f.range == Range(0, 0) && f.grade == Ungraded)
    && (xSpeaks || ySpeaks ==> f.grade == Single || f.grade == Corroborated)
  }

  predicate DtbCpus(c: Candidate) { c.valid && |c.found.cpus| > 0 }

  predicate BoardCpus(b: Board) { b.present && |b.cpus| > 0 }

  predicate OnBoard(b: Board, m: u64) {
    exists j :: 0 <= j < |b.cpus| && Cpus.Mask(b.cpus[j]) == m
  }

  /** The MPIDRs that S4 accepts, in order. */
  function Named(c: Candidate, b: Board, boot: u64): seq<u64> {
    if DtbCpus(c) then c.found.cpus else if BoardCpus(b) then b.cpus else [boot]
  }

  /** An accepted CPU: its mask names the device tree, the board and the boot CPU's own MPIDR exactly
      where each of them vouches for it. */
  predicate CpuOk(c: Candidate, b: Board, boot: u64, raw: u64, f: CpuFact) {
    && f.mpidr == Cpus.Mask(raw)
    && (BoardCpus(b) ==> OnBoard(b, f.mpidr))
    && f.source == Sources(if DtbCpus(c) then raw == boot else f.mpidr == boot, DtbCpus(c), BoardCpus(b))
    && (f.grade == if Bits(f.source) >= 2 then Corroborated else if f.source.obs then Observed else Single)
  }

  predicate CpusAgree(c: Candidate, b: Board, boot: u64) {
    && (DtbCpus(c) || !BoardCpus(b) || |b.cpus| <= CPU_BOUND)
    && (DtbCpus(c) && BoardCpus(b) ==> forall i :: 0 <= i < |c.found.cpus| ==> OnBoard(b, Cpus.Mask(c.found.cpus[i])))
    && exists i :: 0 <= i < |Named(c, b, boot)| && Cpus.Mask(Named(c, b, boot)[i]) == boot
  }

  predicate PsciAgrees(c: Candidate, b: Board) {
    c.found.psci != 0 && b.present && b.psci != 0 ==> c.found.psci == b.psci
  }

  predicate TimerAgrees(c: Candidate, b: Board, cntfrq: u64) {
    (c.timerPpi == 0 || c.timerPpi == TIMER_PPI) && (cntfrq != 0 || (b.present && b.timerFreq != 0))
  }

  predicate DtbSpeaks(c: Candidate, r: Range) { c.valid && r.size != 0 }

  predicate BoardSpeaks(b: Board, r: Range) { b.present && r.size != 0 }

  // ---- The fact table ----------------------------------------------------------------

  class FactTable {
    var mem: seq<Fact>
    var cpu: seq<CpuFact>
    var gicd: Fact
    var gicr: Fact
    var uart: Fact
    var uartValid: bool
    var psci: u32
    var psciSource: Sources
    var timerPpi: u32
    var timerFreq: u64
    var pwrc: Range

    /** The table as BSS leaves it. */
    constructor ()
      ensures pwrc == Range(0, 0)
    {
      var none := Fact(Range(0, 0), Sources(false, false, false), Ungraded);
      mem, cpu, gicd, gicr, uart, uartValid := [], [], none, none, none, false;
      psci, psciSource, timerPpi, timerFreq, pwrc := 0, Sources(false, false, false), 0, 0, Range(0, 0);
    }

    method AcceptMemory(c: Candidate, b: Board, image: Range) returns (ok: bool)
      modifies this`mem
      ensures ok <==> MemoryAgrees(c, b)
                      && (var r := if DtbRam(c, 0) then c.found.mem[0] else b.ram[0];
                          RangeContains(r.base, r.size, image.base, image.size))
      ensures ok ==> var n := |c.found.mem|;
        |mem| == if !DtbRam(c, 0) then 1 else if n > MEM_FACT_MAX then MEM_FACT_MAX else n
      ensures ok ==> forall i :: 0 <= i < |mem| ==> MemoryFact(c, b, i, mem[i])
      ensures ok ==> RangeContains(mem[0].range.base, mem[0].range.size, image.base, image.size)
    {
      ok, mem := false, [];
      if c.valid && |c.found.mem| > 0 {
        var n := if |c.found.mem| > MEM_FACT_MAX then MEM_FACT_MAX else |c.found.mem|;
        for i := 0 to n
          invariant |mem| == i
          invariant forall j :: 0 <= j < i ==> MemoryFact(c, b, j, mem[j])
          invariant forall j :: 0 <= j < i && BoardRam(b, j) ==> c.found.mem[j] == b.ram[j]
        {
          var f := Fact(c.found.mem[i], Sources(false, true, false), Single);
          if b.present && i < |b.ram| {
            if c.found.mem[i] != b.ram[i] { return; }
            f := Fact(c.found.mem[i], Sources(false, true, true), Corroborated);
          }
          mem := mem + [f];
        }
        assert forall i :: 0 <= i < n ==> MemoryFact(c, b, i, mem[i]);
      } else if b.present && |b.ram| > 0 {
        mem := [Fact(b.ram[0], Sources(false, false, true), Single)];
      } else {
        return;
      }
      assert MemoryFact(c, b, 0, mem[0]);
      ok := RangeContains(mem[0].range.base, mem[0].range.size, image.base, image.size);
    }

    /** merge_ctl */
    static method Merge(dtb: Range, dtbOk: bool, board: Range, boardOk: bool, required: bool)
      returns (ok: bool, f: Fact)
      ensures ok <==> Agree(dtb, dtbOk, board, boardOk) && (required ==> dtbOk || boardOk)
      ensures ok ==> ControllerFact(dtb, dtbOk, board, boardOk, f)
    {
      ok, f := true, Fact(Range(0, 0), Sources(false, false, false), Ungraded);
      if dtbOk && boardOk {
        if dtb != board { return false, f; }
        f := Fact(dtb, Sources(false, true, true), Corroborated);
      } else if dtbOk {
        f := Fact(dtb, Sources(false, true, false), Single);
      } else if boardOk {
        f := Fact(board, Sources(false, false, true), Single);
      } else if required {
        ok := false;
      }
    }

    method AcceptControllers(c: Candidate, b: Board) returns (ok: bool)
      modifies this`gicd, this`gicr, this`uart, this`uartValid
      ensures ok <==>
        && Agree(c.found.gicd, DtbSpeaks(c, c.found.gicd), b.gicd, BoardSpeaks(b, b.gicd))
        && Agree(c.found.gicr, DtbSpeaks(c, c.found.gicr), b.gicr, BoardSpeaks(b, b.gicr))
        && Agree(c.found.uart, c.found.uartValid, b.uart, BoardSpeaks(b, b.uart))
        && (DtbSpeaks(c, c.found.gicd) || BoardSpeaks(b, b.gicd))
        && (DtbSpeaks(c, c.found.gicr) || BoardSpeaks(b, b.gicr))
      ensures ok ==>
        && ControllerFact(c.found.gicd, DtbSpeaks(c, c.found.gicd), b.gicd, BoardSpeaks(b, b.gicd), gicd)
        && ControllerFact(c.found.gicr, DtbSpeaks(c, c.found.gicr), b.gicr, BoardSpeaks(b, b.gicr), gicr)
        && ControllerFact(c.found.uart, c.found.uartValid, b.uart, BoardSpeaks(b, b.uart), uart)
        && (uartValid <==> uart.range.size != 0) && gicd.range.size != 0 && gicr.range.size != 0
    {
      var f;
      uartValid := false;
      ok, f := Merge(c.found.gicd, c.valid && c.found.gicd.size != 0, b.gicd, b.present && b.gicd.size != 0, true);
      if !ok { return; }
      gicd := f;
      ok, f := Merge(c.found.gicr, c.valid && c.found.gicr.size != 0, b.gicr, b.present && b.gicr.size != 0, true);
      if !ok { return; }
      gicr := f;
      ok, f := Merge(c.found.uart, c.found.uartValid, b.uart, b.present && b.uart.size != 0, false);
      if !ok { return; }
      uart := f;
      if uart.range.size != 0 { uartValid := true; }
    }

    method AcceptPsci(c: Candidate, b: Board) returns (ok: bool)
      modifies this`psci, this`psciSource, this`pwrc
      ensures ok <==> PsciAgrees(c, b)
      ensures ok ==> PsciAccepted(c, b)
      ensures ok ==> pwrc == if b.present then b.pwrc else old(pwrc)
    {
      ok := !(c.found.psci != 0 && b.present && b.psci != 0 && c.found.psci != b.psci);
      if !ok { return; }
      psci := if c.found.psci != 0 then c.found.psci else b.psci;
      psciSource := Sources(false, c.found.psci != 0, b.present && b.psci != 0);
      if b.present { pwrc := b.pwrc; }
    }

    static method Lists(b: Board, m: u64) returns (found: bool)
      ensures found <==> OnBoard(b, m)
    {
      found := false;
      for j := 0 to |b.cpus|
        invariant found <==> exists k :: 0 <= k < j && Cpus.Mask(b.cpus[k]) == m
      {
        if Cpus.Mask(b.cpus[j]) == m { found := true; }
      }
    }

    /** The CPUs that the device tree names. */
    method AcceptDtbCpus(c: Candidate, b: Board, boot: u64) returns (ok: bool)
      requires DtbCpus(c)
      modifies this`cpu
      ensures ok <==> (BoardCpus(b) ==> forall i :: 0 <= i < |c.found.cpus| ==> OnBoard(b, Cpus.Mask(c.found.cpus[i])))
      ensures ok ==> |cpu| == |c.found.cpus|
      ensures ok ==> forall i :: 0 <= i < |cpu| ==> CpuOk(c, b, boot, c.found.cpus[i], cpu[i])
    {
      hide Cpus.Mask, OnBoard;
      ok, cpu := true, [];
      for i := 0 to |c.found.cpus|
        invariant |cpu| == i && forall j :: 0 <= j < i ==> CpuOk(c, b, boot, c.found.cpus[j], cpu[j])
      {
        var s, g := Sources(false, true, false), Single;
        if b.present && |b.cpus| > 0 {
          var found := Lists(b, Cpus.Mask(c.found.cpus[i]));
          if !found { return false; }
          s, g := Sources(false, true, true), Corroborated;
        }
        if c.found.cpus[i] == boot { s, g := s.(obs := true), Corroborated; }
        cpu := cpu + [CpuFact(Cpus.Mask(c.found.cpus[i]), s, g)];
      }
      assert forall i :: 0 <= i < |cpu| ==> CpuOk(c, b, boot, c.found.cpus[i], cpu[i]);
    }

    /** The CPUs that the board names, when the device tree names none. */
    method AcceptBoardCpus(c: Candidate, b: Board, boot: u64)
      requires BoardCpus(b) && !DtbCpus(c)
      modifies this`cpu
      ensures |cpu| == |b.cpus| && forall i :: 0 <= i < |cpu| ==> CpuOk(c, b, boot, b.cpus[i], cpu[i])
    {
      hide Cpus.Mask;
      cpu := [];
      for i := 0 to |b.cpus|
        invariant |cpu| == i && forall j :: 0 <= j < i ==> CpuOk(c, b, boot, b.cpus[j], cpu[j])
      {
        var m := Cpus.Mask(b.cpus[i]);
        assert OnBoard(b, m);
        var s, g := Sources(false, false, true), Single;
        if m == boot { s, g := Sources(true, false, true), Corroborated; }
        cpu := cpu + [CpuFact(m, s, g)];
      }
    }

    method AcceptCpus(c: Candidate, b: Board, boot: u64) returns (ok: bool)
      requires Cpus.Masked(boot)
      modifies this`cpu
      ensures ok <==> CpusAgree(c, b, boot)
      ensures ok ==> |cpu| == |Named(c, b, boot)|
      ensures ok ==> forall i :: 0 <= i < |cpu| ==> CpuOk(c, b, boot, Named(c, b, boot)[i], cpu[i])
      ensures ok ==> exists i :: 0 <= i < |cpu| && cpu[i].mpidr == boot
    {
      hide Cpus.Mask, OnBoard;
      ok := true;
      if c.valid && |c.found.cpus| > 0 {
        ok := AcceptDtbCpus(c, b, boot);
        if !ok { return; }
      } else if b.present && |b.cpus| > 0 {
        if |b.cpus| > CPU_BOUND { return false; }
        AcceptBoardCpus(c, b, boot);
      } else {
        cpu := [CpuFact(boot, Sources(true, false, false), Observed)];
      }
      ghost var named := Named(c, b, boot);
      assert |cpu| == |named| && forall i :: 0 <= i < |cpu| ==> CpuOk(c, b, boot, named[i], cpu[i]);
      ok := false;
      for i := 0 to |cpu|
        invariant ok <==> exists j :: 0 <= j < i && cpu[j].mpidr == boot
      {
        if cpu[i].mpidr == boot { ok := true; }
      }
      FoundIsNamed(named, cpu, boot);
    }

    method AcceptTimer(c: Candidate, b: Board, cntfrq: u64) returns (ok: bool)
      modifies this`timerPpi, this`timerFreq
      ensures ok <==> TimerAgrees(c, b, cntfrq)
      ensures ok ==> timerPpi == TIMER_PPI && timerFreq != 0
      ensures ok ==> timerFreq == if cntfrq != 0 then cntfrq else b.timerFreq
    {
      if c.timerPpi != 0 && c.timerPpi != TIMER_PPI { return false; }
      timerPpi, timerFreq := TIMER_PPI, cntfrq;
      if timerFreq == 0 && b.present { timerFreq := b.timerFreq; }
      ok := timerFreq != 0;
    }

    /** All that S4 promises of the table it leaves. */
    ghost predicate Corroborates(c: Candidate, b: Board, boot: u64, image: Range)
      reads this
    {
      && (forall i :: 0 <= i < |mem| ==> MemoryFact(c, b, i, mem[i]))
      && |mem| == (if !c.valid || |c.found.mem| == 0 then 1 else if |c.found.mem| > 8 then 8 else |c.found.mem|)
      && RangeContains(mem[0].range.base, mem[0].range.size, image.base, image.size)
      && ControllerFact(c.found.gicd, DtbSpeaks(c, c.found.gicd), b.gicd, BoardSpeaks(b, b.gicd), gicd)
      && ControllerFact(c.found.gicr, DtbSpeaks(c, c.found.gicr), b.gicr, BoardSpeaks(b, b.gicr), gicr)
      && ControllerFact(c.found.uart, c.found.uartValid, b.uart, BoardSpeaks(b, b.uart), uart)
      && (uartValid <==> uart.range.size != 0)
      && |cpu| == |Named(c, b, boot)|
      && (forall i :: 0 <= i < |cpu| ==> CpuOk(c, b, boot, Named(c, b, boot)[i], cpu[i]))
      && (exists i :: 0 <= i < |cpu| && cpu[i].mpidr == boot)
    }

    /** nxu_s4_facts */
    method Accept(c: Candidate, b: Board, boot: u64, image: Range, cntfrq: u64) returns (ok: bool)
      requires Cpus.Masked(boot)
      modifies this
      ensures ok <==>
        // RAM: somebody names some, entry by entry alike where both do, and the image lies in the first
        && ((c.valid && |c.found.mem| > 0) || (b.present && |b.ram| > 0))
        && (c.valid && b.present ==>
              forall i :: 0 <= i < |c.found.mem| && i < |b.ram| && i < 8 ==> c.found.mem[i] == b.ram[i])
        && (var r := if c.valid && |c.found.mem| > 0 then c.found.mem[0] else b.ram[0];
            RangeContains(r.base, r.size, image.base, image.size))
        // the controllers: alike where both sources name one; the console alone may be missing
        && (c.valid && c.found.gicd.size != 0 && b.present && b.gicd.size != 0 ==> c.found.gicd == b.gicd)
        && (c.valid && c.found.gicr.size != 0 && b.present && b.gicr.size != 0 ==> c.found.gicr == b.gicr)
        && (c.found.uartValid && b.present && b.uart.size != 0 ==> c.found.uart == b.uart)
        && ((c.valid && c.found.gicd.size != 0) || (b.present && b.gicd.size != 0))
        && ((c.valid && c.found.gicr.size != 0) || (b.present && b.gicr.size != 0))
        && (c.found.psci != 0 && b.present && b.psci != 0 ==> c.found.psci == b.psci)
        // the CPUs: the boot CPU is named, and all of the device tree's are on the board's list when there is one
        && (if c.valid && |c.found.cpus| > 0 then
              && (exists i :: 0 <= i < |c.found.cpus| && Cpus.Mask(c.found.cpus[i]) == boot)
              && (b.present && |b.cpus| > 0 ==>
                    forall i :: 0 <= i < |c.found.cpus| ==>
                      exists j :: 0 <= j < |b.cpus| && Cpus.Mask(b.cpus[j]) == Cpus.Mask(c.found.cpus[i]))
            else
              b.present && |b.cpus| > 0 ==>
                |b.cpus| <= 8 && exists j :: 0 <= j < |b.cpus| && Cpus.Mask(b.cpus[j]) == boot)
        // the timer: interrupt 30, and some frequency
        && (c.timerPpi == 0 || c.timerPpi == 30) && (cntfrq != 0 || (b.present && b.timerFreq != 0))
      ensures ok ==> Corroborates(c, b, boot, image) && PsciAccepted(c, b)
      ensures ok ==> pwrc == if b.present then b.pwrc else old(pwrc)
      ensures ok ==> timerPpi == 30 && timerFreq != 0 && timerFreq == if cntfrq != 0 then cntfrq else b.timerFreq
    {
      hide MemoryAgrees, Agree, MemoryFact, ControllerFact, CpuOk, CpusAgree, PsciAgrees, TimerAgrees, RangeContains,
           Cpus.Masked, Cpus.Mask, Named, DtbSpeaks, BoardSpeaks;
      MemoryIs(c, b);
      ControllersAre(c, b);
      CpusAre(c, b, boot);
      OthersAre(c, b, cntfrq);
      ok := AcceptMemory(c, b, image);
      if !ok { return; }
      ok := AcceptControllers(c, b);
      if !ok { return; }
      ok := AcceptPsci(c, b);
      if !ok { return; }
      ok := AcceptCpus(c, b, boot);
      if !ok { return; }
      ok := AcceptTimer(c, b, cntfrq);
    }

    /** What a table that S4 returns with means. Every fact is what each source that speaks for it says, and
        its mask names just these; it is CORROBORATED exactly when two are named. The boot CPU is among the
        CPUs, observed; the image's bytes are in RAM. */
    lemma Corroboration(c: Candidate, b: Board, boot: u64, image: Range)
      requires Corroborates(c, b, boot, image) && (DtbCpus(c) ==> Fdt.Fit(c.found))
      ensures forall i :: 0 <= i < |mem| ==>
        && mem[i].source == Sources(false, c.valid && i < |c.found.mem|, b.present && i < |b.ram|)
        && (mem[i].source.dtb ==> mem[i].range == c.found.mem[i]) && (mem[i].source.board ==> mem[i].range == b.ram[i])
        && (mem[i].source.dtb || mem[i].source.board)
        && mem[i].grade == if mem[i].source.dtb && mem[i].source.board then Corroborated else Single
      ensures gicd.source == Sources(false, c.valid && c.found.gicd.size != 0, b.present && b.gicd.size != 0)
           && Supported(gicd, c.found.gicd, b.gicd)
      ensures gicr.source == Sources(false, c.valid && c.found.gicr.size != 0, b.present && b.gicr.size != 0)
           && Supported(gicr, c.found.gicr, b.gicr)
      ensures uart.source == Sources(false, c.found.uartValid, b.present && b.uart.size != 0)
           && Supported(uart, c.found.uart, b.uart)
      ensures var raw := if c.valid && |c.found.cpus| > 0 then c.found.cpus
                         else if b.present && |b.cpus| > 0 then b.cpus else [boot];
        && |cpu| == |raw|
        && forall i :: 0 <= i < |cpu| ==>
             && cpu[i].mpidr == Cpus.Mask(raw[i])
             && cpu[i].source == Sources(cpu[i].mpidr == boot, c.valid && |c.found.cpus| > 0, b.present && |b.cpus| > 0)
             && (cpu[i].source.board ==> exists j :: 0 <= j < |b.cpus| && Cpus.Mask(b.cpus[j]) == cpu[i].mpidr)
             && (cpu[i].grade == Corroborated <==>
                   || (cpu[i].source.obs && (cpu[i].source.dtb || cpu[i].source.board))
                   || (cpu[i].source.dtb && cpu[i].source.board))
             && (cpu[i].grade != Corroborated ==> cpu[i].grade == if cpu[i].source.obs then Observed else Single)
      ensures exists i :: 0 <= i < |cpu| && cpu[i].mpidr == boot && cpu[i].source.obs
      ensures forall x :: InRange(x, image.base, image.size) ==> InRange(x, mem[0].range.base, mem[0].range.size)
    {
      hide OnBoard, Cpus.Mask, RangeContains;
      ContainsMeans(mem[0].range.base, mem[0].range.size, image.base, image.size);
      forall i | 0 <= i < |mem|
        ensures mem[i].source == Sources(false, c.valid && i < |c.found.mem|, b.present && i < |b.ram|)
        ensures mem[i].source.dtb ==> mem[i].range == c.found.mem[i]
        ensures mem[i].source.board ==> mem[i].range == b.ram[i]
        ensures mem[i].source.dtb || mem[i].source.board
        ensures mem[i].grade == if mem[i].source.dtb && mem[i].source.board then Corroborated else Single
      {
        assert MemoryFact(c, b, i, mem[i]);
      }
      CpuRecords(c, b, boot);
    }

    /** The range is what both sources say, as far as the mask names them, and the grade is that of the mask. */
    predicate Supported(f: Fact, dtb: Range, board: Range) {
      && (f.source.dtb ==> f.range == dtb) && (f.source.board ==> f.range == board)
      && f.grade == (if f.source.dtb && f.source.board then Corroborated
                     else if f.source.dtb || f.source.board then Single else Ungraded)
      && (f.grade == Ungraded ==> f.range == Range(0, 0))
    }

    lemma CpuRecords(c: Candidate, b: Board, boot: u64)
      requires |cpu| == |Named(c, b, boot)| && (DtbCpus(c) ==> Fdt.Fit(c.found))
      requires forall i :: 0 <= i < |cpu| ==> CpuOk(c, b, boot, Named(c, b, boot)[i], cpu[i])
      requires exists i :: 0 <= i < |cpu| && cpu[i].mpidr == boot
      ensures forall i :: 0 <= i < |cpu| ==>
        && cpu[i].mpidr == Cpus.Mask(Named(c, b, boot)[i])
        && cpu[i].source == Sources(cpu[i].mpidr == boot, DtbCpus(c), BoardCpus(b))
        && (BoardCpus(b) ==> exists j :: 0 <= j < |b.cpus| && Cpus.Mask(b.cpus[j]) == cpu[i].mpidr)
        && (cpu[i].grade == Corroborated <==>
              || (cpu[i].source.obs && (cpu[i].source.dtb || cpu[i].source.board))
              || (cpu[i].source.dtb && cpu[i].source.board))
        && (cpu[i].grade != Corroborated ==> cpu[i].grade == if cpu[i].source.obs then Observed else Single)
      ensures exists i :: 0 <= i < |cpu| && cpu[i].mpidr == boot && cpu[i].source.obs
    {
      hide Cpus.Mask;
      var named := Named(c, b, boot);
      forall i | 0 <= i < |cpu|
        ensures cpu[i].mpidr == Cpus.Mask(named[i])
        ensures cpu[i].source == Sources(cpu[i].mpidr == boot, DtbCpus(c), BoardCpus(b))
        ensures BoardCpus(b) ==> OnBoard(b, cpu[i].mpidr)
        ensures cpu[i].grade == Corroborated <==> Bits(cpu[i].source) >= 2
        ensures cpu[i].grade != Corroborated ==> cpu[i].grade == if cpu[i].source.obs then Observed else Single
      {
        assert CpuOk(c, b, boot, named[i], cpu[i]);
        if DtbCpus(c) { assert Cpus.Masked(c.found.cpus[i]); }
      }
    }

    /** What S4 leaves of the power interface. */
    ghost predicate PsciAccepted(c: Candidate, b: Board)
      reads this
    {
      && psci == (if c.found.psci != 0 then c.found.psci else b.psci)
      && psciSource == Sources(false, c.found.psci != 0, b.present && b.psci != 0)
    }

    /** A conduit stands in the table without any source exactly when the device tree names none and a
        board file that is not in use does: the code reads nxu_board.psci_conduit without asking
        `present`. None of the three board files is like that. */
    lemma PsciWithoutSource(c: Candidate, b: Board)
      requires PsciAccepted(c, b)
      ensures psci != 0 && Bits(psciSource) == 0 <==> c.found.psci == 0 && !b.present && b.psci != 0
      ensures b.present || b.psci == 0 ==> (psci != 0 <==> Bits(psciSource) > 0)
    {
    }

    /** The promotion in nxu_s10_gic, once the mapped distributor was read. */
    method ObserveDistributor()
      modifies this`gicd
      ensures gicd.range == old(gicd.range) && gicd.source == old(gicd.source).(obs := true)
      ensures old(WellGraded(gicd.source, gicd.grade)) && old(gicd.grade == Single || gicd.grade == Corroborated)
          && old(gicd.source.dtb || gicd.source.board)
        ==> WellGraded(gicd.source, gicd.grade) && gicd.grade == Corroborated
    {
      var g := if gicd.grade == Single then Corroborated else gicd.grade;
      gicd := Fact(gicd.range, gicd.source.(obs := true), g);
    }
  }

  // The conditions under which sources agree, written out.

  lemma MemoryIs(c: Candidate, b: Board)
    ensures MemoryAgrees(c, b) <==>
      && ((c.valid && |c.found.mem| > 0) || (b.present && |b.ram| > 0))
      && (c.valid && b.present ==>
            forall i :: 0 <= i < |c.found.mem| && i < |b.ram| && i < 8 ==> c.found.mem[i] == b.ram[i])
  {
  }

  lemma ControllersAre(c: Candidate, b: Board)
    ensures Agree(c.found.gicd, DtbSpeaks(c, c.found.gicd), b.gicd, BoardSpeaks(b, b.gicd)) <==>
      (c.valid && c.found.gicd.size != 0 && b.present && b.gicd.size != 0 ==> c.found.gicd == b.gicd)
    ensures Agree(c.found.gicr, DtbSpeaks(c, c.found.gicr), b.gicr, BoardSpeaks(b, b.gicr)) <==>
      (c.valid && c.found.gicr.size != 0 && b.present && b.gicr.size != 0 ==> c.found.gicr == b.gicr)
    ensures Agree(c.found.uart, c.found.uartValid, b.uart, BoardSpeaks(b, b.uart)) <==>
      (c.found.uartValid && b.present && b.uart.size != 0 ==> c.found.uart == b.uart)
    ensures forall r :: DtbSpeaks(c, r) <==> c.valid && r.size != 0
    ensures forall r :: BoardSpeaks(b, r) <==> b.present && r.size != 0
  {
  }

  lemma CpusAre(c: Candidate, b: Board, boot: u64)
    requires Cpus.Masked(boot)
    ensures CpusAgree(c, b, boot) <==>
      if c.valid && |c.found.cpus| > 0 then
        && (exists i :: 0 <= i < |c.found.cpus| && Cpus.Mask(c.found.cpus[i]) == boot)
        && (b.present && |b.cpus| > 0 ==>
              forall i :: 0 <= i < |c.found.cpus| ==>
                exists j :: 0 <= j < |b.cpus| && Cpus.Mask(b.cpus[j]) == Cpus.Mask(c.found.cpus[i]))
      else
        b.present && |b.cpus| > 0 ==>
          |b.cpus| <= 8 && exists j :: 0 <= j < |b.cpus| && Cpus.Mask(b.cpus[j]) == boot
  {
    assert Named(c, b, boot) == [boot] ==> Cpus.Mask(Named(c, b, boot)[0]) == boot;
    hide Cpus.Mask;
  }

  lemma OthersAre(c: Candidate, b: Board, cntfrq: u64)
    ensures PsciAgrees(c, b) <==> (c.found.psci != 0 && b.present && b.psci != 0 ==> c.found.psci == b.psci)
    ensures TimerAgrees(c, b, cntfrq) <==>
      (c.timerPpi == 0 || c.timerPpi == 30) && (cntfrq != 0 || (b.present && b.timerFreq != 0))
  {
  }

  lemma FoundIsNamed(named: seq<u64>, cpu: seq<CpuFact>, boot: u64)
    requires |cpu| == |named| && forall i :: 0 <= i < |cpu| ==> cpu[i].mpidr == Cpus.Mask(named[i])
    ensures (exists i :: 0 <= i < |cpu| && cpu[i].mpidr == boot)
       <==> (exists i :: 0 <= i < |named| && Cpus.Mask(named[i]) == boot)
  {
    if i :| 0 <= i < |named| && Cpus.Mask(named[i]) == boot { assert cpu[i].mpidr == boot; }
  }

  // ---- What corroboration is for -----------------------------------------------------

  /** S3's record as S4 finds it: S3 never names a timer interrupt (foundation/facts/fdt.c:173-174). */
  function FromS3(valid: bool, found: Fdt.Cand): Candidate {
    Candidate(valid, found, 0)
  }

  /** What S3 leaves is what S4 needs: no more entries than the fact table holds, CPU numbers without
      doubles once masked, and a timer interrupt that S4 never refuses. */
  lemma S3FitsS4(valid: bool, found: Fdt.Cand, b: Board, boot: u64, cntfrq: u64)
    requires Fdt.Fit(found)
    ensures var c := FromS3(valid, found);
      && |c.found.mem| <= MEM_FACT_MAX && |c.found.cpus| <= CPU_BOUND
      && (DtbCpus(c) ==> forall i, j :: 0 <= i < j < |Named(c, b, boot)| ==>
            Cpus.Mask(Named(c, b, boot)[i]) != Cpus.Mask(Named(c, b, boot)[j]))
      && (TimerAgrees(c, b, cntfrq) <==> cntfrq != 0 || (b.present && b.timerFreq != 0))
  {
    hide Cpus.Mask;
    var cpus := found.cpus;
    forall i, j | 0 <= i < j < |cpus| ensures Cpus.Mask(cpus[i]) != Cpus.Mask(cpus[j]) {
      assert Cpus.Masked(cpus[i]) && Cpus.Masked(cpus[j]);
    }
  }

  /** The CPUs that S4 accepts are fit for S8 and S10: masked, distinct when the list that named them
      was, and the boot CPU among them. */
  lemma CpusFitS8(c: Candidate, b: Board, boot: u64, cpu: seq<CpuFact>, mpidrs: seq<u64>)
    requires |cpu| == |mpidrs| == |Named(c, b, boot)|
    requires forall i :: 0 <= i < |cpu| ==> CpuOk(c, b, boot, Named(c, b, boot)[i], cpu[i]) && mpidrs[i] == cpu[i].mpidr
    requires exists i :: 0 <= i < |cpu| && cpu[i].mpidr == boot
    requires forall i, j :: 0 <= i < j < |cpu| ==>
      Cpus.Mask(Named(c, b, boot)[i]) != Cpus.Mask(Named(c, b, boot)[j])
    ensures forall i :: 0 <= i < |mpidrs| ==> Cpus.Masked(mpidrs[i])
    ensures Cpus.Distinct(mpidrs) && boot in mpidrs
  {
    hide Cpus.Mask, Named;
    forall i | 0 <= i < |mpidrs| ensures Cpus.Masked(mpidrs[i]) {
      Cpus.MaskTwice(Named(c, b, boot)[i]);
    }
    var i :| 0 <= i < |cpu| && cpu[i].mpidr == boot;
    assert mpidrs[i] == boot;
  }
}
