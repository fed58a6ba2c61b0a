/** The device-tree decoder as the kernel runs it (foundation/facts/fdt.c): loops over bytes, a node
    stack and a candidate that are changed in place. Each loop is proved against the walk of Fdt. */
module FdtDecoder {
  import opened Words
  import opened Fdt
  import opened FdtTree
  import FdtBytes
  import FdtMeaning
  import Cpus

  // ---- Reading loops -----------------------------------------------------------------

  /** be_cells */
  method ReadCells(m: Memory, p: nat, cells: nat) returns (v: u64)
    ensures v == BeCells(m, p, cells)
  {
    v := 0;
    for i := 0 to cells
      invariant v == BeCells(m, p, i)
    {
      v := Shift32(v, Be32(m, p + Times4(i)));
    }
  }

  /** A literal with the NUL behind it. */
  function LiteralAt(lit: string, i: nat): int
    requires i <= |lit|
  {
    if i < |lit| then lit[i] as int else 0
  }

  /** str_eq */
  method SameString(m: Memory, p: nat, lit: string) returns (same: bool)
    requires Plain(lit)
    ensures same <==> StrEq(m, p, lit)
  {
    var i := 0;
    while m(p + i) != 0 && m(p + i) == LiteralAt(lit, i)
      invariant i <= |lit| && forall j :: 0 <= j < i ==> m(p + j) == lit[j] as int
      decreases |lit| - i
    {
      i := i + 1;
    }
    same := m(p + i) == LiteralAt(lit, i);
    assert i < |lit| && !same ==> m(p + i) != lit[i] as int;
  }

  method StringLength(m: Memory, p: nat, max: nat) returns (n: nat)
    ensures n == StrLen(m, p, max)
  {
    n := 0;
    while n < max && m(p + n) != 0
      invariant n <= max && StrLen(m, p, max) == n + StrLen(m, p + n, max - n)
    {
      n := n + 1;
    }
  }

  /** str_has */
  method HasString(m: Memory, p: nat, len: nat, want: string) returns (has: bool)
    requires Plain(want)
    ensures has <==> StrHas(m, p, len, want)
  {
    hide StrEq, StrLen, Plain;
    var i := 0;
    while i < len
      invariant i <= len ==> (StrHas(m, p, len, want) <==> StrHas(m, p + i, len - i, want))
      invariant i > len ==> !StrHas(m, p, len, want)
    {
      var n := StringLength(m, p + i, len - i);
      var same := SameString(m, p + i, want);
      if same { return true; }
      i := i + (n + 1);
    }
    has := false;
  }

  lemma EntryFirst(m: Memory, p: nat, len: nat, ac: nat, sc: nat, step: nat, off: nat, count: nat)
    requires 0 < step
    ensures RegList(m, p, len, ac, sc, step, off, count)
         == if off + step <= len && count < MAX_REGS
            then [Range(BeCells(m, p + off, ac), BeCells(m, p + off + Times4(ac), sc))]
                 + RegList(m, p, len, ac, sc, step, off + step, count + 1)
            else []
  {
  }

  /** The loop of parse_reg over whole entries. */
  method ReadEntries(m: Memory, p: nat, len: nat, ac: nat, sc: nat, step: nat) returns (regs: seq<Range>)
    requires 0 < step
    ensures regs == RegList(m, p, len, ac, sc, step, 0, 0)
  {
    hide BeCells, Times4, Be32, RegList;
    var off: nat := 0;
    regs := [];
    while off + step <= len && |regs| < MAX_REGS
      invariant |regs| <= MAX_REGS
      invariant RegList(m, p, len, ac, sc, step, 0, 0) == regs + RegList(m, p, len, ac, sc, step, off, |regs|)
      decreases MAX_REGS - |regs|
    {
      var base := ReadCells(m, p + off, ac);
      var size := ReadCells(m, p + off + Times4(ac), sc);
      ghost var rest := RegList(m, p, len, ac, sc, step, off + step, |regs| + 1);
      EntryFirst(m, p, len, ac, sc, step, off, |regs|);
      assert regs + ([Range(base, size)] + rest) == (regs + [Range(base, size)]) + rest;
      regs := regs + [Range(base, size)];
      off := off + step;
    }
    EntryFirst(m, p, len, ac, sc, step, off, |regs|);
  }

  /** parse_reg */
  method ReadReg(m: Memory, p: nat, len: nat, ac0: u32, sc: u32, was: seq<Range>) returns (regs: seq<Range>)
    ensures regs == ParseReg(m, p, len, ac0, sc, was)
  {
    hide BeCells, RegList, Times4;
    var ac := if ac0 == 0 then 1 else ac0;
    regs := was;
    if sc == 0 {
      if len == Times4(ac) {
        var base := ReadCells(m, p, ac);
        regs := [Range(base, 0)];
      }
      return;
    }
    var step := Times4(ac + sc);
    if step == 0 { return; }
    regs := ReadEntries(m, p, len, ac, sc, step);
  }

  /** One property, as the branches of the decoder take it. */
  method ReadProp(m: Memory, name: nat, p: nat, len: nat, was: Info) returns (n: Info)
    ensures n == ApplyProp(m, name, p, len, was)
  {
    hide StrEq, StrHas, ParseReg, Be32, Plain;
    FdtBytes.Literals();
    n := was;
    var isAc := SameString(m, name, "#address-cells");
    if isAc && len == 4 { n := n.(ac := Be32(m, p)); return; }
    var isSc := SameString(m, name, "#size-cells");
    if isSc && len == 4 { n := n.(sc := Be32(m, p)); return; }
    var isType := SameString(m, name, "device_type");
    if isType && len >= 4 {
      var memory := SameString(m, p, "memory");
      if memory { n := n.(isMem := true); }
      var cpu := SameString(m, p, "cpu");
      if cpu { n := n.(isCpu := true); }
      return;
    }
    var isCompatible := SameString(m, name, "compatible");
    if isCompatible { n := ReadCompatible(m, p, len, was); return; }
    var isReg := SameString(m, name, "reg");
    if isReg {
      var regs := ReadReg(m, p, len, n.regAc, n.regSc, n.regs);
      n := n.(regs := regs);
      return;
    }
    var isMethod := SameString(m, name, "method");
    if isMethod {
      var hvc := SameString(m, p, "hvc");
      if hvc { n := n.(psci := PSCI_HVC); return; }
      var smc := SameString(m, p, "smc");
      if smc { n := n.(psci := PSCI_SMC); }
    }
  }

  method ReadCompatible(m: Memory, p: nat, len: nat, was: Info) returns (n: Info)
    ensures n == was.(isGic := was.isGic || StrHas(m, p, len, "arm,gic-v3"),
         isUart := was.isUart || StrHas(m, p, len, "arm,pl011") || StrHas(m, p, len, "arm,pl011-axi"),
         isPsci := was.isPsci || StrHas(m, p, len, "arm,psci") || StrHas(m, p, len, "arm,psci-0.2")
                   || StrHas(m, p, len, "arm,psci-1.0"))
  {
    hide StrHas, Plain;
    FdtBytes.Literals();
    n := was;
    var gic := HasString(m, p, len, "arm,gic-v3");
    if gic { n := n.(isGic := true); }
    var pl011 := HasString(m, p, len, "arm,pl011");
    var axi := HasString(m, p, len, "arm,pl011-axi");
    if pl011 || axi { n := n.(isUart := true); }
    var psci := HasString(m, p, len, "arm,psci");
    var psci02 := HasString(m, p, len, "arm,psci-0.2");
    var psci10 := HasString(m, p, len, "arm,psci-1.0");
    if psci || psci02 || psci10 { n := n.(isPsci := true); }
  }

  // ---- The decoder -------------------------------------------------------------------

  class Decoder {
    const m: Memory
    const h: Header
    const st: array<Info>
    var pos: nat
    var depth: nat
    var cand: Cand

    ghost predicate Valid()
      reads this, st
    {
      st.Length == MAX_DEPTH && depth < MAX_DEPTH
    }

    ghost function State(): (w: Walk)
      requires Valid()
      reads this, st
      ensures w.stack != []
    {
      Walk(pos, st[..depth + 1], cand)
    }

    /** The setup of nxu_s3_dtb once the header is accepted. */
    constructor (m: Memory, h: Header, uart: Range)
      ensures Valid() && fresh(st) && this.m == m && this.h == h
      ensures State() == Walk(h.start, [Blank(2, 1)], Empty(uart))
    {
      this.m, this.h := m, h;
      st := new Info[MAX_DEPTH](_ => Blank(2, 1));
      pos, depth, cand := h.start, 0, Empty(uart);
      new;
      assert st[..1] == [Blank(2, 1)];
    }

    method AddMemory(regs: seq<Range>) returns (ok: bool)
      modifies this`cand
      ensures AddMems(old(cand), regs) == if ok then Ok(cand) else Failed
    {
      for k := 0 to |regs|
        invariant AddMems(old(cand), regs) == AddMems(cand, regs[k..])
      {
        assert regs[k..][1..] == regs[k + 1..];
        var r := regs[k];
        if !RangeOk(r.base, r.size) || |cand.mem| >= MEM_FACT_MAX { return false; }
        cand := cand.(mem := cand.mem + [r]);
      }
      ok := true;
    }

    /** add_cpu */
    method AddOne(raw: u64) returns (ok: bool)
      modifies this`cand
      ensures AddCpu(old(cand), raw) == if ok then Ok(cand) else Failed
    {
      var mpidr := Cpus.Mask(raw);
      for i := 0 to |cand.cpus|
        invariant cand == old(cand) && mpidr !in cand.cpus[..i]
      {
        if cand.cpus[i] == mpidr { return true; }
        assert cand.cpus[..i + 1] == cand.cpus[..i] + [cand.cpus[i]];
      }
      assert cand.cpus[..|cand.cpus|] == cand.cpus;
      if |cand.cpus| >= CPU_BOUND { return false; }
      cand := cand.(cpus := cand.cpus + [mpidr]);
      ok := true;
    }

    /** The end of the current node. */
    method Close() returns (ok: bool)
      requires Valid()
      modifies this`cand
      ensures EndNode(st[depth], old(cand)) == if ok then Ok(cand) else Failed
      ensures ok ==> FdtMeaning.Adds(st[depth], old(cand), cand)
    {
      hide AddMems, AddCpu, FdtMeaning.Adds;
      FdtMeaning.EndNodeMeans(st[depth], cand);
      var n := st[depth];
      ok := true;
      if n.isMem { ok := AddMemory(n.regs); }
      if !ok { return; }
      if n.isCpu && |n.regs| > 0 { ok := AddOne(n.regs[0].base); }
      if !ok { return; }
      if n.isGic && |n.regs| >= 2 && cand.gicd.size == 0 { cand := cand.(gicd := n.regs[0], gicr := n.regs[1]); }
      if n.isUart && |n.regs| > 0 { cand := cand.(uart := n.regs[0], uartValid := true); }
      if n.isPsci && n.psci != 0 { cand := cand.(psci := n.psci); }
    }

    method Open(p: nat) returns (ok: bool)
      requires Valid() && p <= h.end
      modifies this`pos, this`depth, st
      ensures Valid()
      ensures ok <==> old(depth) + 1 < MAX_DEPTH
      ensures ok ==> State() == Walk(Align4(p + StrLen(m, p, h.end - p) + 1),
                                     old(State()).stack + [Blank(old(st[depth]).ac, old(st[depth]).sc)], old(cand))
    {
      var nlen := StringLength(m, p, h.end - p);
      ok := depth + 1 < MAX_DEPTH;
      if !ok { return; }
      ghost var was := st[..depth + 1];
      depth := depth + 1;
      st[depth] := Blank(st[depth - 1].ac, st[depth - 1].sc);
      assert st[..depth] == was;
      pos := Align4(p + nlen + 1);
    }

    /** A property token, whose three words end at `q`. */
    method Property(plen: u32, nameoff: u32, q: nat) returns (out: Outcome)
      requires Valid() && pos + 12 <= q
      modifies this`pos, st
      ensures Valid()
      ensures var r := PropStep(m, h, old(State()), plen, nameoff, q);
        if out.Ok? then r == More(State()) else r == Stop(out)
    {
      hide ApplyProp, Align4;
      if nameoff >= h.sizeStrings { return Failed; }
      if q + plen >= 0x1_0000_0000 { return Wraps; }
      if q + plen > h.end { return Failed; }
      ghost var was := st[..depth + 1];
      var n := ReadProp(m, h.strings + nameoff, q, plen, st[depth]);
      st[depth] := n;
      assert st[..depth + 1] == was[depth := n];
      pos := Align4(q + plen);
      out := Ok(cand);
    }

    /** One round of the walk; `again` says whether it goes on. */
    method Token() returns (again: bool, out: Outcome)
      requires Valid() && pos + 4 <= h.end
      modifies this, st
      ensures Valid()
      ensures var r := Step(m, h, old(State()));
        if again then r == More(State()) else r == Stop(out)
    {
      hide ApplyProp, EndNode, StrLen, Be32, Align4, PropStep, RunFrom;
      ghost var w := State();
      var tok, p := Be32(m, pos), pos + 4;
      again, out := true, Failed;
      if tok == NOP {
        pos := p;
      } else if tok == END {
        again, out := false, Ok(cand);
      } else if tok == BEGIN_NODE {
        again := Open(p);
      } else if tok == END_NODE {
        again := Close();
        if again && depth == 0 { again := false; }
        if again {
          depth, pos := depth - 1, p;
          assert st[..depth + 1] == w.stack[..depth + 1];
        }
      } else if tok != PROP {
        again := false;
      } else {
        out := Property(Be32(m, p), Be32(m, p + 4), p + 8);
        again := out.Ok?;
      }
    }

    /** The token walk of nxu_s3_dtb. */
    method Run() returns (out: Outcome)
      requires Valid()
      modifies this, st
      ensures out == RunFrom(m, h, old(State()))
    {
      hide Step;
      var again;
      while pos + 4 <= h.end
        invariant Valid() && RunFrom(m, h, State()) == RunFrom(m, h, old(State()))
        decreases h.end - pos
      {
        again, out := Token();
        if !again { return; }
      }
      out := Ok(cand);
    }
  }

  /** nxu_s3_dtb: `ok` is false where the kernel stops; otherwise a candidate is valid unless no blob
      was handed over. */
  method Probe(m: Memory, ptr: u64, image: Range, uart: Range) returns (out: Outcome, valid: bool, size: u32)
    ensures out == S3(m, ptr, image, uart)
    ensures out.Ok? ==> (valid <==> ptr != 0) && (valid ==> size == Be32(m, 4))
  {
    valid, size := false, 0;
    match Fdt.Open(m, ptr, image)
    case Absent => out := Ok(Empty(uart));
    case Refused => out := Failed;
    case Overflow => out := Wraps;
    case Good(h, s) =>
      var d := new Decoder(m, h, uart);
      out := d.Run();
      valid, size := true, s;
  }
}
