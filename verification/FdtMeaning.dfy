/** What the device tree makes of the boot facts, in terms of its nodes and their properties: the field by
    field meaning of the post-order fold (foundation/facts/fdt.c, S3). */
module FdtMeaning {
  import opened Words
  import opened Fdt
  import opened FdtTree
  import FdtBytes
  import Cpus

  // ---- A list of nodes ---------------------------------------------------------------

  /** The entries of all memory nodes, in order. */
  function MemoryOf(ns: seq<Info>): seq<Range> {
    if ns == [] then []
    else MemoryOf(ns[..|ns| - 1]) + if ns[|ns| - 1].isMem then ns[|ns| - 1].regs else []
  }

  predicate NamesCpu(n: Info) {
    n.isCpu && |n.regs| > 0
  }

  /** The masked numbers of all CPU nodes, in order. */
  function CpusOf(ns: seq<Info>): seq<u64> {
    if ns == [] then []
    else CpusOf(ns[..|ns| - 1]) + if NamesCpu(ns[|ns| - 1]) then [Cpus.Mask(ns[|ns| - 1].regs[0].base)] else []
  }

  /** Every element once, where it comes first. */
  function Firsts(s: seq<u64>): (r: seq<u64>)
    ensures forall x :: x in r <==> x in s
    ensures Cpus.Distinct(r)
  {
    if s == [] then []
    else
      var r, x := Firsts(s[..|s| - 1]), s[|s| - 1];
      assert s == s[..|s| - 1] + [x];
      if x in r then r else r + [x]
  }

  predicate Gic(n: Info) { n.isGic && |n.regs| >= 2 }

  predicate SizedGic(n: Info) { Gic(n) && n.regs[0].size != 0 }

  ghost predicate FirstSized(ns: seq<Info>, i: nat) {
    i < |ns| && SizedGic(ns[i]) && forall j | 0 <= j < i :: !SizedGic(ns[j])
  }

  ghost predicate LastGic(ns: seq<Info>, i: nat) {
    i < |ns| && Gic(ns[i]) && forall j | i < j < |ns| :: !Gic(ns[j])
  }

  /** The interrupt controller: the first node with two entries of which the first is not empty, or else the
      last with two entries; its first entry is the distributor and its second the redistributors. */
  ghost predicate Controllers(ns: seq<Info>, gicd: Range, gicr: Range) {
    && (forall i: nat | FirstSized(ns, i) :: gicd == ns[i].regs[0] && gicr == ns[i].regs[1])
    && (gicd.size == 0 <==> forall i | 0 <= i < |ns| :: !SizedGic(ns[i]))
    && (gicd.size == 0 ==> forall i: nat | LastGic(ns, i) :: gicd == ns[i].regs[0] && gicr == ns[i].regs[1])
    && ((forall i | 0 <= i < |ns| :: !Gic(ns[i])) ==> gicd == gicr == Range(0, 0))
  }

  predicate Uart(n: Info) { n.isUart && |n.regs| > 0 }

  ghost predicate LastUart(ns: seq<Info>, i: nat) {
    i < |ns| && Uart(ns[i]) && forall j | i < j < |ns| :: !Uart(ns[j])
  }

  /** The console: the first entry of the last node that has one. */
  ghost predicate Console(ns: seq<Info>, before: Range, uart: Range, valid: bool) {
    && (forall i: nat | LastUart(ns, i) :: uart == ns[i].regs[0])
    && (valid <==> exists i :: 0 <= i < |ns| && Uart(ns[i]))
    && (!valid ==> uart == before)
  }

  predicate Conduit(n: Info) { n.isPsci && n.psci != 0 }

  ghost predicate LastConduit(ns: seq<Info>, i: nat) {
    i < |ns| && Conduit(ns[i]) && forall j | i < j < |ns| :: !Conduit(ns[j])
  }

  ghost predicate Power(ns: seq<Info>, psci: u32) {
    && (forall i: nat | LastConduit(ns, i) :: psci == ns[i].psci)
    && ((forall i | 0 <= i < |ns| :: !Conduit(ns[i])) ==> psci == 0)
  }

  /** What the record says, field by field. */
  ghost predicate Means(ns: seq<Info>, before: Range, c: Cand) {
    && c.mem == MemoryOf(ns) && c.cpus == Firsts(CpusOf(ns))
    && Controllers(ns, c.gicd, c.gicr) && Console(ns, before, c.uart, c.uartValid) && Power(ns, c.psci)
  }

  /** The nodes that the decoder accepts: no memory entry is empty or wraps, and there are no more than
      eight of them, nor of CPUs. */
  ghost predicate Acceptable(ns: seq<Info>) {
    && (forall r <- MemoryOf(ns) :: 0 < r.size && r.base + r.size < TWO64)
    && |MemoryOf(ns)| <= 8 && |Firsts(CpusOf(ns))| <= 8
  }

  // ---- One node ----------------------------------------------------------------------

  lemma {:induction false} AddMemsMeans(c: Cand, rs: seq<Range>)
    ensures |c.mem| <= 8 ==>
      (AddMems(c, rs).Ok? <==> |c.mem| + |rs| <= 8 && forall r <- rs :: 0 < r.size && r.base + r.size < TWO64)
    ensures AddMems(c, rs).Ok? ==> AddMems(c, rs).cand == c.(mem := c.mem + rs)
    decreases |rs|
  {
    hide RangeOk;
    if rs == [] {
      assert c.mem + rs == c.mem;
    } else {
      RangeOkMeans(rs[0].base, rs[0].size);
      assert rs == [rs[0]] + rs[1..];
      if AddMem(c, rs[0]).Ok? {
        AddMemsMeans(AddMem(c, rs[0]).cand, rs[1..]);
        assert (c.mem + [rs[0]]) + rs[1..] == c.mem + rs;
      }
    }
  }

  /** What a node adds to the record, field by field. */
  predicate Adds(n: Info, c: Cand, d: Cand) {
    && d.mem == c.mem + (if n.isMem then n.regs else [])
    && d.cpus == (if NamesCpu(n) && Cpus.Mask(n.regs[0].base) !in c.cpus then c.cpus + [Cpus.Mask(n.regs[0].base)]
                  else c.cpus)
    && (if Gic(n) && c.gicd.size == 0 then d.gicd == n.regs[0] && d.gicr == n.regs[1]
        else d.gicd == c.gicd && d.gicr == c.gicr)
    && (if Uart(n) then d.uart == n.regs[0] && d.uartValid else d.uart == c.uart && d.uartValid == c.uartValid)
    && d.psci == if Conduit(n) then n.psci else c.psci
  }

  /** The end of one node succeeds when there is room and every memory entry is a range. */
  lemma EndNodeMeans(n: Info, c: Cand)
    ensures |c.mem| <= 8 && |c.cpus| <= 8 ==>
      (EndNode(n, c).Ok? <==>
        && (n.isMem ==> |c.mem| + |n.regs| <= 8 && forall r <- n.regs :: 0 < r.size && r.base + r.size < TWO64)
        && (NamesCpu(n) ==> Cpus.Mask(n.regs[0].base) in c.cpus || |c.cpus| < 8))
    ensures EndNode(n, c).Ok? ==> Adds(n, c, EndNode(n, c).cand)
  {
    hide AddMems, Cpus.Mask;
    AddMemsMeans(c, n.regs);
    assert c.mem + [] == c.mem;
  }

  // ---- The fold ----------------------------------------------------------------------

  lemma GrowsBy(ns: seq<Info>, n: Info)
    ensures MemoryOf(ns + [n]) == MemoryOf(ns) + if n.isMem then n.regs else []
    ensures CpusOf(ns + [n]) == CpusOf(ns) + if NamesCpu(n) then [Cpus.Mask(n.regs[0].base)] else []
  {
    hide Cpus.Mask;
    assert (ns + [n])[..|ns|] == ns;
  }

  lemma FirstsGrow(s: seq<u64>, x: u64)
    ensures Firsts(s + [x]) == if x in s then Firsts(s) else Firsts(s) + [x]
  {
    assert (s + [x])[..|s|] == s;
  }

  lemma AddAllGrows(ns: seq<Info>, n: Info, c: Cand)
    ensures AddAll(ns + [n], c) == var r := AddAll(ns, c); if r.Ok? then EndNode(n, r.cand) else r
  {
    hide EndNode;
    AddAllSplits(ns, [n], c);
    var r := AddAll(ns, c);
    if r.Ok? { AddOne(n, r.cand); }
  }

  lemma ControllersGrow(ns: seq<Info>, n: Info, gicd: Range, gicr: Range)
    requires Controllers(ns, gicd, gicr)
    ensures if Gic(n) && gicd.size == 0 then Controllers(ns + [n], n.regs[0], n.regs[1])
            else Controllers(ns + [n], gicd, gicr)
  {
    var more := ns + [n];
    assert forall i | 0 <= i < |ns| :: more[i] == ns[i];
    assert more[|ns|] == n;
    forall i: nat | FirstSized(more, i) && i < |ns| ensures FirstSized(ns, i) { }
    forall i: nat | LastGic(more, i) && i < |ns| ensures LastGic(ns, i) { }
    if gicd.size != 0 {
      var k :| 0 <= k < |ns| && SizedGic(ns[k]);
      assert SizedGic(more[k]);
      forall i: nat | FirstSized(more, i) ensures i < |ns| { }
    }
  }

  lemma ConsoleGrows(ns: seq<Info>, n: Info, before: Range, uart: Range, valid: bool)
    requires Console(ns, before, uart, valid)
    ensures if Uart(n) then Console(ns + [n], before, n.regs[0], true) else Console(ns + [n], before, uart, valid)
  {
    var more := ns + [n];
    assert forall i | 0 <= i < |ns| :: more[i] == ns[i];
    assert more[|ns|] == n;
    forall i: nat | LastUart(more, i) && i < |ns| ensures LastUart(ns, i) { }
    if i :| 0 <= i < |ns| && Uart(ns[i]) { assert Uart(more[i]); }
  }

  lemma PowerGrows(ns: seq<Info>, n: Info, psci: u32)
    requires Power(ns, psci)
    ensures Power(ns + [n], if Conduit(n) then n.psci else psci)
  {
    var more := ns + [n];
    assert forall i | 0 <= i < |ns| :: more[i] == ns[i];
    assert more[|ns|] == n;
    forall i: nat | LastConduit(more, i) && i < |ns| ensures LastConduit(ns, i) { }
  }

  lemma MeansNothing(before: Range)
    ensures Means([], before, Empty(before)) && Acceptable([])
  {
  }

  lemma MeansMore(ns: seq<Info>, n: Info, before: Range, c: Cand)
    requires Means(ns, before, c) && Acceptable(ns)
    ensures EndNode(n, c).Ok? <==> Acceptable(ns + [n])
    ensures EndNode(n, c).Ok? ==> Means(ns + [n], before, EndNode(n, c).cand)
  {
    hide EndNode, Controllers, Console, Power, Cpus.Mask, MemoryOf, CpusOf, Firsts;
    EndNodeMeans(n, c);
    GrowsBy(ns, n);
    ControllersGrow(ns, n, c.gicd, c.gicr);
    ConsoleGrows(ns, n, before, c.uart, c.uartValid);
    PowerGrows(ns, n, c.psci);
    assert MemoryOf(ns) + [] == MemoryOf(ns) && CpusOf(ns) + [] == CpusOf(ns);
    if NamesCpu(n) { FirstsGrow(CpusOf(ns), Cpus.Mask(n.regs[0].base)); }
  }

  lemma NotYet(ns: seq<Info>, n: Info)
    requires Acceptable(ns + [n])
    ensures Acceptable(ns)
  {
    hide Cpus.Mask, Firsts;
    GrowsBy(ns, n);
    assert CpusOf(ns) + [] == CpusOf(ns);
    if NamesCpu(n) { FirstsGrow(CpusOf(ns), Cpus.Mask(n.regs[0].base)); }
  }

  /** The fold succeeds exactly for acceptable nodes, and then the record says what they mean. */
  lemma {:induction false} FoldMeans(ns: seq<Info>, before: Range)
    ensures AddAll(ns, Empty(before)).Ok? <==> Acceptable(ns)
    ensures AddAll(ns, Empty(before)).Ok? ==> Means(ns, before, AddAll(ns, Empty(before)).cand)
    decreases |ns|
  {
    hide EndNode, Means, Acceptable, AddAll;
    if ns == [] {
      MeansNothing(before);
      assert AddAll([], Empty(before)) == Ok(Empty(before)) by { AddNone(before); }
    } else {
      var init, n := ns[..|ns| - 1], ns[|ns| - 1];
      assert ns == init + [n];
      FoldMeans(init, before);
      AddAllGrows(init, n, Empty(before));
      if Acceptable(ns) { NotYet(init, n); }
      if Acceptable(init) { MeansMore(init, n, before, AddAll(init, Empty(before)).cand); }
    }
  }

  lemma AddNone(before: Range)
    ensures AddAll([], Empty(before)) == Ok(Empty(before))
  {
  }

  // ---- One node in terms of its properties -------------------------------------------

  ghost predicate Typed(p: Property, text: string) {
    p.name == "device_type" && |p.value| >= 4 && IsText(Text(p.value), text)
  }

  ghost predicate Claims(p: Property, text: string) {
    p.name == "compatible" && Lists(p.value, text)
  }

  ghost predicate SomeTyped(props: seq<Property>, text: string) {
    exists i :: 0 <= i < |props| && Typed(props[i], text)
  }

  ghost predicate SomeClaims(props: seq<Property>, text: string) {
    exists i :: 0 <= i < |props| && Claims(props[i], text)
  }

  predicate Counts(p: Property, name: string) { p.name == name && |p.value| == 4 }

  ghost predicate LastCount(props: seq<Property>, name: string, i: nat) {
    i < |props| && Counts(props[i], name) && forall j | i < j < |props| :: !Counts(props[j], name)
  }

  /** A cell count for the children: the last property of that name with four bytes, or what the parent has. */
  ghost predicate CellCount(props: seq<Property>, name: string, inherited: u32, cells: u32) {
    && (forall i: nat | LastCount(props, name, i) :: cells == Word(props[i].value))
    && ((forall i | 0 <= i < |props| :: !Counts(props[i], name)) ==> cells == inherited)
  }

  predicate Calls(p: Property) {
    p.name == "method" && (IsText(Text(p.value), "hvc") || IsText(Text(p.value), "smc"))
  }

  ghost predicate LastCall(props: seq<Property>, i: nat) {
    i < |props| && Calls(props[i]) && forall j | i < j < |props| :: !Calls(props[j])
  }

  /** The conduit: 2 for HVC and 1 for SMC, by the last `method` that names one. */
  ghost predicate Method(props: seq<Property>, psci: u32) {
    && (forall i: nat | LastCall(props, i) :: psci == if IsText(Text(props[i].value), "hvc") then 2 else 1)
    && ((forall i | 0 <= i < |props| :: !Calls(props[i])) ==> psci == 0)
  }

  ghost predicate LastReg(props: seq<Property>, i: nat) {
    i < |props| && props[i].name == "reg" && forall j | i < j < |props| :: props[j].name != "reg"
  }

  /** The entries of `reg`, read with the cell counts of the parent. A second `reg` replaces the first,
      unless there are no size cells and it is not one address. */
  ghost predicate Registers(props: seq<Property>, ac: u32, sc: u32, regs: seq<Range>) {
    && (forall i: nat | LastReg(props, i) :: regs == RegOf(props[i].value, ac, sc, [])
         || (sc == 0 && exists j: nat :: j < i && props[j].name == "reg"))
    && ((forall i | 0 <= i < |props| :: props[i].name != "reg") ==> regs == [])
  }

  /** What a node with these properties is, below a parent with these cell counts. */
  ghost predicate Describes(props: seq<Property>, ac: u32, sc: u32, n: Info) {
    && (n.isMem <==> SomeTyped(props, "memory")) && (n.isCpu <==> SomeTyped(props, "cpu"))
    && (n.isGic <==> SomeClaims(props, "arm,gic-v3"))
    && (n.isUart <==> SomeClaims(props, "arm,pl011") || SomeClaims(props, "arm,pl011-axi"))
    && (n.isPsci <==>
          SomeClaims(props, "arm,psci") || SomeClaims(props, "arm,psci-0.2") || SomeClaims(props, "arm,psci-1.0"))
    && CellCount(props, "#address-cells", ac, n.ac) && CellCount(props, "#size-cells", sc, n.sc)
    && Method(props, n.psci) && Registers(props, ac, sc, n.regs)
    && n.regAc == ac && n.regSc == sc
  }

  lemma EffectsGrow(props: seq<Property>, p: Property, n: Info)
    ensures Effects(props + [p], n) == Effect(p, Effects(props, n))
  {
    hide Effect;
    EffectsSplit(props, [p], n);
    assert [p][1..] == [];
  }

  lemma TypedGrows(props: seq<Property>, p: Property, text: string)
    ensures SomeTyped(props + [p], text) <==> SomeTyped(props, text) || Typed(p, text)
  {
    hide Typed;
    var more := props + [p];
    assert forall i | 0 <= i < |props| :: more[i] == props[i];
    assert more[|props|] == p;
    if i :| 0 <= i < |props| && Typed(props[i], text) { assert Typed(more[i], text); }
  }

  lemma ClaimsGrow(props: seq<Property>, p: Property, text: string)
    ensures SomeClaims(props + [p], text) <==> SomeClaims(props, text) || Claims(p, text)
  {
    hide Claims;
    var more := props + [p];
    assert forall i | 0 <= i < |props| :: more[i] == props[i];
    assert more[|props|] == p;
    if i :| 0 <= i < |props| && Claims(props[i], text) { assert Claims(more[i], text); }
  }

  lemma CountGrows(props: seq<Property>, p: Property, name: string, inherited: u32, cells: u32)
    requires CellCount(props, name, inherited, cells)
    ensures CellCount(props + [p], name, inherited, if Counts(p, name) then Word(p.value) else cells)
  {
    hide Counts, Word;
    var more := props + [p];
    assert forall i | 0 <= i < |props| :: more[i] == props[i];
    assert more[|props|] == p;
    forall i: nat | LastCount(more, name, i) && i < |props| ensures LastCount(props, name, i) { }
  }

  lemma MethodGrows(props: seq<Property>, p: Property, psci: u32)
    requires Method(props, psci)
    ensures Method(props + [p], if Calls(p) then (if IsText(Text(p.value), "hvc") then 2 else 1) else psci)
  {
    hide Calls, IsText, Text;
    var more := props + [p];
    assert forall i | 0 <= i < |props| :: more[i] == props[i];
    assert more[|props|] == p;
    forall i: nat | LastCall(more, i) && i < |props| ensures LastCall(props, i) { }
  }

  lemma RegistersGrow(props: seq<Property>, p: Property, ac: u32, sc: u32, regs: seq<Range>)
    requires Registers(props, ac, sc, regs)
    ensures Registers(props + [p], ac, sc, if p.name == "reg" then RegOf(p.value, ac, sc, regs) else regs)
  {
    hide Entries, Number64;
    var more := props + [p];
    assert forall i | 0 <= i < |props| :: more[i] == props[i];
    assert more[|props|] == p;
    forall i: nat | LastReg(more, i) && i < |props| ensures LastReg(props, i) { }
    if p.name == "reg" && exists j: nat :: j < |props| && props[j].name == "reg" {
      var j: nat :| j < |props| && props[j].name == "reg";
      assert more[j].name == "reg";
    }
  }

  lemma KindIs(name: string)
    ensures KindOf(name) == AddressCells <==> name == "#address-cells"
    ensures KindOf(name) == SizeCells <==> name == "#size-cells"
    ensures KindOf(name) == DeviceType <==> name == "device_type"
    ensures KindOf(name) == Compatible <==> name == "compatible"
    ensures KindOf(name) == Reg <==> name == "reg"
    ensures KindOf(name) == FdtTree.Method <==> name == "method"
  {
  }

  lemma TypeEffect(p: Property, n: Info)
    ensures var e := Effect(p, n);
      (e.isMem <==> n.isMem || Typed(p, "memory")) && (e.isCpu <==> n.isCpu || Typed(p, "cpu"))
  {
    hide IsText, Text, KindOf, EffectOf;
    KindIs(p.name);
    OtherFlags(KindOf(p.name), p.value, n);
    if p.name == "device_type" { TypeSet(p.value, n); }
  }

  lemma TypeSet(v: seq<u8>, n: Info)
    ensures var e := EffectOf(DeviceType, v, n);
      && (e.isMem <==> n.isMem || (|v| >= 4 && IsText(Text(v), "memory")))
      && (e.isCpu <==> n.isCpu || (|v| >= 4 && IsText(Text(v), "cpu")))
  {
    hide IsText, Text;
  }

  lemma ClaimEffect(p: Property, n: Info)
    ensures var e := Effect(p, n);
      && (e.isGic <==> n.isGic || Claims(p, "arm,gic-v3"))
      && (e.isUart <==> n.isUart || Claims(p, "arm,pl011") || Claims(p, "arm,pl011-axi"))
      && (e.isPsci <==> n.isPsci || Claims(p, "arm,psci") || Claims(p, "arm,psci-0.2") || Claims(p, "arm,psci-1.0"))
  {
    hide Lists, KindOf, EffectOf;
    KindIs(p.name);
    OtherFlags(KindOf(p.name), p.value, n);
    if p.name == "compatible" { ClaimSet(p.value, n); }
  }

  lemma ClaimSet(v: seq<u8>, n: Info)
    ensures var e := EffectOf(Compatible, v, n);
      && (e.isGic <==> n.isGic || Lists(v, "arm,gic-v3"))
      && (e.isUart <==> n.isUart || Lists(v, "arm,pl011") || Lists(v, "arm,pl011-axi"))
      && (e.isPsci <==> n.isPsci || Lists(v, "arm,psci") || Lists(v, "arm,psci-0.2") || Lists(v, "arm,psci-1.0"))
  {
    hide Lists;
  }

  lemma CountEffect(p: Property, n: Info)
    ensures var e := Effect(p, n);
      && e.ac == (if Counts(p, "#address-cells") then Word(p.value) else n.ac)
      && e.sc == (if Counts(p, "#size-cells") then Word(p.value) else n.sc)
      && e.regAc == n.regAc && e.regSc == n.regSc
  {
    hide KindOf, EffectOf, Word;
    KindIs(p.name);
    OwnFields(KindOf(p.name), p.value, n);
    CellsSet(p.value, n);
  }

  lemma OtherEffect(p: Property, n: Info)
    ensures var e := Effect(p, n);
      && e.psci == (if Calls(p) then (if IsText(Text(p.value), "hvc") then 2 else 1) else n.psci)
      && e.regs == (if p.name == "reg" then RegOf(p.value, n.regAc, n.regSc, n.regs) else n.regs)
  {
    hide KindOf, EffectOf, IsText, Text, RegOf;
    KindIs(p.name);
    OwnFields(KindOf(p.name), p.value, n);
    MethodSet(p.value, n);
    RegSet(p.value, n);
  }

  lemma RegSet(v: seq<u8>, n: Info)
    ensures EffectOf(Reg, v, n).regs == RegOf(v, n.regAc, n.regSc, n.regs)
  {
    hide RegOf;
  }

  lemma DescribesNothing(ac: u32, sc: u32)
    ensures Describes([], ac, sc, Blank(ac, sc))
  {
  }

  lemma DescribesMore(props: seq<Property>, p: Property, ac: u32, sc: u32, n: Info)
    requires Describes(props, ac, sc, n)
    ensures Describes(props + [p], ac, sc, Effect(p, n))
  {
    hide Effect, SomeTyped, SomeClaims, CellCount, Method, Registers, Typed, Claims, Counts, Calls, RegOf;
    TypeEffect(p, n);
    ClaimEffect(p, n);
    CountEffect(p, n);
    OtherEffect(p, n);
    TypedGrows(props, p, "memory");
    TypedGrows(props, p, "cpu");
    ClaimsGrow(props, p, "arm,gic-v3");
    ClaimsGrow(props, p, "arm,pl011");
    ClaimsGrow(props, p, "arm,pl011-axi");
    ClaimsGrow(props, p, "arm,psci");
    ClaimsGrow(props, p, "arm,psci-0.2");
    ClaimsGrow(props, p, "arm,psci-1.0");
    CountGrows(props, p, "#address-cells", ac, n.ac);
    CountGrows(props, p, "#size-cells", sc, n.sc);
    MethodGrows(props, p, n.psci);
    RegistersGrow(props, p, ac, sc, n.regs);
  }

  /** The properties of a node, in any number and order, say exactly this of it. */
  lemma {:induction false} NodeMeans(props: seq<Property>, ac: u32, sc: u32)
    ensures Describes(props, ac, sc, Effects(props, Blank(ac, sc)))
    decreases |props|
  {
    hide Effect, Effects, Describes;
    if props == [] {
      DescribesNothing(ac, sc);
      assert Effects([], Blank(ac, sc)) == Blank(ac, sc) by { NoEffects(Blank(ac, sc)); }
    } else {
      var init, p := props[..|props| - 1], props[|props| - 1];
      assert props == init + [p];
      NodeMeans(init, ac, sc);
      EffectsGrow(init, p, Blank(ac, sc));
      DescribesMore(init, p, ac, sc, Effects(init, Blank(ac, sc)));
    }
  }

  lemma NoEffects(n: Info)
    ensures Effects([], n) == n
  {
  }

  // ---- The entries of a reg value ----------------------------------------------------

  lemma Quotient(q: nat, r: nat, d: nat)
    requires r < d
    ensures (q * d + r) / d == q
  {
    var a := (q * d + r) / d;
    assert (q * d + r) == a * d + (q * d + r) % d;
    if a < q { assert (a + 1) * d <= q * d by { Monotone(a + 1, q, d); } }
    if a > q { assert (q + 1) * d <= a * d by { Monotone(q + 1, a, d); } }
  }

  lemma SignOf(q: nat, d: nat)
    requires 0 < q * d
    ensures 0 < q
  {
  }

  lemma Shorter(len: nat, step: nat)
    requires 0 < step <= len
    ensures (len - step) / step == len / step - 1
  {
    var q, r := len / step, len % step;
    assert len == q * step + r;
    SignOf(q, step);
    Later(q, step);
    Quotient(q - 1, r, step);
  }

  lemma Later(k: nat, step: nat)
    requires 0 < k
    ensures k * step == step + (k - 1) * step
  {
  }

  lemma Monotone(a: nat, b: nat, step: nat)
    requires a <= b
    ensures a * step <= b * step
  {
  }

  /** The address and then the size, big-endian, from byte `at` on. */
  function EntryAt(v: seq<u8>, at: nat, ac: nat, sc: nat): Range
    requires at + 4 * (ac + sc) <= |v|
  {
    Range(Number64(v[at..at + 4 * ac]), Number64(v[at + 4 * ac..at + 4 * (ac + sc)]))
  }

  lemma EntryMoved(v: seq<u8>, n: nat, at: nat, ac: nat, sc: nat)
    requires n + at + 4 * (ac + sc) <= |v|
    ensures EntryAt(v[n..], at, ac, sc) == EntryAt(v, n + at, ac, sc)
  {
    hide Number64;
    var rest := v[n..];
    assert rest[at..at + 4 * ac] == v[n + at..n + at + 4 * ac];
    assert rest[at + 4 * ac..at + 4 * (ac + sc)] == v[n + at + 4 * ac..n + at + 4 * (ac + sc)];
  }

  lemma NextEntry(v: seq<u8>, ac: nat, sc: nat, left: nat)
    requires 0 < ac + sc
    ensures Entries(v, ac, sc, left)
         == if |v| < 4 * (ac + sc) || left == 0 then []
            else [EntryAt(v, 0, ac, sc)] + Entries(v[4 * (ac + sc)..], ac, sc, left - 1)
  {
    hide Number64;
  }

  /** There are as many entries as fit, at most `left`. */
  lemma {:induction false} EntryCount(v: seq<u8>, ac: nat, sc: nat, left: nat)
    requires 0 < ac + sc
    ensures var n := |v| / (4 * (ac + sc)); |Entries(v, ac, sc, left)| == if n < left then n else left
    decreases left
  {
    hide Entries;
    NextEntry(v, ac, sc, left);
    var step := 4 * (ac + sc);
    if |v| >= step && left > 0 {
      Shorter(|v|, step);
      EntryCount(v[step..], ac, sc, left - 1);
    } else if |v| < step {
      Quotient(0, |v|, step);
    }
  }

  /** Entry `k` is the one at the `k`th place of the value. */
  lemma {:induction false} EntriesMean(v: seq<u8>, ac: nat, sc: nat, left: nat, k: nat)
    requires 0 < ac + sc && k < |Entries(v, ac, sc, left)|
    ensures k * (4 * (ac + sc)) + 4 * (ac + sc) <= |v|
    ensures Entries(v, ac, sc, left)[k] == EntryAt(v, k * (4 * (ac + sc)), ac, sc)
    decreases left
  {
    hide Entries, EntryAt;
    NextEntry(v, ac, sc, left);
    var step := 4 * (ac + sc);
    if k > 0 {
      EntriesMean(v[step..], ac, sc, left - 1, k - 1);
      Later(k, step);
      EntryMoved(v, step, (k - 1) * step, ac, sc);
    } else {
      assert 0 * step == 0;
    }
  }

  // ---- The whole blob ----------------------------------------------------------------

  /** S3 on a blob that holds a tree: it succeeds exactly when the tree is no more than 15 high and its
      nodes, children before their parent, are acceptable; then the record is what those nodes mean. */
  lemma BlobMeans(m: Memory, ptr: u64, image: Range, size: u32, h: Header, reserved: u32, version: u32,
                  compatible: u32, bootCpu: u32, t: Tree, toks: seq<Token>, off: string -> nat, uart: Range)
    requires ptr != 0 && ptr % 8 == 0 && 40 <= size <= PROBE_CAP && ptr + size < TWO64
    requires RangeOk(image.base, image.size)
    requires forall x :: InRange(x, ptr, size) ==> !InRange(x, image.base, image.size)
    requires h.start <= h.end <= size && h.strings + h.sizeStrings <= size
    requires FdtBytes.At(m, 0, FdtBytes.HeaderBytes(size, h, reserved, version, compatible, bootCpu))
    requires Strip(toks) == Flatten(t) && FdtBytes.Written(m, h, h.start, toks, off) && SaneTree(t, 2, 1)
    ensures var r, ns := S3(m, ptr, image, uart), PostOrder(t, 2, 1);
      && (r.Ok? <==> Height(t) <= 15 && Acceptable(ns)) && (r.Ok? || r == Failed)
      && (r.Ok? ==> Means(ns, uart, r.cand))
  {
    hide FdtBytes.At, FdtBytes.HeaderBytes, FdtBytes.Written, Strip, Flatten, PostOrder, SaneTree, AddAll, Means,
         Acceptable, InRange, S3;
    FdtBytes.BlobRoundTrip(m, ptr, image, size, h, reserved, version, compatible, bootCpu, t, toks, off, uart);
    FoldMeans(PostOrder(t, 2, 1), uart);
    AddAllNeverWraps(PostOrder(t, 2, 1), Empty(uart));
  }
}
