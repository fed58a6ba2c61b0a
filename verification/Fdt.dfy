/** The device-tree decoder (foundation/facts/fdt.c, S3) as it reads bytes: a token walk with a stack
    of open nodes. Offsets are relative to the blob; memory is total, as the code may read past the
    blob. Wherever a 32-bit sum of offsets would wrap, the walk ends with `Wraps`. */
module Fdt {
  import opened Words
  import Cpus

  const MAX_REGS: nat := 4
  const MAX_DEPTH: nat := 16
  const PROBE_CAP: nat := 0x10_0000

  const MAGIC: u32 := 0xd00d_feed
  const BEGIN_NODE: u32 := 1
  const END_NODE: u32 := 2
  const PROP: u32 := 3
  const NOP: u32 := 4
  const END: u32 := 9

  const PSCI_SMC: u32 := 1
  const PSCI_HVC: u32 := 2

  type Memory = nat -> u8

  // ---- Reading -----------------------------------------------------------------------

  function Be32(m: Memory, p: nat): u32 {
    m(p) * 0x100_0000 + m(p + 1) * 0x1_0000 + m(p + 2) * 0x100 + m(p + 3)
  }

  /** v << 32 | w, in 64 bits */
  function Shift32(v: u64, w: u32): u64 {
    v % 0x1_0000_0000 * 0x1_0000_0000 + w
  }

  /** Four times a cell count, in 32 bits. */
  function Times4(cells: nat): u32 {
    cells % 0x4000_0000 * 4
  }

  /** be_cells */
  function BeCells(m: Memory, p: nat, cells: nat): u64 {
    if cells == 0 then 0
    else Shift32(BeCells(m, p, cells - 1), Be32(m, p + Times4(cells - 1)))
  }

  /** str_eq of the bytes at `p` with a literal: the literal, then a NUL. */
  predicate StrEq(m: Memory, p: nat, lit: string) {
    && (forall i :: 0 <= i < |lit| ==> m(p + i) == lit[i] as int)
    && m(p + |lit|) == 0
  }

  /** The number of bytes before the first NUL, at most `max`. */
  function StrLen(m: Memory, p: nat, max: nat): (n: nat)
    ensures n <= max && (n < max ==> m(p + n) == 0)
    ensures forall q :: p <= q < p + n ==> m(q) != 0
    decreases max
  {
    if max == 0 || m(p) == 0 then 0 else StrLen(m, p + 1, max - 1) + 1
  }

  /** str_has: one of the NUL-separated strings in `len` bytes is the literal. */
  predicate StrHas(m: Memory, p: nat, len: nat, want: string)
    decreases len
  {
    if len == 0 then false
    else
      var n := StrLen(m, p, len);
      StrEq(m, p, want) || (n + 1 <= len && StrHas(m, p + n + 1, len - (n + 1), want))
  }

  function Align4(v: nat): (r: nat)
    ensures v <= r < v + 4 && r % 4 == 0
  {
    (v + 3) / 4 * 4
  }

  // ---- Nodes -------------------------------------------------------------------------

  /** struct nxu_fdt_node; `regs` holds the first nreg entries. */
  datatype Info = Info(ac: u32, sc: u32, regAc: u32, regSc: u32, isMem: bool, isCpu: bool, isGic: bool,
                       isUart: bool, isPsci: bool, psci: u32, regs: seq<Range>)

  /** The record that every END_NODE adds to. */
  datatype Cand = Cand(mem: seq<Range>, cpus: seq<u64>, gicd: Range, gicr: Range, uart: Range, uartValid: bool,
                       psci: u32)

  datatype Outcome = Ok(cand: Cand) | Failed | Wraps

  function Blank(ac: u32, sc: u32): Info {
    Info(ac, sc, ac, sc, false, false, false, false, false, 0, [])
  }

  /** The (address, size) pairs of a reg value, at most four of them. */
  function RegList(m: Memory, p: nat, len: nat, ac: nat, sc: nat, step: nat, off: nat, count: nat): seq<Range>
    requires 0 < step
    decreases MAX_REGS - count
  {
    if off + step <= len && count < MAX_REGS
    then [Range(BeCells(m, p + off, ac), BeCells(m, p + off + Times4(ac), sc))]
         + RegList(m, p, len, ac, sc, step, off + step, count + 1)
    else []
  }

  /** parse_reg: `was` stays where the code returns without counting. */
  function ParseReg(m: Memory, p: nat, len: nat, ac0: u32, sc: u32, was: seq<Range>): seq<Range> {
    var ac := if ac0 == 0 then 1 else ac0;
    if sc == 0 then
      if len == Times4(ac) then [Range(BeCells(m, p, ac), 0)] else was
    else
      var step := Times4(ac + sc);
      if step == 0 then was else RegList(m, p, len, ac, sc, step, 0, 0)
  }

  /** One property, with its name at `name` and its `len` bytes of value at `p`. */
  function ApplyProp(m: Memory, name: nat, p: nat, len: nat, n: Info): Info {
    if StrEq(m, name, "#address-cells") && len == 4 then n.(ac := Be32(m, p))
    else if StrEq(m, name, "#size-cells") && len == 4 then n.(sc := Be32(m, p))
    else if StrEq(m, name, "device_type") && len >= 4 then
      n.(isMem := n.isMem || StrEq(m, p, "memory"), isCpu := n.isCpu || StrEq(m, p, "cpu"))
    else if StrEq(m, name, "compatible") then
      n.(isGic := n.isGic || StrHas(m, p, len, "arm,gic-v3"),
         isUart := n.isUart || StrHas(m, p, len, "arm,pl011") || StrHas(m, p, len, "arm,pl011-axi"),
         isPsci := n.isPsci || StrHas(m, p, len, "arm,psci") || StrHas(m, p, len, "arm,psci-0.2")
                   || StrHas(m, p, len, "arm,psci-1.0"))
    else if StrEq(m, name, "reg") then n.(regs := ParseReg(m, p, len, n.regAc, n.regSc, n.regs))
    else if StrEq(m, name, "method") then
      if StrEq(m, p, "hvc") then n.(psci := PSCI_HVC)
      else if StrEq(m, p, "smc") then n.(psci := PSCI_SMC)
      else n
    else n
  }

  // ---- What the end of a node does ---------------------------------------------------

  function AddMem(c: Cand, r: Range): Outcome {
    if !RangeOk(r.base, r.size) || |c.mem| >= MEM_FACT_MAX then Failed else Ok(c.(mem := c.mem + [r]))
  }

  function AddMems(c: Cand, rs: seq<Range>): Outcome
    decreases |rs|
  {
    if rs == [] then Ok(c)
    else
      var r := AddMem(c, rs[0]);
      if r.Ok? then AddMems(r.cand, rs[1..]) else r
  }

  function AddCpu(c: Cand, raw: u64): Outcome {
    var m := Cpus.Mask(raw);
    if m in c.cpus then Ok(c)
    else if |c.cpus| >= CPU_BOUND then Failed
    else Ok(c.(cpus := c.cpus + [m]))
  }

  /** What a node says about controllers, the console and the power interface. */
  function AddDevices(c: Cand, n: Info): Cand {
    var c1 := if n.isGic && |n.regs| >= 2 && c.gicd.size == 0 then c.(gicd := n.regs[0], gicr := n.regs[1]) else c;
    var c2 := if n.isUart && |n.regs| > 0 then c1.(uart := n.regs[0], uartValid := true) else c1;
    if n.isPsci && n.psci != 0 then c2.(psci := n.psci) else c2
  }

  function EndNode(n: Info, c: Cand): Outcome {
    var r := if n.isMem then AddMems(c, n.regs) else Ok(c);
    if !r.Ok? then r
    else
      var q := if n.isCpu && |n.regs| > 0 then AddCpu(r.cand, n.regs[0].base) else r;
      if q.Ok? then Ok(AddDevices(q.cand, n)) else q
  }

  // ---- The walk ----------------------------------------------------------------------

  /** Where the two blocks lie; `end` is the end of the structure block. */
  datatype Header = Header(start: nat, end: nat, strings: nat, sizeStrings: nat)

  datatype Walk = Walk(pos: nat, stack: seq<Info>, cand: Cand)

  datatype Next = More(w: Walk) | Stop(result: Outcome)

  function Top(w: Walk): Info
    requires w.stack != []
  {
    w.stack[|w.stack| - 1]
  }

  /** One token. */
  function Step(m: Memory, h: Header, w: Walk): (r: Next)
    requires w.stack != [] && w.pos + 4 <= h.end
    ensures r.More? ==> w.pos + 4 <= r.w.pos && r.w.stack != []
  {
    var tok, p, n := Be32(m, w.pos), w.pos + 4, |w.stack|;
    if tok == NOP then More(w.(pos := p))
    else if tok == END then Stop(Ok(w.cand))
    else if tok == BEGIN_NODE then
      if n >= MAX_DEPTH then Stop(Failed)
      else More(Walk(Align4(p + StrLen(m, p, h.end - p) + 1), w.stack + [Blank(Top(w).ac, Top(w).sc)], w.cand))
    else if tok == END_NODE then
      var r := EndNode(Top(w), w.cand);
      if !r.Ok? then Stop(r)
      else if n == 1 then Stop(Failed)
      else More(Walk(p, w.stack[..n - 1], r.cand))
    else if tok != PROP then Stop(Failed)
    else PropStep(m, h, w, Be32(m, p), Be32(m, p + 4), p + 8)
  }

  function PropStep(m: Memory, h: Header, w: Walk, plen: u32, nameoff: u32, q: nat): (r: Next)
    requires w.stack != [] && w.pos + 12 <= q
    ensures r.More? ==> w.pos + 4 <= r.w.pos && r.w.stack != []
  {
    if nameoff >= h.sizeStrings then Stop(Failed)
    else if q + plen >= 0x1_0000_0000 then Stop(Wraps)
    else if q + plen > h.end then Stop(Failed)
    else
      var top := ApplyProp(m, h.strings + nameoff, q, plen, Top(w));
      More(Walk(Align4(q + plen), w.stack[|w.stack| - 1 := top], w.cand))
  }

  function RunFrom(m: Memory, h: Header, w: Walk): Outcome
    requires w.stack != []
    decreases h.end - w.pos
  {
    if w.pos + 4 > h.end then Ok(w.cand)
    else
      match Step(m, h, w)
      case Stop(r) => r
      case More(w') => RunFrom(m, h, w')
  }

  // ---- The header --------------------------------------------------------------------

  /** Every field is read at its place; sums that wrap give Wraps. */
  datatype Probe = Absent | Refused | Overflow | Good(h: Header, size: u32)

  function Open(m: Memory, ptr: u64, image: Range): Probe {
    if ptr == 0 then Absent
    else if ptr % 8 != 0 || Be32(m, 0) != MAGIC then Refused
    else
      var size := Be32(m, 4);
      if size < 40 || size > PROBE_CAP || !RangeOk(ptr, size) || RangeOverlap(ptr, size, image.base, image.size)
      then Refused
      else
        var offStruct, offStrings, sizeStrings, sizeStruct := Be32(m, 8), Be32(m, 12), Be32(m, 32), Be32(m, 36);
        if offStruct + sizeStruct >= 0x1_0000_0000 then Overflow
        else if offStruct + sizeStruct > size then Refused
        else if offStrings + sizeStrings >= 0x1_0000_0000 then Overflow
        else if offStrings + sizeStrings > size then Refused
        else Good(Header(offStruct, offStruct + sizeStruct, offStrings, sizeStrings), size)
  }

  function Empty(uart: Range): Cand {
    Cand([], [], Range(0, 0), Range(0, 0), uart, false, 0)
  }

  /** nxu_s3_dtb past the header: the root's defaults are two address cells and one size cell. */
  function Decode(m: Memory, h: Header, uart: Range): Outcome {
    RunFrom(m, h, Walk(h.start, [Blank(2, 1)], Empty(uart)))
  }

  /** nxu_s3_dtb. Without a blob the record stays empty. */
  function S3(m: Memory, ptr: u64, image: Range, uart: Range): Outcome {
    match Open(m, ptr, image)
    case Absent => Ok(Empty(uart))
    case Refused => Failed
    case Overflow => Wraps
    case Good(h, _) => Decode(m, h, uart)
  }

  /** A header is accepted exactly when the pointer is aligned, the magic number is there, the blob is of
      a legal size and shares no byte with the image, and both blocks lie inside it. */
  lemma HeaderAccepted(m: Memory, ptr: u64, image: Range)
    requires RangeOk(image.base, image.size)
    ensures var size, start, strings := Be32(m, 4), Be32(m, 8), Be32(m, 12);
      Open(m, ptr, image).Good? <==>
        && ptr != 0 && ptr % 8 == 0 && Be32(m, 0) == MAGIC && 40 <= size <= PROBE_CAP && ptr + size < TWO64
        && (forall x :: InRange(x, ptr, size) ==> !InRange(x, image.base, image.size))
        && start + Be32(m, 36) <= size && strings + Be32(m, 32) <= size
    ensures Open(m, ptr, image).Good? ==>
      var h := Open(m, ptr, image).h;
      && h.start == Be32(m, 8) && h.strings == Be32(m, 12) && h.sizeStrings == Be32(m, 32)
      && h.start <= h.end == h.start + Be32(m, 36) <= Open(m, ptr, image).size == Be32(m, 4)
      && h.strings + h.sizeStrings <= Open(m, ptr, image).size
  {
    hide Be32;
    OverlapMeans(ptr, Be32(m, 4), image.base, image.size);
    RangeOkMeans(ptr, Be32(m, 4));
  }

  // ---- What any candidate satisfies --------------------------------------------------

  /** What later stages rely on, whatever the bytes were. */
  predicate Fit(c: Cand) {
    && |c.mem| <= MEM_FACT_MAX && (forall i :: 0 <= i < |c.mem| ==> RangeOk(c.mem[i].base, c.mem[i].size))
    && |c.cpus| <= CPU_BOUND && (forall i :: 0 <= i < |c.cpus| ==> Cpus.Masked(c.cpus[i]))
    && Cpus.Distinct(c.cpus)
  }

  lemma {:induction false} AddMemsFit(c: Cand, rs: seq<Range>)
    requires Fit(c)
    ensures AddMems(c, rs).Ok? ==> Fit(AddMems(c, rs).cand)
    decreases |rs|
  {
    hide Cpus.Mask;
    if rs != [] && AddMem(c, rs[0]).Ok? { AddMemsFit(AddMem(c, rs[0]).cand, rs[1..]); }
  }

  lemma AddCpuFit(c: Cand, raw: u64)
    requires Fit(c)
    ensures AddCpu(c, raw).Ok? ==> Fit(AddCpu(c, raw).cand)
  {
    hide Cpus.Mask;
    Cpus.MaskTwice(raw);
  }

  lemma AddDevicesFit(c: Cand, n: Info)
    requires Fit(c)
    ensures Fit(AddDevices(c, n))
  {
  }

  lemma EndNodeFit(n: Info, c: Cand)
    requires Fit(c)
    ensures EndNode(n, c).Ok? ==> Fit(EndNode(n, c).cand)
  {
    hide Fit, AddMems, AddCpu, AddDevices;
    AddMemsFit(c, n.regs);
    var r := if n.isMem then AddMems(c, n.regs) else Ok(c);
    if r.Ok? {
      if |n.regs| > 0 { AddCpuFit(r.cand, n.regs[0].base); }
      var q := if n.isCpu && |n.regs| > 0 then AddCpu(r.cand, n.regs[0].base) else r;
      if q.Ok? { AddDevicesFit(q.cand, n); }
    }
  }

  /** Every candidate, from any bytes at all, holds at most eight memory ranges, none of which wraps,
      and at most eight masked CPU numbers without doubles. */
  lemma {:induction false} DecodedFit(m: Memory, h: Header, w: Walk)
    requires w.stack != [] && Fit(w.cand)
    ensures RunFrom(m, h, w).Ok? ==> Fit(RunFrom(m, h, w).cand)
    decreases h.end - w.pos
  {
    hide Fit, EndNode, ApplyProp, Be32, StrLen;
    if w.pos + 4 <= h.end {
      EndNodeFit(Top(w), w.cand);
      var r := Step(m, h, w);
      if r.More? { DecodedFit(m, h, r.w); }
    }
  }
}
