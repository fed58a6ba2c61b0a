/** The structure block as bytes: encoding a list of tokens, and the proof that the decoder reads back
    from the bytes exactly what was written, so that decoding an encoded tree is the post-order fold. */
module FdtBytes {
  import opened Words
  import opened Fdt
  import opened FdtTree

  // ---- Encoding ----------------------------------------------------------------------

  function U32(v: u32): (b: seq<u8>)
    ensures |b| == 4
  {
    [v / 0x100_0000, v / 0x1_0000 % 0x100, v / 0x100 % 0x100, v % 0x100]
  }

  function Chars(s: string): (b: seq<u8>)
    requires Plain(s)
    ensures |b| == |s| && forall i :: 0 <= i < |s| ==> b[i] == s[i] as int
  {
    seq(|s|, i requires 0 <= i < |s| => s[i] as int)
  }

  function Zeros(n: nat): (b: seq<u8>)
    ensures |b| == n && forall i :: 0 <= i < n ==> b[i] == 0
  {
    seq(n, _ => 0)
  }

  /** Zero bytes up to the next multiple of four. */
  function Padded(b: seq<u8>): (r: seq<u8>)
    ensures |r| == Align4(|b|)
  {
    b + Zeros(Align4(|b|) - |b|)
  }

  /** A token that can be written, given where the strings block holds each property name. */
  predicate Writable(tok: Token, off: string -> nat) {
    match tok
    case Begin(name) => Plain(name)
    case Prop(p) => |p.value| < 0x1_0000_0000 && off(p.name) < 0x1_0000_0000
    case _ => true
  }

  function PropHead(p: Property, off: string -> nat): (b: seq<u8>)
    requires Writable(Prop(p), off)
    ensures |b| == 12
  {
    U32(PROP) + U32(|p.value|) + U32(off(p.name))
  }

  function TokenBytes(tok: Token, off: string -> nat): (b: seq<u8>)
    requires Writable(tok, off)
    ensures 4 <= |b| && |b| % 4 == 0
  {
    match tok
    case Nop => U32(NOP)
    case Begin(name) => U32(BEGIN_NODE) + Padded(Chars(name) + [0])
    case Prop(p) => PropHead(p, off) + Padded(p.value)
    case End => U32(END_NODE)
  }

  function Encode(toks: seq<Token>, off: string -> nat): (b: seq<u8>)
    requires forall i :: 0 <= i < |toks| ==> Writable(toks[i], off)
    ensures 4 <= |b|
  {
    if toks == [] then U32(END) else TokenBytes(toks[0], off) + Encode(toks[1..], off)
  }

  // ---- Bytes in memory ---------------------------------------------------------------

  ghost predicate At(m: Memory, p: nat, b: seq<u8>) {
    forall i {:trigger b[i]} :: 0 <= i < |b| ==> m(p + i) == b[i]
  }

  lemma AtSplits(m: Memory, p: nat, a: seq<u8>, b: seq<u8>)
    requires At(m, p, a + b)
    ensures At(m, p, a) && At(m, p + |a|, b)
  {
    forall i {:trigger a[i]} | 0 <= i < |a| ensures m(p + i) == a[i] {
      assert (a + b)[i] == a[i];
    }
    forall i {:trigger b[i]} | 0 <= i < |b| ensures m(p + |a| + i) == b[i] {
      assert (a + b)[|a| + i] == b[i];
    }
  }

  lemma AtFirst(m: Memory, p: nat, b: seq<u8>)
    requires At(m, p, b) && b != []
    ensures m(p) == b[0]
  {
    assert m(p + 0) == b[0];
  }

  lemma AtSlice(m: Memory, p: nat, b: seq<u8>, i: nat, j: nat)
    requires At(m, p, b) && i <= j <= |b|
    ensures At(m, p + i, b[i..j])
  {
    forall k {:trigger b[i..j][k]} | 0 <= k < j - i ensures m(p + i + k) == b[i..j][k] {
      assert b[i..j][k] == b[i + k];
    }
  }

  lemma WordAt(m: Memory, p: nat, v: seq<u8>)
    requires At(m, p, v) && |v| == 4
    ensures Be32(m, p) == Word(v)
  {
    assert m(p + 0) == v[0] && m(p + 1) == v[1] && m(p + 2) == v[2] && m(p + 3) == v[3];
  }

  lemma U32At(m: Memory, p: nat, n: u32)
    requires At(m, p, U32(n))
    ensures Be32(m, p) == n
  {
    WordAt(m, p, U32(n));
    Digits(n);
  }

  lemma Digits(n: u32)
    ensures n / 0x100_0000 * 0x100_0000 + n / 0x1_0000 % 0x100 * 0x1_0000 + n / 0x100 % 0x100 * 0x100 + n % 0x100 == n
  {
    var a := n / 0x100;
    var b := a / 0x100;
    assert b == n / 0x1_0000 && b / 0x100 == n / 0x100_0000;
  }

  // ---- Numbers -----------------------------------------------------------------------

  lemma NumberPush(a: seq<u8>, x: u8)
    ensures Number(a + [x]) == Number(a) * 0x100 + x
  {
    assert (a + [x])[..|a|] == a;
  }

  lemma NumberWord(a: seq<u8>, w: seq<u8>)
    requires |w| == 4
    ensures Number(a + w) == Number(a) * 0x1_0000_0000 + Word(w)
  {
    NumberPush(a, w[0]);
    NumberPush(a + [w[0]], w[1]);
    NumberPush(a + [w[0]] + [w[1]], w[2]);
    NumberPush(a + [w[0]] + [w[1]] + [w[2]], w[3]);
    assert a + [w[0]] + [w[1]] + [w[2]] + [w[3]] == a + w;
  }

  lemma ShiftWraps(x: nat, w: u32)
    ensures Shift32(x % 0x1_0000_0000_0000_0000, w) == (x * 0x1_0000_0000 + w) % 0x1_0000_0000_0000_0000
  {
    var q, r := x / 0x1_0000_0000, x % 0x1_0000_0000;
    LowHalf(x);
    WrapOnce(q, r * 0x1_0000_0000 + w);
  }

  lemma WrapOnce(q: nat, low: nat)
    requires low < 0x1_0000_0000_0000_0000
    ensures (q * 0x1_0000_0000_0000_0000 + low) % 0x1_0000_0000_0000_0000 == low
  {
  }

  lemma LowHalf(x: nat)
    ensures x % 0x1_0000_0000_0000_0000 % 0x1_0000_0000 == x % 0x1_0000_0000
  {
    var q := x / 0x1_0000_0000_0000_0000;
    var y := x % 0x1_0000_0000_0000_0000;
    assert x == q * 0x1_0000_0000 * 0x1_0000_0000 + y;
  }

  /** Cells are read as one big-endian number, of which the low 64 bits stay. */
  lemma {:induction false} CellsAt(m: Memory, p: nat, v: seq<u8>, cells: nat)
    requires At(m, p, v) && |v| == 4 * cells && cells < 0x4000_0000
    ensures BeCells(m, p, cells) == Number64(v)
  {
    hide Shift32, Number, Word, Be32;
    if cells > 0 {
      var n := 4 * (cells - 1);
      var a, w := v[..n], v[n..];
      assert v == a + w;
      AtSplits(m, p, a, w);
      CellsAt(m, p, a, cells - 1);
      WordAt(m, p + n, w);
      NumberWord(a, w);
      ShiftWraps(Number(a), Word(w));
      assert Times4(cells - 1) == n;
    } else {
      NumberNone();
    }
  }

  lemma NumberNone()
    ensures Number64([]) == 0
  {
  }

  lemma FourTimes(cells: nat)
    requires cells < 0x4000_0000
    ensures Times4(cells) == 4 * cells
  {
  }

  lemma {:induction false} EntriesAt(m: Memory, p: nat, v: seq<u8>, ac: nat, sc: nat, off: nat, count: nat)
    requires At(m, p, v) && off <= |v| && 0 < ac + sc < 0x4000_0000 && count <= MAX_REGS
    ensures RegList(m, p, |v|, ac, sc, 4 * (ac + sc), off, count) == Entries(v[off..], ac, sc, MAX_REGS - count)
    decreases MAX_REGS - count
  {
    hide BeCells, Number, At, Times4;
    var step := 4 * (ac + sc);
    if off + step <= |v| && count < MAX_REGS {
      var rest := v[off..];
      AtSlice(m, p, v, off, off + 4 * ac);
      AtSlice(m, p, v, off + 4 * ac, off + step);
      assert rest[..4 * ac] == v[off..off + 4 * ac] && rest[4 * ac..step] == v[off + 4 * ac..off + step];
      CellsAt(m, p + off, rest[..4 * ac], ac);
      CellsAt(m, p + off + 4 * ac, rest[4 * ac..step], sc);
      FourTimes(ac);
      EntriesAt(m, p, v, ac, sc, off + step, count + 1);
      assert rest[step..] == v[off + step..];
    }
  }

  /** A reg value in memory is read as it is meant exactly when it is sane; a value that repeats what an
      earlier reg of the node already said is the one exception. */
  lemma RegAt(m: Memory, p: nat, v: seq<u8>, ac: u32, sc: u32, was: seq<Range>)
    requires At(m, p, v) && |v| < 0x1_0000_0000
    ensures RegSane(|v|, ac, sc, was) ==> ParseReg(m, p, |v|, ac, sc, was) == RegOf(v, ac, sc, was)
    ensures ParseReg(m, p, |v|, ac, sc, was) == RegOf(v, ac, sc, was) && (sc != 0 || was == []) ==>
              RegSane(|v|, ac, sc, was)
  {
    hide BeCells, Number, Times4, Entries, RegList;
    var ac' := if ac == 0 then 1 else ac;
    if sc == 0 {
      if ac' < 0x4000_0000 {
        FourTimes(ac');
        if |v| == 4 * ac' { CellsAt(m, p, v, ac'); }
      }
    } else if ac' + sc < 0x4000_0000 {
      FourTimes(ac' + sc);
      EntriesAt(m, p, v, ac', sc, 0, 0);
      assert v[0..] == v;
    } else {
      NoEntries(m, p, v, ac', sc);
    }
  }

  /** Entries of 4 GiB or more: there are none, and the decoder sees that unless the wrapped size fits. */
  lemma NoEntries(m: Memory, p: nat, v: seq<u8>, ac: nat, sc: nat)
    requires |v| < 0x1_0000_0000 && ac + sc >= 0x4000_0000
    ensures Entries(v, ac, sc, 4) == []
    ensures var step := Times4(ac + sc);
      0 < step ==> (RegList(m, p, |v|, ac, sc, step, 0, 0) == [] <==> |v| < step)
  {
    hide BeCells, Number, Times4;
  }

  // ---- Strings -----------------------------------------------------------------------

  lemma LiteralByte(m: Memory, p: nat, lit: string, i: nat)
    requires StrEq(m, p, lit) && Plain(lit) && i < |lit|
    ensures m(p + i) != 0
  {
    assert m(p + i) == lit[i] as int;
  }

  lemma TextByte(m: Memory, p: nat, t: seq<u8>, i: nat)
    requires At(m, p, t) && (forall k :: 0 <= k < |t| ==> t[k] != 0) && i < |t|
    ensures m(p + i) != 0
  {
    assert m(p + i) == t[i];
  }

  lemma StringAt(m: Memory, p: nat, t: seq<u8>, lit: string)
    requires At(m, p, t) && m(p + |t|) == 0 && Plain(lit) && forall i :: 0 <= i < |t| ==> t[i] != 0
    ensures StrEq(m, p, lit) <==> IsText(t, lit)
  {
    if StrEq(m, p, lit) {
      if |t| < |lit| { LiteralByte(m, p, lit, |t|); }
      if |t| > |lit| { TextByte(m, p, t, |lit|); }
      forall i | 0 <= i < |t| ensures t[i] == lit[i] as int { assert m(p + i) == t[i]; }
    }
    if IsText(t, lit) {
      forall i | 0 <= i < |lit| ensures m(p + i) == lit[i] as int { assert m(p + i) == t[i]; }
    }
  }

  lemma ByteAt(m: Memory, p: nat, b: seq<u8>, i: nat)
    requires At(m, p, b) && i < |b|
    ensures m(p + i) == b[i]
  {
  }

  lemma TextAt(m: Memory, p: nat, v: seq<u8>, lit: string)
    requires At(m, p, v) && m(p + |v|) == 0 && Plain(lit)
    ensures StrEq(m, p, lit) <==> IsText(Text(v), lit)
  {
    hide Text, StrEq, IsText, Plain, At;
    var t := Text(v);
    AtSlice(m, p, v, 0, |t|);
    assert v[0..|t|] == t;
    if |t| < |v| { ByteAt(m, p, v, |t|); }
    StringAt(m, p, t, lit);
  }

  lemma {:induction false} LengthAt(m: Memory, p: nat, v: seq<u8>)
    requires At(m, p, v)
    ensures StrLen(m, p, |v|) == |Text(v)|
    decreases |v|
  {
    if v != [] {
      assert m(p + 0) == v[0];
      if v[0] != 0 {
        AtSlice(m, p, v, 1, |v|);
        assert v[1..|v|] == v[1..];
        LengthAt(m, p + 1, v[1..]);
      }
    }
  }

  /** The list search finds the string exactly when it is one of the strings listed. */
  lemma {:induction false} HasAt(m: Memory, p: nat, v: seq<u8>, want: string)
    requires At(m, p, v) && m(p + |v|) == 0 && Plain(want)
    ensures StrHas(m, p, |v|, want) <==> Lists(v, want)
    decreases |v|
  {
    hide StrEq, IsText, Text, Lists, Pieces, At;
    if v == [] {
      ListsNone(want);
    } else {
      var n := |Text(v)|;
      LengthAt(m, p, v);
      TextAt(m, p, v, want);
      if n < |v| {
        var rest := v[n + 1..];
        AtSlice(m, p, v, n + 1, |v|);
        assert v[n + 1..|v|] == rest;
        HasAt(m, p + (n + 1), rest, want);
        ListsFirst(v, want);
      } else {
        ListsLast(v, want);
      }
    }
  }

  lemma ListsNone(want: string)
    ensures !Lists([], want)
  {
  }

  lemma ListsLast(v: seq<u8>, want: string)
    requires v != [] && |Text(v)| == |v|
    ensures Lists(v, want) <==> IsText(Text(v), want)
  {
    hide IsText;
    assert Pieces(v) == [Text(v)];
    if IsText(Text(v), want) { assert IsText(Pieces(v)[0], want); }
  }

  lemma FirstPiece(v: seq<u8>)
    requires v != [] && |Text(v)| < |v|
    ensures Pieces(v) == [Text(v)] + Pieces(v[|Text(v)| + 1..])
  {
    hide Text;
  }

  lemma ListsFirst(v: seq<u8>, want: string)
    requires v != [] && |Text(v)| < |v|
    ensures Lists(v, want) <==> IsText(Text(v), want) || Lists(v[|Text(v)| + 1..], want)
  {
    hide IsText, Text, Pieces;
    FirstPiece(v);
    var all, rest := Pieces(v), Pieces(v[|Text(v)| + 1..]);
    if k :| 0 <= k < |all| && IsText(all[k], want) {
      if k > 0 { assert IsText(rest[k - 1], want); }
    }
    if IsText(Text(v), want) { assert IsText(all[0], want); }
    if k :| 0 <= k < |rest| && IsText(rest[k], want) { assert IsText(all[k + 1], want); }
  }

  // ---- One property ------------------------------------------------------------------

  /** Two strings at one place are the same string. */
  lemma OneString(m: Memory, p: nat, a: string, b: string)
    requires StrEq(m, p, a) && Plain(a) && Plain(b)
    ensures StrEq(m, p, b) <==> a == b
  {
    if StrEq(m, p, b) {
      if |a| < |b| { LiteralByte(m, p, b, |a|); }
      if |b| < |a| { LiteralByte(m, p, a, |b|); }
      forall i | 0 <= i < |a| ensures a[i] == b[i] {
        assert m(p + i) == a[i] as int == b[i] as int;
      }
    }
  }

  lemma PlainNames()
    ensures Plain("#address-cells") && Plain("#size-cells") && Plain("device_type") && Plain("compatible")
    ensures Plain("reg") && Plain("method") && Plain("memory") && Plain("cpu") && Plain("hvc") && Plain("smc")
  {
  }

  lemma PlainModels()
    ensures Plain("arm,gic-v3") && Plain("arm,pl011") && Plain("arm,pl011-axi")
    ensures Plain("arm,psci") && Plain("arm,psci-0.2") && Plain("arm,psci-1.0")
  {
  }

  lemma Literals()
    ensures Plain("#address-cells") && Plain("#size-cells") && Plain("device_type") && Plain("compatible")
    ensures Plain("reg") && Plain("method") && Plain("memory") && Plain("cpu") && Plain("hvc") && Plain("smc")
    ensures Plain("arm,gic-v3") && Plain("arm,pl011") && Plain("arm,pl011-axi")
    ensures Plain("arm,psci") && Plain("arm,psci-0.2") && Plain("arm,psci-1.0")
  {
    hide Plain;
    PlainNames();
    PlainModels();
  }

  lemma NameAt(m: Memory, name: nat, s: string)
    requires StrEq(m, name, s) && Plain(s)
    ensures StrEq(m, name, "#address-cells") <==> s == "#address-cells"
    ensures StrEq(m, name, "#size-cells") <==> s == "#size-cells"
    ensures StrEq(m, name, "device_type") <==> s == "device_type"
    ensures StrEq(m, name, "compatible") <==> s == "compatible"
    ensures StrEq(m, name, "reg") <==> s == "reg"
    ensures StrEq(m, name, "method") <==> s == "method"
  {
    hide StrEq, Plain;
    Literals();
    OneString(m, name, s, "#address-cells");
    OneString(m, name, s, "#size-cells");
    OneString(m, name, s, "device_type");
    OneString(m, name, s, "compatible");
    OneString(m, name, s, "reg");
    OneString(m, name, s, "method");
  }

  /** The decoder's effect by kind of property, as it reads the bytes. */
  function ApplyKind(k: Kind, m: Memory, p: nat, len: nat, n: Info): Info {
    match k
    case AddressCells => if len == 4 then n.(ac := Be32(m, p)) else n
    case SizeCells => if len == 4 then n.(sc := Be32(m, p)) else n
    case DeviceType =>
      if len < 4 then n else n.(isMem := n.isMem || StrEq(m, p, "memory"), isCpu := n.isCpu || StrEq(m, p, "cpu"))
    case Compatible =>
      n.(isGic := n.isGic || StrHas(m, p, len, "arm,gic-v3"),
         isUart := n.isUart || StrHas(m, p, len, "arm,pl011") || StrHas(m, p, len, "arm,pl011-axi"),
         isPsci := n.isPsci || StrHas(m, p, len, "arm,psci") || StrHas(m, p, len, "arm,psci-0.2")
                   || StrHas(m, p, len, "arm,psci-1.0"))
    case Reg => n.(regs := ParseReg(m, p, len, n.regAc, n.regSc, n.regs))
    case Method =>
      if StrEq(m, p, "hvc") then n.(psci := PSCI_HVC)
      else if StrEq(m, p, "smc") then n.(psci := PSCI_SMC)
      else n
    case Other => n
  }

  lemma KindRead(m: Memory, name: nat, s: string, p: nat, len: nat, n: Info)
    requires StrEq(m, name, s) && Plain(s)
    ensures ApplyProp(m, name, p, len, n) == ApplyKind(KindOf(s), m, p, len, n)
  {
    hide StrEq, StrHas, ParseReg, Be32, Plain;
    NameAt(m, name, s);
  }

  lemma CompatibleAt(m: Memory, p: nat, v: seq<u8>, n: Info)
    requires At(m, p, v) && m(p + |v|) == 0
    ensures ApplyKind(Compatible, m, p, |v|, n) == EffectOf(Compatible, v, n)
  {
    hide StrHas, Lists, At, Plain;
    Literals();
    HasAt(m, p, v, "arm,gic-v3");
    HasAt(m, p, v, "arm,pl011");
    HasAt(m, p, v, "arm,pl011-axi");
    HasAt(m, p, v, "arm,psci");
    HasAt(m, p, v, "arm,psci-0.2");
    HasAt(m, p, v, "arm,psci-1.0");
  }

  lemma TypeAt(m: Memory, p: nat, v: seq<u8>, n: Info)
    requires At(m, p, v) && m(p + |v|) == 0
    ensures ApplyKind(DeviceType, m, p, |v|, n) == EffectOf(DeviceType, v, n)
    ensures ApplyKind(Method, m, p, |v|, n) == EffectOf(Method, v, n)
  {
    hide StrEq, IsText, Text, At, Plain;
    Literals();
    TextAt(m, p, v, "memory");
    TextAt(m, p, v, "cpu");
    TextAt(m, p, v, "hvc");
    TextAt(m, p, v, "smc");
  }

  /** The decoder makes of a property in memory what the property means. */
  lemma EffectAt(m: Memory, name: nat, p: nat, prop: Property, n: Info)
    requires StrEq(m, name, prop.name) && Plain(prop.name)
    requires At(m, p, prop.value) && m(p + |prop.value|) == 0 && |prop.value| < 0x1_0000_0000 && SaneProp(prop, n)
    ensures ApplyProp(m, name, p, |prop.value|, n) == Effect(prop, n)
  {
    hide StrEq, StrHas, ParseReg, RegOf, RegSane, Lists, Text, IsText, Plain, ApplyProp;
    KindRead(m, name, prop.name, p, |prop.value|, n);
    match KindOf(prop.name)
    case AddressCells => if |prop.value| == 4 { WordAt(m, p, prop.value); }
    case SizeCells => if |prop.value| == 4 { WordAt(m, p, prop.value); }
    case DeviceType => TypeAt(m, p, prop.value, n);
    case Compatible => CompatibleAt(m, p, prop.value, n);
    case Reg => RegAt(m, p, prop.value, n.regAc, n.regSc, n.regs);
    case Method => TypeAt(m, p, prop.value, n);
    case Other =>
  }

  // ---- One token ---------------------------------------------------------------------

  /** The blob's structure block starts at `pos`, which is aligned, and a token follows these bytes. */
  ghost predicate Laid(m: Memory, h: Header, pos: nat, b: seq<u8>) {
    At(m, pos, b) && m(pos + |b|) == 0 && pos % 4 == 0 && pos + |b| + 4 <= h.end < 0x1_0000_0000
  }

  /** The strings block holds the name of a property at its offset. */
  ghost predicate Named(m: Memory, h: Header, tok: Token, off: string -> nat) {
    tok.Prop? ==>
      && off(tok.p.name) < h.sizeStrings && Plain(tok.p.name) && StrEq(m, h.strings + off(tok.p.name), tok.p.name)
  }

  lemma AlignSum(p: nat, n: nat)
    requires p % 4 == 0
    ensures Align4(p + n) == p + Align4(n)
  {
  }

  lemma {:induction false} NameLength(m: Memory, p: nat, t: seq<u8>, max: nat)
    requires At(m, p, t) && m(p + |t|) == 0 && |t| < max && forall i :: 0 <= i < |t| ==> t[i] != 0
    ensures StrLen(m, p, max) == |t|
    decreases |t|
  {
    if t != [] {
      assert m(p + 0) == t[0];
      AtSlice(m, p, t, 1, |t|);
      assert t[1..|t|] == t[1..];
      NameLength(m, p + 1, t[1..], max - 1);
    }
  }

  lemma NamesNonzero(s: string)
    requires Plain(s)
    ensures forall i :: 0 <= i < |s| ==> Chars(s)[i] != 0
  {
  }

  lemma BeginWords(m: Memory, h: Header, pos: nat, name: string)
    requires Plain(name) && Laid(m, h, pos, TokenBytes(Begin(name), _ => 0))
    ensures Be32(m, pos) == BEGIN_NODE && At(m, pos + 4, Chars(name)) && m(pos + 4 + |name|) == 0
    ensures |TokenBytes(Begin(name), _ => 0)| == 4 + Align4(|name| + 1)
  {
    hide Be32, Plain, U32, Align4, At;
    var text := Chars(name) + [0];
    AtSplits(m, pos, U32(BEGIN_NODE), Padded(text));
    U32At(m, pos, BEGIN_NODE);
    AtSplits(m, pos + 4, text, Zeros(Align4(|text|) - |text|));
    AtSplits(m, pos + 4, Chars(name), [0]);
    AtFirst(m, pos + 4 + |name|, [0]);
  }

  lemma BeginAt(m: Memory, h: Header, w: Walk, name: string)
    requires w.stack != [] && Plain(name) && Laid(m, h, w.pos, TokenBytes(Begin(name), _ => 0))
    ensures w.pos + 4 <= h.end
    ensures Step(m, h, w)
         == if |w.stack| >= MAX_DEPTH then Stop(Failed)
            else More(Walk(w.pos + |TokenBytes(Begin(name), _ => 0)|,
                           w.stack + [Blank(Top(w).ac, Top(w).sc)], w.cand))
  {
    hide StrLen, Be32, Plain, TokenBytes, At, Align4, EndNode;
    BeginWords(m, h, w.pos, name);
    NamesNonzero(name);
    NameLength(m, w.pos + 4, Chars(name), h.end - (w.pos + 4));
    AlignSum(w.pos + 4, |name| + 1);
  }

  lemma PropWords(m: Memory, h: Header, pos: nat, p: Property, off: string -> nat)
    requires Writable(Prop(p), off) && Laid(m, h, pos, TokenBytes(Prop(p), off))
    ensures Be32(m, pos) == PROP && Be32(m, pos + 4) == |p.value| && Be32(m, pos + 8) == off(p.name)
    ensures At(m, pos + 12, p.value) && m(pos + 12 + |p.value|) == 0
    ensures |TokenBytes(Prop(p), off)| == 12 + Align4(|p.value|)
  {
    hide Be32, At, U32;
    var v := p.value;
    var head := PropHead(p, off);
    AtSplits(m, pos, head, Padded(v));
    AtSplits(m, pos, U32(PROP) + U32(|v|), U32(off(p.name)));
    AtSplits(m, pos, U32(PROP), U32(|v|));
    U32At(m, pos, PROP);
    U32At(m, pos + 4, |v|);
    U32At(m, pos + 8, off(p.name));
    var pad := Zeros(Align4(|v|) - |v|);
    AtSplits(m, pos + 12, v, pad);
    if |pad| > 0 { AtFirst(m, pos + 12 + |v|, pad); }
  }

  lemma PropAt(m: Memory, h: Header, w: Walk, p: Property, off: string -> nat)
    requires w.stack != [] && Writable(Prop(p), off) && Laid(m, h, w.pos, TokenBytes(Prop(p), off))
    requires Named(m, h, Prop(p), off) && SaneProp(p, Top(w))
    ensures w.pos + 4 <= h.end
    ensures Step(m, h, w)
         == More(Walk(w.pos + |TokenBytes(Prop(p), off)|, w.stack[|w.stack| - 1 := Effect(p, Top(w))], w.cand))
  {
    hide StrEq, Be32, Plain, Effect, ApplyProp, SaneProp, TokenBytes, At, EndNode, StrLen;
    PropWords(m, h, w.pos, p, off);
    EffectAt(m, h.strings + off(p.name), w.pos + 12, p, Top(w));
    AlignSum(w.pos + 12, |p.value|);
  }

  lemma PlainTokenAt(m: Memory, h: Header, w: Walk, tok: Token)
    requires w.stack != [] && (tok.Nop? || tok.End?) && Laid(m, h, w.pos, TokenBytes(tok, _ => 0))
    ensures w.pos + 4 <= h.end
    ensures tok.Nop? ==> Step(m, h, w) == More(w.(pos := w.pos + 4))
    ensures tok.End? ==>
      var r := EndNode(Top(w), w.cand);
      Step(m, h, w) == if !r.Ok? then Stop(r)
                       else if |w.stack| == 1 then Stop(Failed)
                       else More(Walk(w.pos + 4, w.stack[..|w.stack| - 1], r.cand))
  {
    hide Be32, EndNode;
    U32At(m, w.pos, if tok.Nop? then NOP else END_NODE);
  }

  // ---- The whole structure block -----------------------------------------------------

  ghost predicate AllWritable(toks: seq<Token>, off: string -> nat) {
    forall i :: 0 <= i < |toks| ==> Writable(toks[i], off)
  }

  ghost predicate AllNamed(m: Memory, h: Header, toks: seq<Token>, off: string -> nat) {
    forall i :: 0 <= i < |toks| ==> Named(m, h, toks[i], off)
  }

  /** The memory holds the encoding of these tokens from `pos` on, inside the structure block. */
  ghost predicate Written(m: Memory, h: Header, pos: nat, toks: seq<Token>, off: string -> nat) {
    && AllWritable(toks, off) && AllNamed(m, h, toks, off)
    && At(m, pos, Encode(toks, off)) && pos % 4 == 0 && pos + |Encode(toks, off)| <= h.end < 0x1_0000_0000
  }

  lemma FirstByte(tok: Token, off: string -> nat)
    requires Writable(tok, off)
    ensures TokenBytes(tok, off)[0] == 0
  {
  }

  lemma FirstByteOfAll(toks: seq<Token>, off: string -> nat)
    requires AllWritable(toks, off)
    ensures Encode(toks, off)[0] == 0
  {
    if toks != [] { FirstByte(toks[0], off); }
  }

  lemma WrittenSplits(m: Memory, h: Header, pos: nat, toks: seq<Token>, off: string -> nat)
    requires toks != [] && Written(m, h, pos, toks, off)
    ensures Laid(m, h, pos, TokenBytes(toks[0], off)) && Named(m, h, toks[0], off)
    ensures Written(m, h, pos + |TokenBytes(toks[0], off)|, toks[1..], off)
  {
    hide TokenBytes, Writable, Named;
    var first, rest := TokenBytes(toks[0], off), Encode(toks[1..], off);
    AtSplits(m, pos, first, rest);
    FirstByteOfAll(toks[1..], off);
    assert m(pos + |first| + 0) == rest[0];
  }

  /** Walking the bytes of any encoded token list is running the tokens. */
  lemma {:induction false} WalkRuns(m: Memory, h: Header, toks: seq<Token>, off: string -> nat, w: Walk)
    requires w.stack != [] && SaneToks(toks, w.stack) && Written(m, h, w.pos, toks, off)
    ensures RunFrom(m, h, w) == Exec(toks, w.stack, w.cand)
    decreases |toks|
  {
    hide TokenBytes, Step, Encode, Effect, EndNode, Be32, AllWritable, AllNamed, SaneProp;
    if toks == [] {
      EndAt(m, h, off, w);
    } else {
      var tok := toks[0];
      WrittenSplits(m, h, w.pos, toks, off);
      assert Writable(tok, off) by { FirstWritable(toks, off); }
      match tok
      case Begin(name) =>
        SameBytes(tok, off);
        BeginAt(m, h, w, name);
        if |w.stack| < MAX_DEPTH {
          WalkRuns(m, h, toks[1..], off, Step(m, h, w).w);
        }
      case Prop(p) =>
        PropAt(m, h, w, p, off);
        WalkRuns(m, h, toks[1..], off, Step(m, h, w).w);
      case _ =>
        SameBytes(tok, off);
        PlainTokenAt(m, h, w, tok);
        if Step(m, h, w).More? { WalkRuns(m, h, toks[1..], off, Step(m, h, w).w); }
    }
  }

  lemma FirstWritable(toks: seq<Token>, off: string -> nat)
    requires toks != [] && AllWritable(toks, off)
    ensures Writable(toks[0], off)
  {
  }

  /** Only a property's bytes depend on the offsets of names. */
  lemma SameBytes(tok: Token, off: string -> nat)
    requires Writable(tok, off) && !tok.Prop?
    ensures TokenBytes(tok, off) == TokenBytes(tok, _ => 0)
    ensures tok.Nop? || tok.End? ==> |TokenBytes(tok, off)| == 4
  {
  }

  lemma EndAt(m: Memory, h: Header, off: string -> nat, w: Walk)
    requires w.stack != [] && Written(m, h, w.pos, [], off)
    ensures RunFrom(m, h, w) == Ok(w.cand)
  {
    U32At(m, w.pos, END);
  }

  /** Decoding the encoding of any tree, with NOP tokens anywhere between its tokens, gives the fold
      over its nodes in post-order; it fails when the tree is more than 15 levels high or the fold
      itself fails. Node names and the layout of the strings block do not matter. */
  lemma DecodeEncode(m: Memory, h: Header, t: Tree, toks: seq<Token>, off: string -> nat, uart: Range)
    requires Strip(toks) == Flatten(t) && Written(m, h, h.start, toks, off) && SaneTree(t, 2, 1)
    ensures Decode(m, h, uart)
         == if Height(t) > 15 then Failed else AddAll(PostOrder(t, 2, 1), Empty(uart))
  {
    var root := [Blank(2, 1)];
    assert Flatten(t) + [] == Flatten(t);
    TreeSane(t, [], root);
    NopsSane(toks, root);
    WalkRuns(m, h, toks, off, Walk(h.start, root, Empty(uart)));
    NopsIgnored(toks, root, Empty(uart));
    TreeRuns(t, [], root, Empty(uart));
    AddAllNeverWraps(PostOrder(t, 2, 1), Empty(uart));
  }

  /** Two blobs whose trees differ in node names and in the order of properties alone, wherever their
      NOPs and strings lie, decode to the same candidate. */
  lemma LayoutIrrelevant(m: Memory, h: Header, t: Tree, toks: seq<Token>, off: string -> nat,
                         m': Memory, h': Header, t': Tree, toks': seq<Token>, off': string -> nat, uart: Range)
    requires Strip(toks) == Flatten(t) && Written(m, h, h.start, toks, off)
    requires Strip(toks') == Flatten(t') && Written(m', h', h'.start, toks', off')
    requires Alike(t, t') && SaneTree(t, 2, 1)
    ensures Decode(m, h, uart) == Decode(m', h', uart)
  {
    hide Decode, Written, PostOrder, Strip, Flatten, Alike, SaneTree;
    AlikeSane(t, t', 2, 1);
    DecodeEncode(m, h, t, toks, off, uart);
    DecodeEncode(m', h', t', toks', off', uart);
    AlikeFoldsAlike(t, t', 2, 1);
  }

  // ---- The whole blob ----------------------------------------------------------------

  /** The ten words of the header (Devicetree Specification v0.4, section 5.2). The memory reservation
      block, the version numbers and the boot CPU are not looked at. */
  function HeaderBytes(size: u32, h: Header, reserved: u32, version: u32, compatible: u32, bootCpu: u32): seq<u8>
    requires h.start <= h.end < TWO32 && h.strings < TWO32 && h.sizeStrings < TWO32
  {
    U32(MAGIC) + (U32(size) + (U32(h.start) + (U32(h.strings) + (U32(reserved) + (U32(version)
    + (U32(compatible) + (U32(bootCpu) + (U32(h.sizeStrings) + U32(h.end - h.start)))))))))
  }

  lemma NextWord(m: Memory, p: nat, n: u32, rest: seq<u8>)
    requires At(m, p, U32(n) + rest)
    ensures Be32(m, p) == n && At(m, p + 4, rest)
  {
    hide At, Be32, U32;
    AtSplits(m, p, U32(n), rest);
    U32At(m, p, n);
  }

  lemma HeaderWords(m: Memory, size: u32, h: Header, reserved: u32, version: u32, compatible: u32, bootCpu: u32)
    requires h.start <= h.end < TWO32 && h.strings < TWO32 && h.sizeStrings < TWO32
    requires At(m, 0, HeaderBytes(size, h, reserved, version, compatible, bootCpu))
    ensures Be32(m, 0) == MAGIC && Be32(m, 4) == size && Be32(m, 8) == h.start && Be32(m, 12) == h.strings
    ensures Be32(m, 32) == h.sizeStrings && Be32(m, 36) == h.end - h.start
  {
    hide At, Be32, U32;
    var last := U32(h.sizeStrings) + U32(h.end - h.start);
    var b := U32(version) + (U32(compatible) + (U32(bootCpu) + last));
    var a := U32(h.start) + (U32(h.strings) + (U32(reserved) + b));
    NextWord(m, 0, MAGIC, U32(size) + a);
    NextWord(m, 4, size, a);
    NextWord(m, 8, h.start, U32(h.strings) + (U32(reserved) + b));
    NextWord(m, 12, h.strings, U32(reserved) + b);
    NextWord(m, 16, reserved, b);
    NextWord(m, 20, version, U32(compatible) + (U32(bootCpu) + last));
    NextWord(m, 24, compatible, U32(bootCpu) + last);
    NextWord(m, 28, bootCpu, last);
    NextWord(m, 32, h.sizeStrings, U32(h.end - h.start));
    U32At(m, 36, h.end - h.start);
  }

  /** S3 on a whole blob: with its header at an aligned pointer, clear of the image, and the encoding of a
      tree in its structure block, the outcome is the fold over the tree. */
  lemma BlobRoundTrip(m: Memory, ptr: u64, image: Range, size: u32, h: Header, reserved: u32, version: u32,
                      compatible: u32, bootCpu: u32, t: Tree, toks: seq<Token>, off: string -> nat, uart: Range)
    requires ptr != 0 && ptr % 8 == 0 && 40 <= size <= PROBE_CAP && ptr + size < TWO64
    requires RangeOk(image.base, image.size)
    requires forall x :: InRange(x, ptr, size) ==> !InRange(x, image.base, image.size)
    requires h.start <= h.end <= size && h.strings + h.sizeStrings <= size
    requires At(m, 0, HeaderBytes(size, h, reserved, version, compatible, bootCpu))
    requires Strip(toks) == Flatten(t) && Written(m, h, h.start, toks, off) && SaneTree(t, 2, 1)
    ensures S3(m, ptr, image, uart) == if Height(t) > 15 then Failed else AddAll(PostOrder(t, 2, 1), Empty(uart))
  {
    hide At, Be32, U32, HeaderBytes, Written, Strip, Flatten, Decode, Open, PostOrder, InRange, SaneTree;
    HeaderWords(m, size, h, reserved, version, compatible, bootCpu);
    HeaderAccepted(m, ptr, image);
    DecodeEncode(m, h, t, toks, off, uart);
  }
}
