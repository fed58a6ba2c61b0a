/** Device trees and their encoding as a structure block (Devicetree Specification v0.4, section
    5.4), and what the decoder makes of any tree: a fold over its nodes in post-order. */
module FdtTree {
  import opened Words
  import opened Fdt

  // ---- Trees -------------------------------------------------------------------------

  datatype Property = Property(name: string, value: seq<u8>)

  /** Properties come before subnodes, as the format demands. */
  datatype Tree = Tree(name: string, props: seq<Property>, kids: seq<Tree>)

  /** Characters that a NUL-terminated string can hold. */
  predicate Plain(s: string) {
    forall i :: 0 <= i < |s| ==> 0 < s[i] as int < 0x100
  }

  // ---- What property values mean -----------------------------------------------------

  /** A big-endian number of any width. */
  function Number(v: seq<u8>): nat {
    if v == [] then 0 else Number(v[..|v| - 1]) * 0x100 + v[|v| - 1] as nat
  }

  function Number64(v: seq<u8>): u64 {
    Number(v) % 0x1_0000_0000_0000_0000
  }

  function Word(v: seq<u8>): u32
    requires |v| == 4
  {
    v[0] as int * 0x100_0000 + v[1] as int * 0x1_0000 + v[2] as int * 0x100 + v[3]
  }

  /** The bytes up to the first NUL. */
  function Text(v: seq<u8>): (t: seq<u8>)
    ensures |t| <= |v| && t == v[..|t|] && (forall i :: 0 <= i < |t| ==> t[i] != 0)
    ensures |t| < |v| ==> v[|t|] == 0
  {
    if v == [] || v[0] == 0 then []
    else
      var t := Text(v[1..]);
      assert v[..|t| + 1] == [v[0]] + v[1..][..|t|];
      [v[0]] + t
  }

  predicate IsText(t: seq<u8>, lit: string) {
    |t| == |lit| && forall i :: 0 <= i < |t| ==> t[i] == lit[i] as int
  }

  /** The strings of a string list. */
  function Pieces(v: seq<u8>): seq<seq<u8>>
    decreases |v|
  {
    if v == [] then []
    else
      var t := Text(v);
      [t] + if |t| < |v| then Pieces(v[|t| + 1..]) else []
  }

  predicate Lists(v: seq<u8>, lit: string) {
    exists k :: 0 <= k < |Pieces(v)| && IsText(Pieces(v)[k], lit)
  }

  /** Entries of `ac` address cells and `sc` size cells taken off the front, at most `left`. */
  function Entries(v: seq<u8>, ac: nat, sc: nat, left: nat): seq<Range>
    decreases left
  {
    if |v| < 4 * (ac + sc) || left == 0 then []
    else
      [Range(Number64(v[..4 * ac]), Number64(v[4 * ac..4 * (ac + sc)]))]
      + Entries(v[4 * (ac + sc)..], ac, sc, left - 1)
  }

  /** A reg value. Zero address cells are read as one; without size cells the value must be one
      address, or the property is as if it were not there. */
  function RegOf(v: seq<u8>, ac0: u32, sc: u32, was: seq<Range>): seq<Range> {
    var ac := if ac0 == 0 then 1 else ac0;
    if sc == 0 then (if |v| == 4 * ac then [Range(Number64(v), 0)] else was)
    else Entries(v, ac, sc, 4)
  }

  /** The properties that the decoder knows. */
  datatype Kind = AddressCells | SizeCells | DeviceType | Compatible | Reg | Method | Other

  function KindOf(name: string): Kind {
    if name == "#address-cells" then AddressCells
    else if name == "#size-cells" then SizeCells
    else if name == "device_type" then DeviceType
    else if name == "compatible" then Compatible
    else if name == "reg" then Reg
    else if name == "method" then Method
    else Other
  }

  function EffectOf(k: Kind, v: seq<u8>, n: Info): Info {
    match k
    case AddressCells => if |v| == 4 then n.(ac := Word(v)) else n
    case SizeCells => if |v| == 4 then n.(sc := Word(v)) else n
    case DeviceType =>
      if |v| < 4 then n
      else n.(isMem := n.isMem || IsText(Text(v), "memory"), isCpu := n.isCpu || IsText(Text(v), "cpu"))
    case Compatible =>
      n.(isGic := n.isGic || Lists(v, "arm,gic-v3"),
         isUart := n.isUart || Lists(v, "arm,pl011") || Lists(v, "arm,pl011-axi"),
         isPsci := n.isPsci || Lists(v, "arm,psci") || Lists(v, "arm,psci-0.2") || Lists(v, "arm,psci-1.0"))
    case Reg => n.(regs := RegOf(v, n.regAc, n.regSc, n.regs))
    case Method =>
      if IsText(Text(v), "hvc") then n.(psci := PSCI_HVC)
      else if IsText(Text(v), "smc") then n.(psci := PSCI_SMC)
      else n
    case Other => n
  }

  function Effect(p: Property, n: Info): Info {
    EffectOf(KindOf(p.name), p.value, n)
  }

  function Effects(props: seq<Property>, n: Info): Info
    decreases |props|
  {
    if props == [] then n else Effects(props[1..], Effect(props[0], n))
  }

  // ---- The post-order fold -----------------------------------------------------------

  /** The nodes of a tree as the decoder sees them, children before their parent; a node's cell
      sizes reach its children, and its own `reg` is read with those of its parent. */
  function PostOrder(t: Tree, ac: u32, sc: u32): seq<Info> {
    var n := Effects(t.props, Blank(ac, sc));
    PostOrders(t.kids, n.ac, n.sc) + [n]
  }

  function PostOrders(ts: seq<Tree>, ac: u32, sc: u32): seq<Info> {
    if ts == [] then [] else PostOrder(ts[0], ac, sc) + PostOrders(ts[1..], ac, sc)
  }

  function AddAll(ns: seq<Info>, c: Cand): Outcome
    decreases |ns|
  {
    if ns == [] then Ok(c)
    else
      var r := EndNode(ns[0], c);
      if r.Ok? then AddAll(ns[1..], r.cand) else r
  }

  function Height(t: Tree): nat {
    1 + Heights(t.kids)
  }

  function Heights(ts: seq<Tree>): nat {
    if ts == [] then 0
    else
      var a, b := Height(ts[0]), Heights(ts[1..]);
      if a < b then b else a
  }

  lemma {:induction false} AddAllSplits(a: seq<Info>, b: seq<Info>, c: Cand)
    ensures AddAll(a + b, c) == var r := AddAll(a, c); if r.Ok? then AddAll(b, r.cand) else r
    decreases |a|
  {
    if a == [] {
      assert a + b == b;
    } else {
      assert (a + b)[1..] == a[1..] + b;
      var r := EndNode(a[0], c);
      if r.Ok? { AddAllSplits(a[1..], b, r.cand); }
    }
  }

  // ---- Tokens ------------------------------------------------------------------------

  datatype Token = Nop | Begin(name: string) | Prop(p: Property) | End

  function PropTokens(props: seq<Property>): seq<Token> {
    if props == [] then [] else [Prop(props[0])] + PropTokens(props[1..])
  }

  function Flatten(t: Tree): seq<Token> {
    [Begin(t.name)] + PropTokens(t.props) + FlattenAll(t.kids) + [End]
  }

  function FlattenAll(ts: seq<Tree>): seq<Token> {
    if ts == [] then [] else Flatten(ts[0]) + FlattenAll(ts[1..])
  }

  function Strip(toks: seq<Token>): seq<Token> {
    if toks == [] then [] else (if toks[0].Nop? then [] else [toks[0]]) + Strip(toks[1..])
  }

  function Last(stack: seq<Info>): Info
    requires stack != []
  {
    stack[|stack| - 1]
  }

  /** The walk over tokens instead of bytes. */
  function Exec(toks: seq<Token>, stack: seq<Info>, c: Cand): Outcome
    requires stack != []
    decreases |toks|
  {
    if toks == [] then Ok(c)
    else
      var n, rest := |stack|, toks[1..];
      match toks[0]
      case Nop => Exec(rest, stack, c)
      case Begin(_) =>
        if n >= MAX_DEPTH then Failed else Exec(rest, stack + [Blank(Last(stack).ac, Last(stack).sc)], c)
      case Prop(p) => Exec(rest, stack[n - 1 := Effect(p, Last(stack))], c)
      case End =>
        var r := EndNode(Last(stack), c);
        if !r.Ok? then r else if n == 1 then Failed else Exec(rest, stack[..n - 1], r.cand)
  }

  /** NOP tokens make no difference. */
  lemma {:induction false} NopsIgnored(toks: seq<Token>, stack: seq<Info>, c: Cand)
    requires stack != []
    ensures Exec(toks, stack, c) == Exec(Strip(toks), stack, c)
    decreases |toks|
  {
    hide Effect, EndNode;
    if toks != [] {
      var n, rest := |stack|, toks[1..];
      assert if toks[0].Nop? then Strip(toks) == Strip(rest) else Strip(toks)[1..] == Strip(rest);
      match toks[0]
      case Nop => NopsIgnored(rest, stack, c);
      case Begin(_) => if n < MAX_DEPTH { NopsIgnored(rest, stack + [Blank(Last(stack).ac, Last(stack).sc)], c); }
      case Prop(p) => NopsIgnored(rest, stack[n - 1 := Effect(p, Last(stack))], c);
      case End =>
        var r := EndNode(Last(stack), c);
        if r.Ok? && n > 1 { NopsIgnored(rest, stack[..n - 1], r.cand); }
    }
  }

  /** Two changes at one place of the stack are the later one. */
  lemma SetTwice(stack: seq<Info>, a: Info, b: Info)
    requires stack != []
    ensures var s := stack[|stack| - 1 := a]; Last(s) == a && s[|s| - 1 := b] == stack[|stack| - 1 := b]
    ensures stack[|stack| - 1 := Last(stack)] == stack
  {
  }

  lemma FirstProp(props: seq<Property>, rest: seq<Token>)
    ensures props == [] ==> PropTokens(props) + rest == rest
    ensures props != [] ==> PropTokens(props) + rest == [Prop(props[0])] + (PropTokens(props[1..]) + rest)
  {
  }

  lemma {:induction false} PropsRun(props: seq<Property>, rest: seq<Token>, stack: seq<Info>, c: Cand)
    requires stack != []
    ensures Exec(PropTokens(props) + rest, stack, c)
         == Exec(rest, stack[|stack| - 1 := Effects(props, Last(stack))], c)
    decreases |props|
  {
    hide Effect, EndNode, PropTokens;
    FirstProp(props, rest);
    SetTwice(stack, Last(stack), Last(stack));
    if props != [] {
      var n := Effect(props[0], Last(stack));
      var later := PropTokens(props[1..]) + rest;
      assert ([Prop(props[0])] + later)[1..] == later;
      SetTwice(stack, n, Effects(props[1..], n));
      PropsRun(props[1..], rest, stack[|stack| - 1 := n], c);
    }
  }

  /** What is left after a subtree: nothing but its effect on the candidate. */
  function After(tall: bool, ns: seq<Info>, rest: seq<Token>, stack: seq<Info>, c: Cand): Outcome
    requires stack != []
  {
    if tall then Failed
    else
      var r := AddAll(ns, c);
      if r.Ok? then Exec(rest, stack, r.cand) else r
  }

  lemma {:induction false} EndNodeNeverWraps(n: Info, c: Cand)
    ensures EndNode(n, c).Ok? || EndNode(n, c) == Failed
  {
    if n.isMem { AddMemsNeverWraps(c, n.regs); }
  }

  lemma {:induction false} AddMemsNeverWraps(c: Cand, rs: seq<Range>)
    ensures AddMems(c, rs).Ok? || AddMems(c, rs) == Failed
    decreases |rs|
  {
    if rs != [] && AddMem(c, rs[0]).Ok? { AddMemsNeverWraps(AddMem(c, rs[0]).cand, rs[1..]); }
  }

  lemma {:induction false} AddAllNeverWraps(ns: seq<Info>, c: Cand)
    ensures AddAll(ns, c).Ok? || AddAll(ns, c) == Failed
    decreases |ns|
  {
    if ns != [] {
      EndNodeNeverWraps(ns[0], c);
      if EndNode(ns[0], c).Ok? { AddAllNeverWraps(ns[1..], EndNode(ns[0], c).cand); }
    }
  }

  lemma Opening(name: string, body: seq<Token>, stack: seq<Info>, c: Cand)
    requires stack != []
    ensures Exec([Begin(name)] + body, stack, c)
         == if |stack| >= MAX_DEPTH then Failed else Exec(body, stack + [Blank(Last(stack).ac, Last(stack).sc)], c)
  {
    assert ([Begin(name)] + body)[1..] == body;
  }

  lemma Closing(n: Info, rest: seq<Token>, stack: seq<Info>, c: Cand)
    requires stack != []
    ensures Exec([End] + rest, stack + [n], c)
         == var r := EndNode(n, c); if r.Ok? then Exec(rest, stack, r.cand) else r
  {
    hide EndNode;
    assert ([End] + rest)[1..] == rest && (stack + [n])[..|stack|] == stack;
  }

  /** The end of a node, once its children are added. */
  lemma ClosesNode(kids: seq<Info>, n: Info, rest: seq<Token>, stack: seq<Info>, c: Cand)
    requires stack != []
    ensures After(false, kids, [End] + rest, stack + [n], c) == After(false, kids + [n], rest, stack, c)
  {
    hide EndNode, Exec;
    AddAllSplits(kids, [n], c);
    var r := AddAll(kids, c);
    if r.Ok? {
      Closing(n, rest, stack, r.cand);
      AddOne(n, r.cand);
    }
  }

  lemma AddOne(n: Info, c: Cand)
    ensures AddAll([n], c) == EndNode(n, c)
  {
    hide EndNode;
    assert [n][1..] == [];
  }

  lemma FlattenParts(t: Tree, rest: seq<Token>)
    ensures Flatten(t) + rest == [Begin(t.name)] + (PropTokens(t.props) + (FlattenAll(t.kids) + ([End] + rest)))
  {
    hide PropTokens, FlattenAll;
  }

  /** Running the tokens of a subtree leaves the stack as it was and adds the nodes of the subtree in
      post-order, or fails when the subtree is too tall for the stack. */
  lemma {:induction false} TreeRuns(t: Tree, rest: seq<Token>, stack: seq<Info>, c: Cand)
    requires stack != [] && |stack| <= MAX_DEPTH
    ensures Exec(Flatten(t) + rest, stack, c)
         == After(|stack| + Height(t) > MAX_DEPTH, PostOrder(t, Last(stack).ac, Last(stack).sc), rest, stack, c)
    decreases t
  {
    hide Exec, AddAll, EndNode, Effects, PropTokens, Flatten, FlattenAll;
    var later := FlattenAll(t.kids) + ([End] + rest);
    FlattenParts(t, rest);
    Opening(t.name, PropTokens(t.props) + later, stack, c);
    if |stack| < MAX_DEPTH {
      var blank := Blank(Last(stack).ac, Last(stack).sc);
      var n := Effects(t.props, blank);
      PropsRun(t.props, later, stack + [blank], c);
      assert (stack + [blank])[|stack| := n] == stack + [n];
      TreesRun(t.kids, [End] + rest, stack + [n], c);
      ClosesNode(PostOrders(t.kids, n.ac, n.sc), n, rest, stack, c);
    }
  }

  lemma {:induction false} TreesRun(ts: seq<Tree>, rest: seq<Token>, stack: seq<Info>, c: Cand)
    requires stack != [] && |stack| <= MAX_DEPTH
    ensures Exec(FlattenAll(ts) + rest, stack, c)
         == After(|stack| + Heights(ts) > MAX_DEPTH, PostOrders(ts, Last(stack).ac, Last(stack).sc), rest, stack, c)
    decreases ts
  {
    if ts == [] {
      assert FlattenAll(ts) + rest == rest;
    } else {
      var more := FlattenAll(ts[1..]) + rest;
      assert FlattenAll(ts) + rest == Flatten(ts[0]) + more;
      TreeRuns(ts[0], more, stack, c);
      var first := PostOrder(ts[0], Last(stack).ac, Last(stack).sc);
      AddAllSplits(first, PostOrders(ts[1..], Last(stack).ac, Last(stack).sc), c);
      AddAllNeverWraps(first, c);
      var r := AddAll(first, c);
      if r.Ok? { TreesRun(ts[1..], rest, stack, r.cand); }
    }
  }

  // ---- Cell counts whose size in bytes wraps -----------------------------------------

  /** A reg value of `len` bytes is read as it is meant: its entry size in bytes fits in 32 bits, or the
      wrapped size makes the decoder read nothing, as it should. */
  predicate RegSane(len: nat, ac0: u32, sc: u32, was: seq<Range>) {
    var ac := if ac0 == 0 then 1 else ac0;
    if sc == 0 then ac < 0x4000_0000 || len != Times4(ac)
    else
      var step := Times4(ac + sc);
      ac + sc < 0x4000_0000 || (if step == 0 then was == [] else len < step)
  }

  predicate SaneProp(p: Property, n: Info) {
    p.name == "reg" ==> RegSane(|p.value|, n.regAc, n.regSc, n.regs)
  }

  predicate SaneProps(props: seq<Property>, n: Info)
    decreases |props|
  {
    props == [] || (SaneProp(props[0], n) && SaneProps(props[1..], Effect(props[0], n)))
  }

  /** Every reg of the tree is read as it is meant. */
  predicate SaneTree(t: Tree, ac: u32, sc: u32) {
    var n := Effects(t.props, Blank(ac, sc));
    SaneProps(t.props, Blank(ac, sc)) && SaneTrees(t.kids, n.ac, n.sc)
  }

  predicate SaneTrees(ts: seq<Tree>, ac: u32, sc: u32) {
    ts == [] || (SaneTree(ts[0], ac, sc) && SaneTrees(ts[1..], ac, sc))
  }

  /** The same for tokens, along the stack that they make. */
  predicate SaneToks(toks: seq<Token>, stack: seq<Info>)
    requires stack != []
    decreases |toks|
  {
    toks == []
    || var n, rest := |stack|, toks[1..];
       match toks[0]
       case Nop => SaneToks(rest, stack)
       case Begin(_) => n >= MAX_DEPTH || SaneToks(rest, stack + [Blank(Last(stack).ac, Last(stack).sc)])
       case Prop(p) => SaneProp(p, Last(stack)) && SaneToks(rest, stack[n - 1 := Effect(p, Last(stack))])
       case End => n == 1 || SaneToks(rest, stack[..n - 1])
  }

  lemma {:induction false} NopsSane(toks: seq<Token>, stack: seq<Info>)
    requires stack != [] && SaneToks(Strip(toks), stack)
    ensures SaneToks(toks, stack)
    decreases |toks|
  {
    hide SaneProp, Effect;
    if toks != [] {
      var n, rest := |stack|, toks[1..];
      assert if toks[0].Nop? then Strip(toks) == Strip(rest) else Strip(toks)[1..] == Strip(rest);
      match toks[0]
      case Nop => NopsSane(rest, stack);
      case Begin(_) => if n < MAX_DEPTH { NopsSane(rest, stack + [Blank(Last(stack).ac, Last(stack).sc)]); }
      case Prop(p) => NopsSane(rest, stack[n - 1 := Effect(p, Last(stack))]);
      case End => if n > 1 { NopsSane(rest, stack[..n - 1]); }
    }
  }

  lemma {:induction false} PropsSane(props: seq<Property>, rest: seq<Token>, stack: seq<Info>)
    requires stack != [] && SaneProps(props, Last(stack))
    requires SaneToks(rest, stack[|stack| - 1 := Effects(props, Last(stack))])
    ensures SaneToks(PropTokens(props) + rest, stack)
    decreases |props|
  {
    hide SaneProp, Effect, PropTokens;
    FirstProp(props, rest);
    SetTwice(stack, Last(stack), Last(stack));
    if props != [] {
      var n := Effect(props[0], Last(stack));
      var later := PropTokens(props[1..]) + rest;
      assert ([Prop(props[0])] + later)[1..] == later;
      SetTwice(stack, n, Effects(props[1..], n));
      PropsSane(props[1..], rest, stack[|stack| - 1 := n]);
    }
  }

  lemma {:induction false} TreeSane(t: Tree, rest: seq<Token>, stack: seq<Info>)
    requires stack != [] && SaneTree(t, Last(stack).ac, Last(stack).sc) && SaneToks(rest, stack)
    ensures SaneToks(Flatten(t) + rest, stack)
    decreases t
  {
    hide SaneProps, Effects, Effect, PropTokens;
    var later := FlattenAll(t.kids) + ([End] + rest);
    assert Flatten(t) + rest == [Begin(t.name)] + (PropTokens(t.props) + later);
    if |stack| < MAX_DEPTH {
      var pushed := stack + [Blank(Last(stack).ac, Last(stack).sc)];
      var inner := stack + [Effects(t.props, Last(pushed))];
      assert inner[..|inner| - 1] == stack && ([End] + rest)[1..] == rest;
      TreesSane(t.kids, [End] + rest, inner);
      assert pushed[|pushed| - 1 := Last(inner)] == inner;
      PropsSane(t.props, later, pushed);
    }
  }

  lemma {:induction false} TreesSane(ts: seq<Tree>, rest: seq<Token>, stack: seq<Info>)
    requires stack != [] && SaneTrees(ts, Last(stack).ac, Last(stack).sc) && SaneToks(rest, stack)
    ensures SaneToks(FlattenAll(ts) + rest, stack)
    decreases ts
  {
    if ts == [] {
      assert FlattenAll(ts) + rest == rest;
    } else {
      hide SaneTree, Flatten;
      var more := FlattenAll(ts[1..]) + rest;
      assert FlattenAll(ts) + rest == Flatten(ts[0]) + more;
      TreesSane(ts[1..], rest, stack);
      TreeSane(ts[0], more, stack);
    }
  }

  /** Cell counts below 2^29 never wrap. */
  predicate SmallCells(p: Property) {
    (p.name == "#address-cells" || p.name == "#size-cells") && |p.value| == 4 ==> Word(p.value) < 0x2000_0000
  }

  predicate SmallInfo(n: Info) {
    n.ac < 0x2000_0000 && n.sc < 0x2000_0000 && n.regAc < 0x2000_0000 && n.regSc < 0x2000_0000
  }

  predicate SmallTree(t: Tree) {
    && (forall i :: 0 <= i < |t.props| ==> SmallCells(t.props[i]))
    && (forall i :: 0 <= i < |t.kids| ==> SmallTree(t.kids[i]))
  }

  lemma CellsSet(v: seq<u8>, n: Info)
    ensures EffectOf(AddressCells, v, n).ac == if |v| == 4 then Word(v) else n.ac
    ensures EffectOf(SizeCells, v, n).sc == if |v| == 4 then Word(v) else n.sc
  {
  }

  lemma EffectSmall(p: Property, n: Info)
    requires SmallInfo(n) && SmallCells(p)
    ensures SaneProp(p, n) && SmallInfo(Effect(p, n))
  {
    hide EffectOf, Word;
    OwnFields(KindOf(p.name), p.value, n);
    CellsSet(p.value, n);
  }

  lemma {:induction false} PropsSmall(props: seq<Property>, n: Info)
    requires SmallInfo(n) && forall i :: 0 <= i < |props| ==> SmallCells(props[i])
    ensures SaneProps(props, n) && SmallInfo(Effects(props, n))
    decreases |props|
  {
    if props != [] {
      hide SmallInfo, SmallCells, SaneProp, Effect;
      EffectSmall(props[0], n);
      PropsSmall(props[1..], Effect(props[0], n));
    }
  }

  /** Every tree with small cell counts is read as it is meant. */
  lemma {:induction false} SmallIsSane(t: Tree, ac: u32, sc: u32)
    requires SmallTree(t) && ac < 0x2000_0000 && sc < 0x2000_0000
    ensures SaneTree(t, ac, sc)
    decreases t
  {
    PropsSmall(t.props, Blank(ac, sc));
    var n := Effects(t.props, Blank(ac, sc));
    SmallAreSane(t.kids, n.ac, n.sc);
  }

  lemma {:induction false} SmallAreSane(ts: seq<Tree>, ac: u32, sc: u32)
    requires (forall i :: 0 <= i < |ts| ==> SmallTree(ts[i])) && ac < 0x2000_0000 && sc < 0x2000_0000
    ensures SaneTrees(ts, ac, sc)
    decreases ts
  {
    hide SmallTree, SaneTree;
    if ts != [] {
      SmallIsSane(ts[0], ac, sc);
      SmallAreSane(ts[1..], ac, sc);
    }
  }

  // ---- Order does not matter ---------------------------------------------------------

  predicate DistinctNames(props: seq<Property>) {
    forall i, j :: 0 <= i < j < |props| ==> props[i].name != props[j].name
  }

  lemma KindsDiffer(a: string, b: string)
    requires a != b
    ensures KindOf(a) == KindOf(b) ==> KindOf(a) == Other
  {
  }

  /** A property touches the fields of its own kind, and these alone. */
  lemma OwnFields(k: Kind, v: seq<u8>, n: Info)
    ensures var e := EffectOf(k, v, n);
      && e.regAc == n.regAc && e.regSc == n.regSc
      && (!k.AddressCells? ==> e.ac == n.ac) && (!k.SizeCells? ==> e.sc == n.sc)
      && (!k.Reg? ==> e.regs == n.regs) && (!k.Method? ==> e.psci == n.psci)
  {
    hide Word, Lists, IsText, RegOf, Text;
  }

  lemma OtherFlags(k: Kind, v: seq<u8>, n: Info)
    ensures var e := EffectOf(k, v, n);
      && (!k.DeviceType? ==> e.isMem == n.isMem && e.isCpu == n.isCpu)
      && (!k.Compatible? ==> e.isGic == n.isGic && e.isUart == n.isUart && e.isPsci == n.isPsci)
  {
    hide Word, Lists, IsText, RegOf, Text;
  }

  /** What it makes of them depends on nothing else, but for `reg` on the cell sizes of the parent. */
  lemma OwnReg(k: Kind, v: seq<u8>, n: Info, o: Info)
    requires n.regAc == o.regAc && n.regSc == o.regSc
    ensures k.Reg? && n.regs == o.regs ==> EffectOf(k, v, n).regs == EffectOf(k, v, o).regs
  {
    hide Word, Lists, IsText, RegOf, Text;
  }

  lemma OwnMethod(v: seq<u8>, n: Info, o: Info)
    requires n.psci == o.psci
    ensures EffectOf(Method, v, n).psci == EffectOf(Method, v, o).psci
  {
    MethodSet(v, n);
    MethodSet(v, o);
  }

  lemma MethodSet(v: seq<u8>, n: Info)
    ensures EffectOf(Method, v, n).psci
         == if IsText(Text(v), "hvc") then PSCI_HVC else if IsText(Text(v), "smc") then PSCI_SMC else n.psci
  {
    hide Word, Lists, IsText, RegOf, Text;
  }

  lemma OwnCells(k: Kind, v: seq<u8>, n: Info, o: Info)
    ensures var e, f := EffectOf(k, v, n), EffectOf(k, v, o);
      (k.AddressCells? && n.ac == o.ac ==> e.ac == f.ac) && (k.SizeCells? && n.sc == o.sc ==> e.sc == f.sc)
  {
    hide Word, Lists, IsText, RegOf, Text;
  }

  lemma OwnFlags(k: Kind, v: seq<u8>, n: Info, o: Info)
    ensures var e, f := EffectOf(k, v, n), EffectOf(k, v, o);
      && (k.DeviceType? && n.isMem == o.isMem && n.isCpu == o.isCpu ==> e.isMem == f.isMem && e.isCpu == f.isCpu)
      && (k.Compatible? && n.isGic == o.isGic && n.isUart == o.isUart && n.isPsci == o.isPsci ==>
            e.isGic == f.isGic && e.isUart == f.isUart && e.isPsci == f.isPsci)
  {
    hide Word, Lists, IsText, RegOf, Text;
  }

  lemma KindsCommute(k: Kind, v: seq<u8>, j: Kind, w: seq<u8>, n: Info)
    requires k != j || k == Other
    ensures EffectOf(k, v, EffectOf(j, w, n)) == EffectOf(j, w, EffectOf(k, v, n))
  {
    hide EffectOf;
    var e, f := EffectOf(j, w, n), EffectOf(k, v, n);
    OwnFields(j, w, n);
    OwnFields(k, v, n);
    OwnFields(k, v, e);
    OwnFields(j, w, f);
    OtherFlags(j, w, n);
    OtherFlags(k, v, n);
    OtherFlags(k, v, e);
    OtherFlags(j, w, f);
    OwnReg(k, v, n, e);
    OwnReg(j, w, n, f);
    if k.Method? { OwnMethod(v, n, e); }
    if j.Method? { OwnMethod(w, n, f); }
    OwnCells(k, v, n, EffectOf(j, w, n));
    OwnCells(j, w, n, EffectOf(k, v, n));
    OwnFlags(k, v, n, EffectOf(j, w, n));
    OwnFlags(j, w, n, EffectOf(k, v, n));
  }

  /** Two properties with different names can change places. */
  lemma EffectsCommute(p: Property, q: Property, n: Info)
    requires p.name != q.name
    ensures Effect(p, Effect(q, n)) == Effect(q, Effect(p, n))
  {
    hide EffectOf, KindOf;
    KindsDiffer(p.name, q.name);
    KindsCommute(KindOf(p.name), p.value, KindOf(q.name), q.value, n);
  }

  lemma {:induction false} EffectsSplit(a: seq<Property>, b: seq<Property>, n: Info)
    ensures Effects(a + b, n) == Effects(b, Effects(a, n))
    decreases |a|
  {
    if a == [] {
      assert a + b == b;
    } else {
      assert (a + b)[1..] == a[1..] + b;
      EffectsSplit(a[1..], b, Effect(a[0], n));
    }
  }

  /** A property can be moved to the front past others of different names. */
  lemma {:induction false} MoveToFront(a: seq<Property>, p: Property, n: Info)
    requires forall i :: 0 <= i < |a| ==> a[i].name != p.name
    ensures Effect(p, Effects(a, n)) == Effects(a, Effect(p, n))
    decreases |a|
  {
    if a != [] {
      MoveToFront(a[1..], p, Effect(a[0], n));
      EffectsCommute(p, a[0], n);
    }
  }

  lemma RemoveOne(props: seq<Property>, i: nat)
    requires i < |props| && DistinctNames(props)
    ensures DistinctNames(props[..i] + props[i + 1..])
    ensures forall j :: 0 <= j < i ==> props[..i][j].name != props[i].name
  {
    var r := props[..i] + props[i + 1..];
    assert forall j :: 0 <= j < |r| ==> r[j] == props[if j < i then j else j + 1];
  }

  lemma TakeOne(props: seq<Property>, i: nat)
    requires i < |props|
    ensures props == props[..i] + ([props[i]] + props[i + 1..])
    ensures multiset(props) == multiset(props[..i] + props[i + 1..]) + multiset{props[i]}
  {
    assert props == props[..i] + ([props[i]] + props[i + 1..]);
    assert multiset([props[i]] + props[i + 1..]) == multiset{props[i]} + multiset(props[i + 1..]);
  }

  lemma SameRest(props: seq<Property>, props': seq<Property>, i: nat)
    requires multiset(props) == multiset(props') && i < |props| && props' != [] && props[i] == props'[0]
    ensures multiset(props[..i] + props[i + 1..]) == multiset(props'[1..])
  {
    var a, b, p := multiset(props[..i] + props[i + 1..]), multiset(props'[1..]), multiset{props[i]};
    assert a + p == b + p by {
      TakeOne(props, i);
      TakeOne(props', 0);
      assert props'[..0] + props'[1..] == props'[1..];
    }
    CancelOne(a, b, p);
  }

  lemma CancelOne<T>(a: multiset<T>, b: multiset<T>, p: multiset<T>)
    requires a + p == b + p
    ensures a == b
  {
    assert (a + p) - p == a && (b + p) - p == b;
  }

  /** The properties of a node in any other order describe the same node. */
  lemma {:induction false} OrderIrrelevant(props: seq<Property>, props': seq<Property>, n: Info)
    requires multiset(props) == multiset(props') && DistinctNames(props)
    ensures Effects(props, n) == Effects(props', n)
    decreases |props|
  {
    hide DistinctNames, Effect;
    assert |multiset(props)| == |props| && |multiset(props')| == |props'|;
    if props != [] {
      var p := props'[0];
      assert p in multiset(props');
      var i :| 0 <= i < |props| && props[i] == p;
      var a, b := props[..i], props[i + 1..];
      SameRest(props, props', i);
      RemoveOne(props, i);
      assert props == a + ([p] + b);
      EffectsSplit(a, [p] + b, n);
      assert ([p] + b)[1..] == b;
      MoveToFront(a, p, n);
      EffectsSplit(a, b, Effect(p, n));
      OrderIrrelevant(a + b, props'[1..], Effect(p, n));
    }
  }

  /** The same tree but for node names and the order of properties within nodes. */
  ghost predicate Alike(t: Tree, t': Tree)
    decreases t
  {
    && multiset(t.props) == multiset(t'.props) && DistinctNames(t.props)
    && AllAlike(t.kids, t'.kids)
  }

  ghost predicate AllAlike(ts: seq<Tree>, ts': seq<Tree>)
    decreases ts
  {
    if ts == [] || ts' == [] then ts == ts' else Alike(ts[0], ts'[0]) && AllAlike(ts[1..], ts'[1..])
  }

  lemma {:induction false} DistinctSame(props: seq<Property>, props': seq<Property>)
    requires multiset(props) == multiset(props') && DistinctNames(props)
    ensures DistinctNames(props')
    decreases |props'|
  {
    if props' != [] {
      var p, rest' := props'[0], props'[1..];
      assert p in multiset(props');
      var i :| 0 <= i < |props| && props[i] == p;
      var rest := props[..i] + props[i + 1..];
      SameRest(props, props', i);
      RemoveOne(props, i);
      DistinctSame(rest, rest');
      forall j | 0 <= j < |rest'| ensures rest'[j].name != p.name {
        assert rest'[j] in multiset(rest);
        var k :| 0 <= k < |rest| && rest[k] == rest'[j];
        assert rest[k] == props[if k < i then k else k + 1];
      }
    }
  }

  /** With distinct names the properties before a reg do not change how it is read. */
  lemma {:induction false} SaneMeans(props: seq<Property>, n: Info)
    requires DistinctNames(props)
    ensures SaneProps(props, n) <==> forall i :: 0 <= i < |props| ==> SaneProp(props[i], n)
    decreases |props|
  {
    hide RegSane, Effect;
    if props != [] {
      var rest := props[1..];
      SaneMeans(rest, Effect(props[0], n));
      forall i | 0 <= i < |rest| ensures SaneProp(rest[i], Effect(props[0], n)) <==> SaneProp(rest[i], n) {
        assert rest[i] == props[i + 1];
        SaneBeside(props[0], rest[i], n);
      }
      assert forall i :: 0 < i < |props| ==> props[i] == rest[i - 1];
    }
  }

  lemma SaneBeside(p: Property, q: Property, n: Info)
    requires p.name != q.name
    ensures SaneProp(q, Effect(p, n)) <==> SaneProp(q, n)
  {
    hide RegSane, EffectOf;
    OwnFields(KindOf(p.name), p.value, n);
  }

  lemma SaneOrder(props: seq<Property>, props': seq<Property>, n: Info)
    requires multiset(props) == multiset(props') && DistinctNames(props) && SaneProps(props, n)
    ensures SaneProps(props', n)
  {
    hide SaneProp, SaneProps, DistinctNames;
    DistinctSame(props, props');
    SaneMeans(props, n);
    SaneMeans(props', n);
    forall i | 0 <= i < |props'| ensures SaneProp(props'[i], n) {
      assert props'[i] in multiset(props);
      var k :| 0 <= k < |props| && props[k] == props'[i];
    }
  }

  lemma {:induction false} AlikeSane(t: Tree, t': Tree, ac: u32, sc: u32)
    requires Alike(t, t') && SaneTree(t, ac, sc)
    ensures SaneTree(t', ac, sc)
    decreases t
  {
    hide SaneProps;
    OrderIrrelevant(t.props, t'.props, Blank(ac, sc));
    SaneOrder(t.props, t'.props, Blank(ac, sc));
    var n := Effects(t.props, Blank(ac, sc));
    AllAlikeSane(t.kids, t'.kids, n.ac, n.sc);
  }

  lemma {:induction false} AllAlikeSane(ts: seq<Tree>, ts': seq<Tree>, ac: u32, sc: u32)
    requires AllAlike(ts, ts') && SaneTrees(ts, ac, sc)
    ensures SaneTrees(ts', ac, sc)
    decreases ts
  {
    hide SaneTree;
    if ts != [] {
      AlikeSane(ts[0], ts'[0], ac, sc);
      AllAlikeSane(ts[1..], ts'[1..], ac, sc);
    }
  }

  lemma {:induction false} AlikeFoldsAlike(t: Tree, t': Tree, ac: u32, sc: u32)
    requires Alike(t, t')
    ensures PostOrder(t, ac, sc) == PostOrder(t', ac, sc) && Height(t) == Height(t')
    decreases t
  {
    OrderIrrelevant(t.props, t'.props, Blank(ac, sc));
    var n := Effects(t.props, Blank(ac, sc));
    AllAlikeFoldAlike(t.kids, t'.kids, n.ac, n.sc);
  }

  lemma {:induction false} AllAlikeFoldAlike(ts: seq<Tree>, ts': seq<Tree>, ac: u32, sc: u32)
    requires AllAlike(ts, ts')
    ensures PostOrders(ts, ac, sc) == PostOrders(ts', ac, sc) && Heights(ts) == Heights(ts')
    decreases ts
  {
    if ts != [] {
      AlikeFoldsAlike(ts[0], ts'[0], ac, sc);
      AllAlikeFoldAlike(ts[1..], ts'[1..], ac, sc);
    }
  }
}
