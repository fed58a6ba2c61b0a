/** The present set (foundation/cpu/cpu.c, S8) and the redistributor walk
    (foundation/signal/signal.c, S10): which CPU is which, and which frame is whose. */
module Cpus {
  import opened Words

  const GICR_STRIDE: nat := 0x20000

  // ---- Affinity ----------------------------------------------------------------------

  /** mpidr & 0xFF00FFFFFF */
  function Mask(m: u64): u64 {
    m % 0x100_0000 + m / 0x1_0000_0000 % 0x100 * 0x1_0000_0000
  }

  /** Aff3 in bits 32 to 39, Aff2 to Aff0 in bits 0 to 23, and nothing else. */
  lemma MaskBits(m: u64)
    ensures var r := Mask(m);
      && r / 0x1_0000_0000 == m / 0x1_0000_0000 % 0x100 && r % 0x100_0000 == m % 0x100_0000
      && r / 0x100_0000 % 0x100 == 0
  {
    var lo, hi := m % 0x100_0000, m / 0x1_0000_0000 % 0x100;
    Parts(lo, hi);
    assert lo + hi * 0x1_0000_0000 == lo + (hi * 0x100) * 0x100_0000;
    assert (lo + (hi * 0x100) * 0x100_0000) / 0x100_0000 == hi * 0x100;
  }

  predicate Masked(m: u64) {
    Mask(m) == m
  }

  /** The packing that is compared with the upper half of GICR_TYPER. */
  function Affinity(m: u64): (a: u32)
  {
    m % 0x100_0000 + m / 0x1_0000_0000 % 0x100 * 0x100_0000
  }

  function Unpack(a: u32): u64 {
    a % 0x100_0000 + a / 0x100_0000 * 0x1_0000_0000
  }

  lemma UnpackAffinity(m: u64)
    ensures Unpack(Affinity(m)) == Mask(m)
  {
    var lo, hi := m % 0x100_0000, m / 0x1_0000_0000 % 0x100;
    assert (lo + hi * 0x100_0000) / 0x100_0000 == hi;
  }

  lemma AffinityInjective(m: u64, n: u64)
    requires Masked(m) && Masked(n)
    ensures Affinity(m) == Affinity(n) <==> m == n
  {
    hide Affinity, Unpack, Mask;
    UnpackAffinity(m);
    UnpackAffinity(n);
  }

  lemma MaskTwice(m: u64)
    ensures Mask(Mask(m)) == Mask(m)
  {
    var lo, hi := m % 0x100_0000, m / 0x1_0000_0000 % 0x100;
    Parts(lo, hi);
  }

  lemma Parts(lo: int, hi: int)
    requires 0 <= lo < 0x100_0000 && 0 <= hi < 0x100
    ensures (lo + hi * 0x1_0000_0000) % 0x100_0000 == lo
    ensures (lo + hi * 0x1_0000_0000) / 0x1_0000_0000 == hi && hi % 0x100 == hi
  {
    assert lo + hi * 0x1_0000_0000 == lo + (hi * 0x100) * 0x100_0000;
  }

  // ---- S8: the present set -----------------------------------------------------------

  predicate Distinct<T(==)>(s: seq<T>) {
    forall i, j :: 0 <= i < j < |s| ==> s[i] != s[j]
  }

  /** The accepted CPUs other than the boot CPU, in order. */
  function Others(facts: seq<u64>, boot: u64): (r: seq<u64>)
    ensures |r| <= |facts| && (boot in facts ==> |r| < |facts|)
    ensures forall m :: m in r <==> m in facts && m != boot
  {
    if facts == [] then []
    else
      var n := |facts| - 1;
      Others(facts[..n], boot) + (if facts[n] == boot then [] else [facts[n]])
  }

  /** The logical number of an accepted CPU that has no earlier double. */
  function LogicalOf(facts: seq<u64>, boot: u64, i: nat): nat
    requires i < |facts|
  {
    if facts[i] == boot then 0 else |Others(facts[..i], boot)| + 1
  }

  lemma {:induction false} OthersPrefix(facts: seq<u64>, boot: u64, i: nat)
    requires i <= |facts|
    ensures Others(facts[..i], boot) <= Others(facts, boot)
    decreases |facts|
  {
    if i == |facts| {
      assert facts[..i] == facts;
    } else {
      var n := |facts| - 1;
      OthersPrefix(facts[..n], boot, i);
      assert facts[..n][..i] == facts[..i];
    }
  }

  lemma {:induction false} OthersDistinct(facts: seq<u64>, boot: u64)
    requires Distinct(facts)
    ensures Distinct(Others(facts, boot)) && boot !in Others(facts, boot)
    ensures |Others(facts, boot)| == if boot in facts then |facts| - 1 else |facts|
  {
    if facts != [] {
      var n := |facts| - 1;
      var init := facts[..n];
      OthersDistinct(init, boot);
      assert facts == init + [facts[n]];
      assert facts[n] !in init;
      assert boot in facts <==> boot in init || boot == facts[n];
    }
  }

  /** The entry made for one accepted CPU stays at its number. */
  lemma NumberPoints(facts: seq<u64>, boot: u64, i: nat)
    requires i < |facts|
    ensures var table := [boot] + Others(facts, boot);
      LogicalOf(facts, boot, i) < |table| && table[LogicalOf(facts, boot, i)] == facts[i]
  {
    if facts[i] != boot {
      assert facts[..i + 1][..i] == facts[..i];
      OthersPrefix(facts, boot, i + 1);
      assert Others(facts[..i + 1], boot) == Others(facts[..i], boot) + [facts[i]];
    }
  }

  /** Some accepted CPU with this MPIDR was given number `k`. */
  ghost predicate Numbered(facts: seq<u64>, boot: u64, m: u64, k: nat) {
    exists i :: 0 <= i < |facts| && facts[i] == m && LogicalOf(facts, boot, i) == k
  }

  lemma NumberReached(facts: seq<u64>, boot: u64, k: nat)
    requires Distinct(facts) && boot in facts && k < |Others(facts, boot)| + 1
    ensures Numbered(facts, boot, ([boot] + Others(facts, boot))[k], k)
  {
    hide Others;
    var table := [boot] + Others(facts, boot);
    OthersDistinct(facts, boot);
    assert table[k] in facts;
    var i :| 0 <= i < |facts| && facts[i] == table[k];
    NumberPoints(facts, boot, i);
    assert LogicalOf(facts, boot, i) == k;
  }

  /** S8 renumbers the accepted CPUs one to one onto 0 .. n-1, with the boot CPU at 0. */
  lemma NumberingIsBijection(facts: seq<u64>, boot: u64)
    requires Distinct(facts) && boot in facts
    ensures var table := [boot] + Others(facts, boot);
      && |table| == |facts| && Distinct(table)
      && (forall i :: 0 <= i < |facts| ==>
            LogicalOf(facts, boot, i) < |table| && table[LogicalOf(facts, boot, i)] == facts[i])
      && (forall k :: 0 <= k < |table| ==> Numbered(facts, boot, table[k], k))
  {
    hide Others, LogicalOf, Numbered;
    OthersDistinct(facts, boot);
    forall i | 0 <= i < |facts|
      ensures var table := [boot] + Others(facts, boot);
        LogicalOf(facts, boot, i) < |table| && table[LogicalOf(facts, boot, i)] == facts[i]
    {
      NumberPoints(facts, boot, i);
    }
    var table := [boot] + Others(facts, boot);
    forall k | 0 <= k < |table| ensures Numbered(facts, boot, table[k], k) {
      NumberReached(facts, boot, k);
    }
  }

  lemma NoneYet(known: seq<u64>, boot: u64)
    ensures Others(known[..0], boot) == []
  {
  }

  /** What one accepted CPU adds to the numbering. */
  lemma OneMore(known: seq<u64>, boot: u64, i: nat)
    requires i < |known|
    ensures Others(known[..i + 1], boot) == Others(known[..i], boot) + (if known[i] == boot then [] else [known[i]])
    ensures LogicalOf(known, boot, i) == if known[i] == boot then 0 else |Others(known[..i], boot)| + 1
  {
    assert known[..i + 1][..i] == known[..i];
  }

  /** The other CPUs keep their order, and only the boot CPU is number 0. */
  lemma NumberingInOrder(facts: seq<u64>, boot: u64, i: nat, j: nat)
    requires i < j < |facts| && facts[i] != boot && facts[j] != boot
    ensures 0 < LogicalOf(facts, boot, i) < LogicalOf(facts, boot, j)
  {
    hide Others;
    OneMore(facts, boot, i);
    OneMore(facts, boot, j);
    var init := facts[..j];
    OthersPrefix(init, boot, i + 1);
    assert init[..i + 1] == facts[..i + 1];
  }

  /** nxu_s8_present. `known` holds the accepted MPIDRs; the result is nxu_cpu[..present_count]
      and the logical number given to each accepted CPU. */
  method Present(known: seq<u64>, boot: u64) returns (ok: bool, table: seq<u64>, logical: seq<nat>)
    ensures ok <==> 0 < |known| <= CPU_BOUND && |Others(known, boot)| < CPU_BOUND
    ensures ok ==> table == [boot] + Others(known, boot)
    ensures ok ==> |logical| == |known|
    ensures ok ==> forall i :: 0 <= i < |known| ==> logical[i] == LogicalOf(known, boot, i)
  {
    hide Others, LogicalOf;
    ok, table, logical := false, [boot], [];
    if |known| == 0 || |known| > CPU_BOUND { return; }
    NoneYet(known, boot);
    for i := 0 to |known|
      invariant table == [boot] + Others(known[..i], boot) && |table| <= CPU_BOUND
      invariant |logical| == i && forall j :: 0 <= j < i ==> logical[j] == LogicalOf(known, boot, j)
    {
      OneMore(known, boot, i);
      if known[i] == boot {
        logical := logical + [0];
      } else {
        if |table| >= CPU_BOUND {
          OthersPrefix(known, boot, i + 1);
          return;
        }
        logical := logical + [|table|];
        table := table + [known[i]];
      }
    }
    assert known[..|known|] == known;
    ok := true;
  }

  // ---- S10: the redistributor walk ---------------------------------------------------

  /** GICR_TYPER, by the address of the frame. */
  type Registers = u64 -> u64

  /** What the walk reads from GICR_TYPER of one frame. */
  datatype Frame = Frame(affinity: u32, last: bool)

  function DecodeTyper(t: u64): Frame {
    Frame(t / 0x1_0000_0000, t / 0x10 % 2 == 1)
  }

  /** How many frames a region of `size` bytes holds. */
  function FramesIn(size: u64): (n: nat)
    ensures n < 0x8000_0000_0000
  {
    size / GICR_STRIDE
  }

  function FrameAddress(base: u64, k: nat): (at: u64)
    ensures at == (base + 0x20000 * k) % 0x1_0000_0000_0000_0000
  {
    (base + k * GICR_STRIDE) % 0x1_0000_0000_0000_0000
  }

  function Count(frames: seq<Frame>, a: u32): nat {
    if frames == [] then 0
    else Count(frames[..|frames| - 1], a) + if frames[|frames| - 1].affinity == a then 1 else 0
  }

  /** How many frames belong to some CPU of the list. */
  function Found(frames: seq<Frame>, affs: seq<u32>): nat {
    if frames == [] then 0
    else Found(frames[..|frames| - 1], affs) + if frames[|frames| - 1].affinity in affs then 1 else 0
  }

  function Total(frames: seq<Frame>, affs: seq<u32>): nat {
    if affs == [] then 0
    else Total(frames, affs[..|affs| - 1]) + Count(frames, affs[|affs| - 1])
  }

  lemma {:induction false} FoundByOneMore(frames: seq<Frame>, affs: seq<u32>, a: u32)
    requires a !in affs
    ensures Found(frames, affs + [a]) == Found(frames, affs) + Count(frames, a)
  {
    if frames != [] { FoundByOneMore(frames[..|frames| - 1], affs, a); }
  }

  lemma {:induction false} FoundNone(frames: seq<Frame>)
    ensures Found(frames, []) == 0
  {
    if frames != [] { FoundNone(frames[..|frames| - 1]); }
  }

  lemma {:induction false} FoundIsTotal(frames: seq<Frame>, affs: seq<u32>)
    requires Distinct(affs)
    ensures Found(frames, affs) == Total(frames, affs)
  {
    if affs == [] {
      FoundNone(frames);
    } else {
      var n := |affs| - 1;
      FoundIsTotal(frames, affs[..n]);
      FoundByOneMore(frames, affs[..n], affs[n]);
      assert affs == affs[..n] + [affs[n]];
    }
  }

  /** Pigeonhole: as many finds as CPUs, and none without one, leave exactly one for each. */
  lemma {:induction false} Pigeonhole(frames: seq<Frame>, affs: seq<u32>)
    requires forall i :: 0 <= i < |affs| ==> 0 < Count(frames, affs[i])
    ensures |affs| <= Total(frames, affs)
    ensures Total(frames, affs) == |affs| <==> forall i :: 0 <= i < |affs| ==> Count(frames, affs[i]) == 1
  {
    if affs != [] {
      var n := |affs| - 1;
      var init := affs[..n];
      Pigeonhole(frames, init);
      assert forall i :: 0 <= i < n ==> init[i] == affs[i];
      if Total(frames, affs) == |affs| {
        assert Total(frames, init) == n && Count(frames, affs[n]) == 1;
        forall i | 0 <= i < |affs| ensures Count(frames, affs[i]) == 1 {
          if i < n { assert Count(frames, init[i]) == 1; }
        }
      }
      if forall i :: 0 <= i < |affs| ==> Count(frames, affs[i]) == 1 {
        assert forall i :: 0 <= i < n ==> Count(frames, init[i]) == 1;
      }
    }
  }

  /** Frame `k` is the one and only frame with this affinity. */
  ghost predicate OnlyFrame(frames: seq<Frame>, a: u32, k: nat) {
    && k < |frames| && frames[k].affinity == a
    && forall j :: 0 <= j < |frames| && frames[j].affinity == a ==> j == k
  }

  lemma {:induction false} CountZero(frames: seq<Frame>, a: u32)
    ensures Count(frames, a) == 0 <==> forall j :: 0 <= j < |frames| ==> frames[j].affinity != a
  {
    if frames != [] {
      var init := frames[..|frames| - 1];
      CountZero(init, a);
      assert forall j :: 0 <= j < |init| ==> init[j] == frames[j];
    }
  }

  lemma {:induction false} CountOne(frames: seq<Frame>, a: u32)
    ensures Count(frames, a) == 1 <==> exists k :: OnlyFrame(frames, a, k)
  {
    if frames != [] {
      var n := |frames| - 1;
      var init := frames[..n];
      CountOne(init, a);
      CountZero(init, a);
      assert forall j :: 0 <= j < n ==> init[j] == frames[j];
      if frames[n].affinity == a {
        if Count(init, a) == 0 { assert OnlyFrame(frames, a, n); }
        if k :| OnlyFrame(frames, a, k) {
          assert k == n;
        }
      } else {
        if k :| OnlyFrame(init, a, k) { assert OnlyFrame(frames, a, k); }
        if k :| OnlyFrame(frames, a, k) { assert OnlyFrame(init, a, k); }
      }
    }
  }

  lemma FrameApart(base: u64, j: nat, k: nat)
    requires j < k < 0x8000_0000_0000
    ensures FrameAddress(base, j) != FrameAddress(base, k)
  {
    var d := (k - j) * GICR_STRIDE;
    assert 0 < d < 0x1_0000_0000_0000_0000;
  }

  function Affinities(mpidrs: seq<u64>): (r: seq<u32>)
    ensures |r| == |mpidrs| && forall i :: 0 <= i < |r| ==> r[i] == Affinity(mpidrs[i])
  {
    if mpidrs == [] then []
    else Affinities(mpidrs[..|mpidrs| - 1]) + [Affinity(mpidrs[|mpidrs| - 1])]
  }

  lemma AffinitiesDistinct(mpidrs: seq<u64>)
    requires Distinct(mpidrs) && forall i :: 0 <= i < |mpidrs| ==> Masked(mpidrs[i])
    ensures Distinct(Affinities(mpidrs))
  {
    hide Affinity, Mask;
    var affs := Affinities(mpidrs);
    forall i, j | 0 <= i < j < |affs| ensures affs[i] != affs[j] {
      AffinityInjective(mpidrs[i], mpidrs[j]);
    }
  }

  /** The first `n` frames that the walk reads. */
  function Visited(base: u64, typer: Registers, n: nat): (r: seq<Frame>)
    ensures |r| == n && forall k :: 0 <= k < n ==> r[k] == DecodeTyper(typer(FrameAddress(base, k)))
  {
    if n == 0 then [] else Visited(base, typer, n - 1) + [DecodeTyper(typer(FrameAddress(base, n - 1)))]
  }

  /** No frame is marked last. */
  ghost predicate NoLast(frames: seq<Frame>) {
    forall k :: 0 <= k < |frames| ==> !frames[k].last
  }

  /** The last frame is marked so, and no other. */
  ghost predicate EndsAt(frames: seq<Frame>) {
    && frames != [] && frames[|frames| - 1].last
    && forall k :: 0 <= k < |frames| - 1 ==> !frames[k].last
  }

  /** What a completed walk leaves for one CPU: the address of its one frame. */
  ghost predicate HasOnly(base: u64, frames: seq<Frame>, a: u32, gicr: u64) {
    exists k :: OnlyFrame(frames, a, k) && gicr == FrameAddress(base, k) != 0
  }

  /** Every CPU has exactly one frame, and its gicr field holds that frame's address. */
  ghost predicate AllMatched(base: u64, frames: seq<Frame>, mpidrs: seq<u64>, gicr: seq<u64>) {
    |gicr| == |mpidrs| && forall i :: 0 <= i < |gicr| ==> HasOnly(base, frames, Affinity(mpidrs[i]), gicr[i])
  }

  /** The gicr field after the frames seen so far: the last match, else untouched. */
  function Latest(base: u64, frames: seq<Frame>, a: u32, was: u64): u64 {
    if frames == [] then was
    else if frames[|frames| - 1].affinity == a then FrameAddress(base, |frames| - 1)
    else Latest(base, frames[..|frames| - 1], a, was)
  }

  lemma {:induction false} LatestMeans(base: u64, frames: seq<Frame>, a: u32)
    ensures Count(frames, a) == 0 ==> Latest(base, frames, a, 0) == 0
    ensures forall k :: OnlyFrame(frames, a, k) ==> Latest(base, frames, a, 0) == FrameAddress(base, k)
  {
    if frames != [] {
      var n := |frames| - 1;
      var init := frames[..n];
      LatestMeans(base, init, a);
      forall k: nat | OnlyFrame(frames, a, k) ensures Latest(base, frames, a, 0) == FrameAddress(base, k) {
        if k < n { assert OnlyFrame(init, a, k); }
      }
    }
  }

  /** The two checks after the walk pass exactly when every CPU has one frame, at a nonzero address. */
  lemma ChecksMeanBijection(base: u64, frames: seq<Frame>, affs: seq<u32>)
    requires Distinct(affs)
    ensures (Found(frames, affs) == |affs| && forall i :: 0 <= i < |affs| ==> Latest(base, frames, affs[i], 0) != 0)
       <==> (forall i :: 0 <= i < |affs| ==> HasOnly(base, frames, affs[i], Latest(base, frames, affs[i], 0)))
  {
    FoundIsTotal(frames, affs);
    forall i | 0 <= i < |affs|
      ensures Latest(base, frames, affs[i], 0) != 0 ==> 0 < Count(frames, affs[i])
      ensures Latest(base, frames, affs[i], 0) != 0 && Count(frames, affs[i]) == 1
         <==> HasOnly(base, frames, affs[i], Latest(base, frames, affs[i], 0))
    {
      LatestMeans(base, frames, affs[i]);
      CountOne(frames, affs[i]);
    }
    if forall i :: 0 <= i < |affs| ==> Latest(base, frames, affs[i], 0) != 0 {
      Pigeonhole(frames, affs);
    }
  }

  /** No two CPUs share a frame. */
  lemma FramesDistinct(base: u64, frames: seq<Frame>, a: u32, b: u32, g: u64, h: u64)
    requires a != b && HasOnly(base, frames, a, g) && HasOnly(base, frames, b, h)
    requires |frames| <= 0x8000_0000_0000
    ensures g != h
  {
    var j :| OnlyFrame(frames, a, j) && g == FrameAddress(base, j);
    var k :| OnlyFrame(frames, b, k) && h == FrameAddress(base, k);
    if j < k { FrameApart(base, j, k); } else { FrameApart(base, k, j); }
  }

  /** One frame against every CPU: the inner loop of the walk. */
  method Claim(mpidrs: seq<u64>, aff: u32, at: u64, was: seq<u64>) returns (gicr: seq<u64>, found: bool)
    requires |was| == |mpidrs|
    ensures |gicr| == |was|
    ensures found <==> aff in Affinities(mpidrs)
    ensures forall j :: 0 <= j < |was| ==> gicr[j] == if Affinities(mpidrs)[j] == aff then at else was[j]
  {
    ghost var affs := Affinities(mpidrs);
    gicr, found := was, false;
    for i := 0 to |mpidrs|
      invariant |gicr| == |mpidrs|
      invariant found <==> exists j :: 0 <= j < i && affs[j] == aff
      invariant forall j :: 0 <= j < i ==> gicr[j] == if affs[j] == aff then at else was[j]
      invariant forall j :: i <= j < |gicr| ==> gicr[j] == was[j]
    {
      if Affinity(mpidrs[i]) == aff {
        gicr := gicr[i := at];
        found := true;
      }
    }
  }

  /** The two checks after the walk. */
  method Checks(base: u64, ghost frames: seq<Frame>, mpidrs: seq<u64>, nrd: nat, gicr: seq<u64>) returns (ok: bool)
    requires var affs := Affinities(mpidrs);
      && Distinct(affs) && |frames| <= 0x8000_0000_0000 && nrd == Found(frames, affs) && |gicr| == |mpidrs|
      && forall i :: 0 <= i < |gicr| ==> gicr[i] == Latest(base, frames, affs[i], 0)
    ensures ok <==> forall i :: 0 <= i < |gicr| ==> HasOnly(base, frames, Affinity(mpidrs[i]), gicr[i])
    ensures ok ==> Distinct(gicr)
  {
    hide Latest, HasOnly, FrameAddress, Affinity;
    ghost var affs := Affinities(mpidrs);
    ChecksMeanBijection(base, frames, affs);
    ok := nrd == |mpidrs|;
    for i := 0 to |mpidrs|
      invariant ok <==> nrd == |mpidrs| && forall j :: 0 <= j < i ==> gicr[j] != 0
    {
      if gicr[i] == 0 { ok := false; }
    }
    if ok {
      forall i, j | 0 <= i < j < |gicr| ensures gicr[i] != gicr[j] {
        FramesDistinct(base, frames, affs[i], affs[j], gicr[i], gicr[j]);
      }
    }
  }

  lemma VisitedNext(base: u64, typer: Registers, n: nat)
    ensures Visited(base, typer, n + 1) == Visited(base, typer, n) + [DecodeTyper(typer(FrameAddress(base, n)))]
    ensures FrameAddress(base, n + 1) == Add64(FrameAddress(base, n), GICR_STRIDE)
  {
    hide DecodeTyper;
    AddWraps(base + n * GICR_STRIDE);
  }

  lemma AddWraps(x: nat)
    ensures (x + GICR_STRIDE) % 0x1_0000_0000_0000_0000
         == (x % 0x1_0000_0000_0000_0000 + GICR_STRIDE) % 0x1_0000_0000_0000_0000
  {
    var q, r := x / 0x1_0000_0000_0000_0000, x % 0x1_0000_0000_0000_0000;
    assert x == q * 0x1_0000_0000_0000_0000 + r;
  }

  /** What holds after `n` frames. */
  ghost predicate Walked(mpidrs: seq<u64>, base: u64, frames: seq<Frame>, last: bool, nrd: nat, gicr: seq<u64>) {
    var affs := Affinities(mpidrs);
    && (if last then EndsAt(frames) else forall k :: 0 <= k < |frames| ==> !frames[k].last)
    && nrd == Found(frames, affs) && |gicr| == |mpidrs|
    && forall i :: 0 <= i < |gicr| ==> gicr[i] == Latest(base, frames, affs[i], 0)
  }

  lemma FirstFrame(mpidrs: seq<u64>, base: u64, gicr: seq<u64>)
    requires |gicr| == |mpidrs| && forall i :: 0 <= i < |gicr| ==> gicr[i] == 0
    ensures FrameAddress(base, 0) == base && Walked(mpidrs, base, [], false, 0, gicr)
  {
  }

  lemma WalkedMeans(mpidrs: seq<u64>, base: u64, frames: seq<Frame>, last: bool, nrd: nat, gicr: seq<u64>)
    requires Walked(mpidrs, base, frames, last, nrd, gicr)
    ensures if last then EndsAt(frames) else forall k :: 0 <= k < |frames| ==> !frames[k].last
    ensures nrd == Found(frames, Affinities(mpidrs)) && |gicr| == |mpidrs|
    ensures forall i :: 0 <= i < |gicr| ==> gicr[i] == Latest(base, frames, Affinities(mpidrs)[i], 0)
  {
  }

  lemma WalkNext(mpidrs: seq<u64>, base: u64, frames: seq<Frame>, nrd: nat, was: seq<u64>, f: Frame, gicr: seq<u64>)
    requires Walked(mpidrs, base, frames, false, nrd, was) && |gicr| == |was|
    requires forall j :: 0 <= j < |was| ==>
      gicr[j] == if Affinities(mpidrs)[j] == f.affinity then FrameAddress(base, |frames|) else was[j]
    ensures Walked(mpidrs, base, frames + [f], f.last, if f.affinity in Affinities(mpidrs) then nrd + 1 else nrd, gicr)
  {
    hide FrameAddress, Affinities;
    assert (frames + [f])[..|frames|] == frames;
  }

  // ---- The walk in terms of GICR_TYPER -----------------------------------------------

  /** Bit 4, Last, is clear in the first `n` frames. */
  ghost predicate NoneMarked(base: u64, typer: Registers, n: nat) {
    forall k: nat | k < n :: typer(FrameAddress(base, k)) % 0x20 < 0x10
  }

  /** Among the first `n` frames the one at `g`, and no other, has `a` in the upper half of GICR_TYPER. */
  ghost predicate Answers(base: u64, typer: Registers, n: nat, a: int, g: u64) {
    g != 0 && exists k: nat :: g == FrameAddress(base, k) && Alone(base, typer, n, a, k)
  }

  ghost predicate Alone(base: u64, typer: Registers, n: nat, a: int, k: nat) {
    && k < n && typer(FrameAddress(base, k)) / 0x1_0000_0000 == a
    && forall j: nat | j < n && typer(FrameAddress(base, j)) / 0x1_0000_0000 == a :: j == k
  }

  lemma Bit4(t: u64)
    ensures DecodeTyper(t).last <==> t % 0x20 >= 0x10
    ensures DecodeTyper(t).affinity == t / 0x1_0000_0000
  {
    assert t == t / 0x20 * 0x20 + t % 0x20;
    assert t / 0x10 == t / 0x20 * 2 + t % 0x20 / 0x10;
  }

  lemma MarkedMeans(base: u64, typer: Registers, n: nat)
    ensures NoLast(Visited(base, typer, n)) <==> NoneMarked(base, typer, n)
    ensures EndsAt(Visited(base, typer, n)) <==>
      n > 0 && NoneMarked(base, typer, n - 1) && typer(FrameAddress(base, n - 1)) % 0x20 >= 0x10
  {
    hide DecodeTyper, FrameAddress;
    var fs := Visited(base, typer, n);
    forall k: nat | k < n ensures fs[k].last <==> typer(FrameAddress(base, k)) % 0x20 >= 0x10 {
      Bit4(typer(FrameAddress(base, k)));
    }
  }

  lemma AnswersMeans(base: u64, typer: Registers, n: nat, a: u32, g: u64)
    ensures HasOnly(base, Visited(base, typer, n), a, g) <==> Answers(base, typer, n, a, g)
  {
    hide DecodeTyper, FrameAddress;
    var fs := Visited(base, typer, n);
    forall k: nat | k < n ensures fs[k].affinity == typer(FrameAddress(base, k)) / 0x1_0000_0000 {
      Bit4(typer(FrameAddress(base, k)));
    }
    if k :| OnlyFrame(fs, a, k) && g == FrameAddress(base, k) != 0 {
      assert forall j: nat | j < n && typer(FrameAddress(base, j)) / 0x1_0000_0000 == a :: fs[j].affinity == a;
      assert Alone(base, typer, n, a, k);
    }
    if Answers(base, typer, n, a, g) {
      var k: nat :| g == FrameAddress(base, k) && Alone(base, typer, n, a, k);
      assert OnlyFrame(fs, a, k);
    }
  }

  lemma AffinityIs(m: u64)
    ensures Affinity(m) == m / 0x1_0000_0000 % 0x100 * 0x100_0000 + m % 0x100_0000
  {
  }

  lemma FramesAre(size: u64)
    ensures FramesIn(size) == size / 0x20000
  {
  }

  lemma BeforeLast(base: u64, typer: Registers, n: nat, mpidrs: seq<u64>, last: bool, nrd: nat, gicr: seq<u64>)
    requires n > 0 && Walked(mpidrs, base, Visited(base, typer, n), last, nrd, gicr)
    ensures NoneMarked(base, typer, n - 1)
  {
    hide NoneMarked, Visited;
    WalkedMeans(mpidrs, base, Visited(base, typer, n), last, nrd, gicr);
    MarkedMeans(base, typer, n);
    if !last { FewerMarked(base, typer, n); }
  }

  lemma FewerMarked(base: u64, typer: Registers, n: nat)
    requires n > 0 && NoneMarked(base, typer, n)
    ensures NoneMarked(base, typer, n - 1)
  {
  }

  /** What the completed walk leaves, in terms of the registers read. */
  lemma AllAnswer(base: u64, typer: Registers, n: nat, mpidrs: seq<u64>, gicr: seq<u64>)
    requires |gicr| == |mpidrs|
    ensures AllMatched(base, Visited(base, typer, n), mpidrs, gicr) <==> forall i :: 0 <= i < |mpidrs| ==>
      Answers(base, typer, n, mpidrs[i] / 0x1_0000_0000 % 0x100 * 0x100_0000 + mpidrs[i] % 0x100_0000, gicr[i])
  {
    hide HasOnly, Answers, Visited, Affinity;
    forall i | 0 <= i < |mpidrs|
      ensures HasOnly(base, Visited(base, typer, n), Affinity(mpidrs[i]), gicr[i])
         <==> Answers(base, typer, n, mpidrs[i] / 0x1_0000_0000 % 0x100 * 0x100_0000 + mpidrs[i] % 0x100_0000, gicr[i])
    {
      AffinityIs(mpidrs[i]);
      AnswersMeans(base, typer, n, Affinity(mpidrs[i]), gicr[i]);
    }
  }

  /** The walk of nxu_s10_gic over the frames of a region of `size` bytes. It reads frames up to the first
      that is marked last. On success gicr[i] is the one frame whose register names the affinity of CPU
      i; the walk fails exactly when it runs past the region or some CPU has no frame, or more than one,
      or the frame at address 0. */
  method MatchFrames(mpidrs: seq<u64>, base: u64, size: u64, typer: Registers)
    returns (ok: bool, scanned: nat, gicr: seq<u64>)
    requires Distinct(mpidrs) && forall i :: 0 <= i < |mpidrs| ==> Masked(mpidrs[i])
    ensures |gicr| == |mpidrs|
    ensures 0 < scanned <= size / 0x20000 + 1 && NoneMarked(base, typer, scanned - 1)
    ensures scanned <= size / 0x20000 ==> typer(FrameAddress(base, scanned - 1)) % 0x20 >= 0x10
    ensures ok <==> scanned <= size / 0x20000 && forall i :: 0 <= i < |mpidrs| ==>
      Answers(base, typer, scanned, mpidrs[i] / 0x1_0000_0000 % 0x100 * 0x100_0000 + mpidrs[i] % 0x100_0000, gicr[i])
    ensures ok ==> Distinct(gicr)
  {
    hide FramesIn, Visited, FrameAddress, DecodeTyper, Affinity, Distinct, OnlyFrame, Found, Latest, EndsAt,
         HasOnly, Walked, Answers, NoneMarked, NoLast;
    assert FramesIn(size) == size / 0x20000 by { FramesAre(size); }
    AffinitiesDistinct(mpidrs);
    ok, scanned := false, 0;
    gicr := seq(|mpidrs|, _ => 0);
    var nrd: nat, last, at := 0, false, base;
    FirstFrame(mpidrs, base, gicr);
    assert Visited(base, typer, 0) == [];
    while !last
      invariant scanned <= FramesIn(size) && at == FrameAddress(base, scanned)
      invariant Walked(mpidrs, base, Visited(base, typer, scanned), last, nrd, gicr) && |gicr| == |mpidrs|
      decreases FramesIn(size) - scanned, !last
    {
      VisitedNext(base, typer, scanned);
      var f := DecodeTyper(typer(at));
      ghost var was := gicr;
      var found;
      gicr, found := Claim(mpidrs, f.affinity, at, gicr);
      WalkNext(mpidrs, base, Visited(base, typer, scanned), nrd, was, f, gicr);
      last := f.last;
      scanned := scanned + 1;
      if found { nrd := nrd + 1; }
      if scanned > FramesIn(size) {
        BeforeLast(base, typer, scanned, mpidrs, last, nrd, gicr);
        return;
      }
      at := Add64(at, GICR_STRIDE);
    }
    WalkedMeans(mpidrs, base, Visited(base, typer, scanned), last, nrd, gicr);
    MarkedMeans(base, typer, scanned);
    AllAnswer(base, typer, scanned, mpidrs, gicr);
    ok := Checks(base, Visited(base, typer, scanned), mpidrs, nrd, gicr);
  }
}
