/** The two per-CPU evidence rings (foundation/observe/chronicle.c, foundation/observe/bbox.c):
    rings of different capacity that must both agree with one unbounded history of events. */
module Rings {
  import opened Words

  const CHRONICLE_CAP: nat := 128
  const BBOX_CAP: nat := 32

  datatype Entry = Entry(code: u32, a: u64, b: u64)

  /** What the rest of the kernel asked to be recorded on this CPU. */
  datatype Event = Put(e: Entry) | Failure(e: Entry)

  datatype Record = Record(seqNo: u32, e: Entry)

  datatype FailSlot = NoFailure | LastFailure(e: Entry)

  // ---- The one history ---------------------------------------------------------------

  /** A count as a 32-bit counter shows it. */
  function Wrapped(n: nat): u32 {
    n % 0x1_0000_0000
  }

  /** The chronicle takes one record for each event, numbered modulo 2^32. */
  function Chronicled(h: seq<Event>): (r: seq<Record>)
    ensures |r| == |h|
    ensures forall i :: 0 <= i < |h| ==> r[i] == Record(Wrapped(i), h[i].e)
  {
    if h == [] then [] else Chronicled(h[..|h| - 1]) + [Record(Wrapped(|h| - 1), h[|h| - 1].e)]
  }

  /** The black box takes one entry for each put and two for each failure. */
  function Boxed(h: seq<Event>): seq<Entry> {
    if h == [] then []
    else
      var last := h[|h| - 1];
      Boxed(h[..|h| - 1]) + (if last.Put? then [last.e] else [last.e, last.e])
  }

  /** What the failure slots show. */
  function FailureOf(h: seq<Event>): FailSlot {
    if h == [] then NoFailure
    else if h[|h| - 1].Failure? then LastFailure(h[|h| - 1].e)
    else FailureOf(h[..|h| - 1])
  }

  /** The last `n` items, oldest first. */
  function Last<T>(s: seq<T>, n: nat): (r: seq<T>)
    requires n <= |s|
    ensures |r| == n
  {
    s[|s| - n..]
  }

  lemma BothGrow(h: seq<Event>, ev: Event)
    ensures Chronicled(h + [ev]) == Chronicled(h) + [Record(Wrapped(|h|), ev.e)]
    ensures Boxed(h + [ev]) == Boxed(h) + (if ev.Put? then [ev.e] else [ev.e, ev.e])
    ensures FailureOf(h + [ev]) == if ev.Failure? then LastFailure(ev.e) else FailureOf(h)
  {
    hide Wrapped;
    assert (h + [ev])[..|h|] == h;
  }

  /** The slots show a failure exactly when it is the latest one, however many puts came after. */
  lemma {:induction false} FailureIsLatest(h: seq<Event>, e: Entry)
    ensures FailureOf(h) == LastFailure(e)
       <==> exists i :: 0 <= i < |h| && h[i] == Failure(e) && forall j :: i < j < |h| ==> h[j].Put?
    ensures FailureOf(h) == NoFailure <==> forall j :: 0 <= j < |h| ==> h[j].Put?
  {
    if h != [] {
      var n := |h| - 1;
      if h[n].Put? {
        var init := h[..n];
        FailureIsLatest(init, e);
        assert forall j :: 0 <= j < n ==> init[j] == h[j];
        if FailureOf(init) == LastFailure(e) {
          var i :| 0 <= i < n && init[i] == Failure(e) && forall j :: i < j < n ==> init[j].Put?;
          assert h[i] == Failure(e) && forall j :: i < j < |h| ==> h[j].Put?;
        }
        if i :| 0 <= i < |h| && h[i] == Failure(e) && forall j :: i < j < |h| ==> h[j].Put? {
          assert init[i] == Failure(e) && forall j :: i < j < n ==> init[j].Put?;
        }
      } else {
        assert h[n] == Failure(h[n].e);
      }
    }
  }

  /** Puts that come later leave the failure slots as they are. */
  lemma {:induction false} PutsKeepFailure(h: seq<Event>, more: seq<Event>)
    requires forall i :: 0 <= i < |more| ==> more[i].Put?
    ensures FailureOf(h + more) == FailureOf(h)
  {
    if more == [] {
      assert h + more == h;
    } else {
      var init := more[..|more| - 1];
      PutsKeepFailure(h, init);
      assert h + more == (h + init) + [more[|more| - 1]];
      BothGrow(h + init, more[|more| - 1]);
    }
  }

  /** The last `n` entries of the one are those of the other. */
  ghost predicate EndAlike(boxed: seq<Entry>, chronicled: seq<Record>, n: nat) {
    && n <= |boxed| && n <= |chronicled|
    && forall k :: 0 <= k < n ==> Last(boxed, n)[k] == Last(chronicled, n)[k].e
  }

  lemma OneMoreAlike(boxed: seq<Entry>, chronicled: seq<Record>, n: nat, r: Record)
    requires EndAlike(boxed, chronicled, n)
    ensures EndAlike(boxed + [r.e], chronicled + [r], n + 1)
  {
    assert Last(boxed + [r.e], n + 1) == Last(boxed, n) + [r.e];
    assert Last(chronicled + [r], n + 1) == Last(chronicled, n) + [r];
  }

  /** Where no failure fell among the last events, the two rings list the same entries. */
  lemma {:induction false} RingsAgree(h: seq<Event>, n: nat)
    requires n <= |h| && forall i :: |h| - n <= i < |h| ==> h[i].Put?
    ensures EndAlike(Boxed(h), Chronicled(h), n)
  {
    if n > 0 {
      hide EndAlike, Boxed, Chronicled;
      var init, ev := h[..|h| - 1], h[|h| - 1];
      forall i | |init| - (n - 1) <= i < |init| ensures init[i].Put? {
        assert init[i] == h[i];
      }
      RingsAgree(init, n - 1);
      assert h == init + [ev];
      AgreeOnce(init, ev, n - 1);
    }
  }

  lemma AgreeOnce(h: seq<Event>, ev: Event, n: nat)
    requires EndAlike(Boxed(h), Chronicled(h), n) && ev.Put?
    ensures EndAlike(Boxed(h + [ev]), Chronicled(h + [ev]), n + 1)
  {
    hide EndAlike, Boxed, Chronicled, FailureOf, Wrapped;
    BothGrow(h, ev);
    OneMoreAlike(Boxed(h), Chronicled(h), n, Record(Wrapped(|h|), ev.e));
  }

  // ---- A ring against a list ---------------------------------------------------------

  /** The slot written `k` puts ago, where `next` runs from 0 to the capacity. */
  function Back(next: nat, k: nat, cap: nat): (r: nat)
    requires next <= cap && 0 < k <= cap
    ensures r < cap
  {
    if k <= next then next - k else next + cap - k
  }

  /** The ring holds the last `cap` items of the list, newest just below `next`. */
  ghost predicate Holds<T>(ring: seq<T>, next: nat, list: seq<T>, cap: nat) {
    && |ring| == cap && next <= cap
    && (list != [] ==> 0 < next)
    && (|list| <= cap ==> next == |list|)
    && forall k: nat | 0 < k <= cap && k <= |list| :: ring[Back(next, k, cap)] == list[|list| - k]
  }

  /** Writing one item below the new `next` keeps the ring in step with the list. */
  lemma RingPut<T>(ring: seq<T>, next: nat, list: seq<T>, cap: nat, x: T)
    requires 0 < cap && Holds(ring, next, list, cap)
    ensures var i := if next == cap then 0 else next; Holds(ring[i := x], i + 1, list + [x], cap)
  {
    var i := if next == cap then 0 else next;
    var ring', next', list' := ring[i := x], i + 1, list + [x];
    forall k: nat | 0 < k <= cap && k <= |list'| ensures ring'[Back(next', k, cap)] == list'[|list'| - k] {
      if k > 1 {
        assert Back(next', k, cap) == Back(next, k - 1, cap) != i;
        assert ring[Back(next, k - 1, cap)] == list[|list| - (k - 1)];
      }
    }
  }

  /** The next value of a 32-bit counter. */
  function Next32(n: u32): u32 {
    if n == 0xffff_ffff then 0 else n + 1
  }

  lemma CountUp(n: nat)
    ensures Wrapped(n) <= n && Wrapped(n + 1) == Next32(Wrapped(n))
  {
  }

  /** A ring with the two counters that go with it. */
  datatype Ring<T> = Ring(slots: seq<T>, next: nat, count: u32)

  /** The capacities divide 2^32, so a wrapped count still names a slot. */
  predicate Capacity(cap: nat) {
    cap == CHRONICLE_CAP || cap == BBOX_CAP
  }

  /** One whole put of a ring. */
  function RingStep<T>(r: Ring<T>, cap: nat, x: T): Ring<T>
    requires Capacity(cap) && |r.slots| == cap
  {
    var i := r.next % cap;
    Ring(r.slots[i := x], i + 1, Next32(r.count))
  }

  /** The ring holds the end of the list, and both counters name the same slot. */
  ghost predicate InStep<T>(r: Ring<T>, cap: nat, list: seq<T>)
    requires Capacity(cap)
  {
    Holds(r.slots, r.next, list, cap) && r.count == Wrapped(|list|) && r.next % cap == r.count % cap
  }

  lemma ModStep32(n: nat)
    ensures (n % 32 + 1) % 32 == (n + 1) % 32
  {
  }

  lemma ModStep128(n: nat)
    ensures (n % 128 + 1) % 128 == (n + 1) % 128
  {
  }

  lemma ModStep(n: nat, cap: nat)
    requires Capacity(cap)
    ensures (n % cap + 1) % cap == (n + 1) % cap
  {
    if cap == 32 { ModStep32(n); } else { ModStep128(n); }
  }

  /** Counting up moves the slot that the count names by one, also where the count wraps. */
  lemma CountStep(count: u32, cap: nat)
    requires Capacity(cap)
    ensures Next32(count) % cap == (count % cap + 1) % cap
  {
    ModStep(count, cap);
    if count == 0xffff_ffff { assert 0x1_0000_0000 % cap == 0; }
  }

  lemma IndexIs(next: nat, cap: nat)
    requires Capacity(cap) && next <= cap
    ensures next % cap == if next == cap then 0 else next
  {
  }

  /** A whole put keeps the ring in step. */
  lemma StepInStep<T>(r: Ring<T>, cap: nat, list: seq<T>, x: T)
    requires Capacity(cap) && InStep(r, cap, list)
    ensures InStep(RingStep(r, cap, x), cap, list + [x])
  {
    hide Wrapped, Next32, Holds;
    HoldsSize(r.slots, r.next, list, cap);
    RingPut(r.slots, r.next, list, cap, x);
    IndexIs(r.next, cap);
    CountUp(|list|);
    CountStep(r.count, cap);
  }

  lemma HoldsSize<T>(ring: seq<T>, next: nat, list: seq<T>, cap: nat)
    requires Holds(ring, next, list, cap)
    ensures |ring| == cap && next <= cap
  {
  }

  /** The slot that the dump reads for line `i` holds the entry put `n - i` puts ago. */
  lemma DumpSlot(next: nat, count: u32, n: nat, i: nat)
    requires next <= 32 && next % 32 == count % 32 && (0 < count ==> 0 < next)
    requires n == (if count > 32 then 32 else count) && i < n
    ensures (if count > 32 then (next + i) % 32 else i) == Back(next, n - i, 32)
  {
    if count > 32 {
      assert next + i < 32 || (next + i) % 32 == next + i - 32;
    } else {
      assert next == count;
    }
  }

  // ---- A put that is interrupted by others on the same rings ------------------------

  /** What an interrupt handler with IRQs masked puts in the chronicle: whole puts, in order. */
  function Chronicle(r: Ring<Record>, es: seq<Entry>): (c: Ring<Record>)
    requires |r.slots| == CHRONICLE_CAP
    ensures |c.slots| == CHRONICLE_CAP
  {
    if es == [] then r
    else
      var c := Chronicle(r, es[..|es| - 1]);
      RingStep(c, CHRONICLE_CAP, Record(c.count, es[|es| - 1]))
  }

  /** The same in the black box. */
  function Box(r: Ring<Entry>, es: seq<Entry>): (b: Ring<Entry>)
    requires |r.slots| == BBOX_CAP
    ensures |b.slots| == BBOX_CAP
  {
    if es == [] then r else RingStep(Box(r, es[..|es| - 1]), BBOX_CAP, es[|es| - 1])
  }

  function Puts(es: seq<Entry>): (h: seq<Event>)
    ensures |h| == |es| && forall i :: 0 <= i < |es| ==> h[i] == Put(es[i])
  {
    seq(|es|, i requires 0 <= i < |es| => Put(es[i]))
  }

  /** Both rings stand for the history. */
  ghost predicate Agree(c: Ring<Record>, b: Ring<Entry>, h: seq<Event>) {
    InStep(c, CHRONICLE_CAP, Chronicled(h)) && InStep(b, BBOX_CAP, Boxed(h))
  }

  /** Where an interrupt can cut into one put. A record cut into while it is written, or overwritten
      by the handler and finished afterwards, ends up with any contents at all. */
  datatype Gap =
    | Before
    | ChronicleRecord(torn: Record)
    | ChronicleMoved
    | ChronicleCount
    | Between
    | BoxRecord(mixed: Entry)
    | BoxMoved
    | BoxCount
    | After

  /** The chronicle after a put of `e` that is interrupted, at the gap, by puts of `ys`. */
  function CutChronicle(c: Ring<Record>, e: Entry, ys: seq<Entry>, g: Gap): Ring<Record>
    requires |c.slots| == CHRONICLE_CAP
  {
    var i := c.next % CHRONICLE_CAP;
    var moved := Ring(c.slots[i := Record(c.count, e)], i + 1, c.count);
    match g
    case Before => Chronicle(c, ys + [e])
    case ChronicleRecord(torn) =>
      var d := Chronicle(c, ys);
      Ring(d.slots[i := torn], i + 1, Next32(d.count))
    case ChronicleMoved =>
      var d := Chronicle(moved, ys);
      d.(count := Next32(d.count))
    case ChronicleCount =>
      Chronicle(moved, ys).(count := Next32(c.count))
    case _ => Chronicle(c, [e] + ys)
  }

  /** The black box after it. */
  function CutBox(b: Ring<Entry>, e: Entry, ys: seq<Entry>, g: Gap): Ring<Entry>
    requires |b.slots| == BBOX_CAP
  {
    var i := b.next % BBOX_CAP;
    var moved := Ring(b.slots[i := e], i + 1, b.count);
    match g
    case BoxRecord(mixed) =>
      var d := Box(b, ys);
      Ring(d.slots[i := mixed], i + 1, Next32(d.count))
    case BoxMoved =>
      var d := Box(moved, ys);
      d.(count := Next32(d.count))
    case BoxCount =>
      Box(moved, ys).(count := Next32(b.count))
    case After => Box(b, [e] + ys)
    case _ => Box(b, ys + [e])
  }

  /** The places where an interrupt does no harm. */
  predicate Harmless(e: Entry, ys: seq<Entry>, g: Gap) {
    g.Before? || g.BoxMoved? || g.After? || (g.Between? && forall i :: 0 <= i < |ys| ==> ys[i] == e)
  }

  lemma {:induction false} PutsInStep(c: Ring<Record>, b: Ring<Entry>, h: seq<Event>, es: seq<Entry>)
    requires Agree(c, b, h)
    ensures |c.slots| == CHRONICLE_CAP && |b.slots| == BBOX_CAP
    ensures Agree(Chronicle(c, es), Box(b, es), h + Puts(es))
  {
    hide RingStep, Wrapped, Next32, Holds, Puts;
    HoldsSize(c.slots, c.next, Chronicled(h), CHRONICLE_CAP);
    HoldsSize(b.slots, b.next, Boxed(h), BBOX_CAP);
    if es == [] {
      assert h + Puts(es) == h;
    } else {
      var n := |es| - 1;
      var h' := h + Puts(es[..n]);
      PutsInStep(c, b, h, es[..n]);
      BothGrow(h', Put(es[n]));
      assert h + Puts(es) == h' + [Put(es[n])];
      var d := Chronicle(c, es[..n]);
      StepInStep(d, CHRONICLE_CAP, Chronicled(h'), Record(d.count, es[n]));
      StepInStep(Box(b, es[..n]), BBOX_CAP, Boxed(h'), es[n]);
    }
  }

  /** The counters of a ring after `k` more puts, modulo its capacity. */
  predicate Moved<T>(r: Ring<T>, s: Ring<T>, k: nat, cap: nat)
    requires Capacity(cap)
  {
    s.next % cap == (r.next + k) % cap && s.count % cap == (r.count + k) % cap
  }

  lemma StepMoves<T>(r: Ring<T>, s: Ring<T>, k: nat, cap: nat, x: T)
    requires Capacity(cap) && |s.slots| == cap && Moved(r, s, k, cap)
    ensures Moved(r, RingStep(s, cap, x), k + 1, cap)
  {
    hide Next32;
    CountStep(s.count, cap);
    ModStep(r.next + k, cap);
    ModStep(r.count + k, cap);
  }

  lemma {:induction false} PutsMove(c: Ring<Record>, b: Ring<Entry>, es: seq<Entry>)
    requires |c.slots| == CHRONICLE_CAP && |b.slots| == BBOX_CAP
    ensures Moved(c, Chronicle(c, es), |es|, CHRONICLE_CAP) && Moved(b, Box(b, es), |es|, BBOX_CAP)
  {
    if es != [] {
      hide RingStep, Moved;
      var n := |es| - 1;
      PutsMove(c, b, es[..n]);
      var d := Chronicle(c, es[..n]);
      StepMoves(c, d, n, CHRONICLE_CAP, Record(d.count, es[n]));
      StepMoves(b, Box(b, es[..n]), n, BBOX_CAP, es[n]);
    }
  }

  /** Fewer steps than the capacity are seen in the counters. */
  lemma OffStep(a: nat, k: nat, cap: nat)
    requires Capacity(cap) && 0 < k < BBOX_CAP
    ensures (a + k) % cap != a % cap
  {
    if cap == 32 { Off32(a, k); } else { Off128(a, k); }
  }

  lemma Off32(a: nat, k: nat)
    requires 0 < k < 32
    ensures (a + k) % 32 != a % 32
  {
  }

  lemma Off128(a: nat, k: nat)
    requires 0 < k < 32
    ensures (a + k) % 128 != a % 128
  {
  }

  lemma {:induction false} ModAdd(a: nat, b: nat, k: nat, cap: nat)
    requires Capacity(cap) && a % cap == b % cap
    ensures (a + k) % cap == (b + k) % cap
  {
    if k > 0 {
      ModAdd(a, b, k - 1, cap);
      ModStep(a + k - 1, cap);
      ModStep(b + k - 1, cap);
    }
  }

  /** An index taken before the interrupt and stored after it leaves the ring out of step. */
  lemma IndexLost<T>(r: Ring<T>, d: Ring<T>, s: Ring<T>, k: nat, cap: nat)
    requires Capacity(cap) && r.next % cap == r.count % cap && 0 < k < BBOX_CAP
    requires Moved(r, d, k, cap) && s.next == r.next % cap + 1 && s.count == Next32(d.count)
    ensures s.next % cap != s.count % cap
  {
    hide Next32;
    CountStep(d.count, cap);
    ModStep(r.count + k, cap);
    ModStep(r.next, cap);
    ModAdd(r.next, r.count, 1, cap);
    OffStep(r.count + 1, k, cap);
  }

  /** So does a count taken before it and stored after it. */
  lemma CountLost<T>(r: Ring<T>, moved: Ring<T>, d: Ring<T>, k: nat, cap: nat)
    requires Capacity(cap) && r.next % cap == r.count % cap && 0 < k < BBOX_CAP
    requires moved.next == r.next % cap + 1 && Moved(moved, d, k, cap)
    ensures d.next % cap != Next32(r.count) % cap
  {
    hide Next32;
    CountStep(r.count, cap);
    ModStep(r.count, cap);
    OffStep(r.next % cap + 1, k, cap);
  }

  /** A list of puts that begins and ends with the same one is the same put over and over. */
  lemma {:induction false} Rotated(e: Entry, ys: seq<Entry>)
    ensures [e] + ys == ys + [e] <==> forall i :: 0 <= i < |ys| ==> ys[i] == e
  {
    if ys != [] && [e] + ys == ys + [e] {
      var tail := ys[1..];
      assert ys[0] == ([e] + ys)[0] == e;
      assert [e] + tail == ys;
      assert ([e] + ys)[1..] == ys && (ys + [e])[1..] == tail + [e];
      Rotated(e, tail);
      assert forall i :: 0 < i < |ys| ==> ys[i] == tail[i - 1];
    }
  }

  /** A ring shows the end of its list, so two lists of one length that it holds end alike. */
  lemma SameEnd<T>(ring: seq<T>, next: nat, one: seq<T>, two: seq<T>, cap: nat, n: nat)
    requires Holds(ring, next, one, cap) && Holds(ring, next, two, cap) && |one| == |two|
    requires n <= cap && n <= |one|
    ensures Last(one, n) == Last(two, n)
  {
    forall j | 0 <= j < n ensures Last(one, n)[j] == Last(two, n)[j] {
      assert one[|one| - (n - j)] == ring[Back(next, n - j, cap)] == two[|two| - (n - j)];
    }
  }

  lemma PutsGrow(h: seq<Event>, es: seq<Entry>, e: Entry)
    ensures h + Puts(es + [e]) == h + Puts(es) + [Put(e)]
  {
  }

  /** What the black box lists after puts in some order. */
  lemma {:induction false} PutsBoxed(h: seq<Event>, es: seq<Entry>)
    ensures Boxed(h + Puts(es)) == Boxed(h) + es
  {
    hide Chronicled, FailureOf, Boxed, Puts;
    if es == [] {
      assert h + Puts(es) == h;
    } else {
      var init, e := es[..|es| - 1], es[|es| - 1];
      assert es == init + [e];
      PutsBoxed(h, init);
      PutsGrow(h, init, e);
      BothGrow(h + Puts(init), Put(e));
    }
  }

  /** The last records of the chronicle after them. */
  lemma PutsChronicled(h: seq<Event>, es: seq<Entry>, i: nat)
    requires i < |es|
    ensures |Chronicled(h + Puts(es))| == |h| + |es|
    ensures Last(Chronicled(h + Puts(es)), |es|)[i] == Record(Wrapped(|h| + i), es[i])
  {
    hide Wrapped;
    assert (h + Puts(es))[|h| + i] == Put(es[i]);
  }

  lemma {:induction false} BoxAppend(b: Ring<Entry>, es: seq<Entry>, fs: seq<Entry>)
    requires |b.slots| == BBOX_CAP
    ensures Box(b, es + fs) == Box(Box(b, es), fs)
  {
    hide RingStep;
    if fs == [] {
      assert es + fs == es;
    } else {
      var n := |fs| - 1;
      BoxAppend(b, es, fs[..n]);
      assert (es + fs)[..|es + fs| - 1] == es + fs[..n];
    }
  }

  /** The black box does not look at its count, so counting can wait. */
  lemma {:induction false} CountLater(r: Ring<Entry>, ys: seq<Entry>)
    requires |r.slots| == BBOX_CAP
    ensures var d := Box(r, ys);
      Box(r.(count := Next32(r.count)), ys) == d.(count := Next32(d.count))
  {
    hide Next32;
    if ys != [] { CountLater(r, ys[..|ys| - 1]); }
  }

  lemma BoxMovedLate(b: Ring<Entry>, e: Entry, ys: seq<Entry>)
    requires |b.slots| == BBOX_CAP
    ensures CutBox(b, e, ys, BoxMoved) == Box(b, [e] + ys)
  {
    hide Next32;
    var i := b.next % BBOX_CAP;
    var moved := Ring(b.slots[i := e], i + 1, b.count);
    BoxAppend(b, [e], ys);
    assert [e][..0] == [];
    assert Box(b, [e]) == RingStep(Box(b, []), BBOX_CAP, e);
    CountLater(moved, ys);
  }

  lemma HarmlessAgrees(c: Ring<Record>, b: Ring<Entry>, h: seq<Event>, e: Entry, ys: seq<Entry>, g: Gap)
    requires Agree(c, b, h) && |c.slots| == CHRONICLE_CAP && |b.slots| == BBOX_CAP
    requires Harmless(e, ys, g)
    ensures var p := if g.Before? then ys + [e] else [e] + ys;
      Agree(CutChronicle(c, e, ys, g), CutBox(b, e, ys, g), h + Puts(p))
  {
    hide Agree, Chronicle, Box, Puts;
    PutsInStep(c, b, h, ys + [e]);
    PutsInStep(c, b, h, [e] + ys);
    BoxMovedLate(b, e, ys);
    Rotated(e, ys);
  }

  lemma {:induction false} ChronicleCounts(r: Ring<Record>, es: seq<Entry>, w: nat)
    requires |r.slots| == CHRONICLE_CAP && r.count == Wrapped(w)
    ensures Chronicle(r, es).count == Wrapped(w + |es|)
  {
    hide Wrapped;
    if es != [] {
      ChronicleCounts(r, es[..|es| - 1], w);
      CountUp(w + |es| - 1);
    }
  }

  /** Cut between its two counters, the chronicle's latest record has the number that the count then had. */
  lemma LatestNumber(c: Ring<Record>, e: Entry, ys: seq<Entry>, w: nat)
    requires |c.slots| == CHRONICLE_CAP && c.count == Wrapped(w) && 0 < |ys|
    ensures var d := CutChronicle(c, e, ys, ChronicleMoved);
      0 < d.next <= |d.slots| && d.slots[d.next - 1].seqNo == Wrapped(w + |ys| - 1)
  {
    hide Wrapped, Next32;
    var i := c.next % CHRONICLE_CAP;
    var moved := Ring(c.slots[i := Record(c.count, e)], i + 1, c.count);
    ChronicleCounts(moved, ys[..|ys| - 1], w);
  }

  lemma LastNumber(h: seq<Event>, p: seq<Entry>)
    requires p != []
    ensures var list := Chronicled(h + Puts(p));
      list != [] && list[|list| - 1].seqNo == Wrapped(|h| + |p| - 1)
  {
    hide Wrapped, Puts;
  }

  lemma NextDiffers(n: u32)
    ensures Next32(n) != n
  {
  }

  lemma Newest<T>(r: Ring<T>, cap: nat, list: seq<T>)
    requires Capacity(cap) && InStep(r, cap, list) && list != []
    ensures 0 < r.next <= |r.slots| && r.slots[r.next - 1] == list[|list| - 1]
  {
    assert Back(r.next, 1, cap) == r.next - 1;
  }

  lemma NumbersDiffer(n: nat)
    ensures Wrapped(n) != Wrapped(n + 1)
  {
    CountUp(n);
    NextDiffers(Wrapped(n));
  }

  /** A ring whose latest record has the number before the list's is out of step. */
  lemma OneBehind(r: Ring<Record>, list: seq<Record>, n: nat)
    requires list != [] && list[|list| - 1].seqNo == Wrapped(n + 1)
    requires 0 < r.next <= |r.slots| && r.slots[r.next - 1].seqNo == Wrapped(n)
    ensures !InStep(r, CHRONICLE_CAP, list)
  {
    hide Wrapped, InStep;
    NumbersDiffer(n);
    if InStep(r, CHRONICLE_CAP, list) {
      Newest(r, CHRONICLE_CAP, list);
    }
  }

  /** Such a number was used before. */
  lemma NumberTwice(c: Ring<Record>, w: nat, e: Entry, ys: seq<Entry>, list: seq<Record>)
    requires |c.slots| == CHRONICLE_CAP && c.count == Wrapped(w) && 0 < |ys|
    requires list != [] && list[|list| - 1].seqNo == Wrapped(w + |ys|)
    ensures !InStep(CutChronicle(c, e, ys, ChronicleMoved), CHRONICLE_CAP, list)
  {
    hide InStep, Wrapped, CutChronicle;
    LatestNumber(c, e, ys, w);
    OneBehind(CutChronicle(c, e, ys, ChronicleMoved), list, w + |ys| - 1);
  }

  /** Cut between the two rings, they list the puts in different orders. */
  lemma TwoOrders(c: Ring<Record>, b: Ring<Entry>, h: seq<Event>, e: Entry, ys: seq<Entry>, p: seq<Entry>)
    requires Agree(c, b, h) && |c.slots| == CHRONICLE_CAP && |b.slots| == BBOX_CAP
    requires |ys| < BBOX_CAP && |p| == |ys| + 1
    requires Agree(Chronicle(c, [e] + ys), Box(b, ys + [e]), h + Puts(p))
    ensures [e] + ys == p == ys + [e]
  {
    hide Chronicle, Box, Puts, Holds, Wrapped;
    PutsInStep(c, b, h, [e] + ys);
    PutsInStep(c, b, h, ys + [e]);
    PutsBoxed(h, ys + [e]);
    PutsBoxed(h, p);
    var n := |p|;
    forall i: nat | i < n
      ensures |Chronicled(h + Puts([e] + ys))| == |Chronicled(h + Puts(p))| == |h| + n
      ensures Last(Chronicled(h + Puts([e] + ys)), n)[i].e == ([e] + ys)[i]
      ensures Last(Chronicled(h + Puts(p)), n)[i].e == p[i]
    {
      PutsChronicled(h, [e] + ys, i);
      PutsChronicled(h, p, i);
    }
    var d := Chronicle(c, [e] + ys);
    SameEnd(d.slots, d.next, Chronicled(h + Puts([e] + ys)), Chronicled(h + Puts(p)), CHRONICLE_CAP, n);
    var x := Box(b, ys + [e]);
    SameEnd(x.slots, x.next, Boxed(h + Puts(ys + [e])), Boxed(h + Puts(p)), BBOX_CAP, n);
  }

  lemma HarmedDisagrees(
      c: Ring<Record>, b: Ring<Entry>, h: seq<Event>, e: Entry, ys: seq<Entry>, g: Gap, p: seq<Entry>)
    requires Agree(c, b, h) && |c.slots| == CHRONICLE_CAP && |b.slots| == BBOX_CAP
    requires 0 < |ys| < BBOX_CAP && |p| == |ys| + 1 && !Harmless(e, ys, g)
    ensures !Agree(CutChronicle(c, e, ys, g), CutBox(b, e, ys, g), h + Puts(p))
  {
    hide Chronicle, Box, Puts, Holds, Wrapped, Moved, Next32, Chronicled, Boxed;
    var k := |ys|;
    PutsMove(c, b, ys);
    var i := c.next % CHRONICLE_CAP;
    var cMoved := Ring(c.slots[i := Record(c.count, e)], i + 1, c.count);
    var j := b.next % BBOX_CAP;
    var bMoved := Ring(b.slots[j := e], j + 1, b.count);
    PutsMove(cMoved, bMoved, ys);
    match g
    case ChronicleRecord(_) =>
      IndexLost(c, Chronicle(c, ys), CutChronicle(c, e, ys, g), k, CHRONICLE_CAP);
    case ChronicleMoved =>
      LastNumber(h, p);
      NumberTwice(c, |h|, e, ys, Chronicled(h + Puts(p)));
    case ChronicleCount =>
      CountLost(c, cMoved, Chronicle(cMoved, ys), k, CHRONICLE_CAP);
    case Between =>
      Rotated(e, ys);
      if Agree(CutChronicle(c, e, ys, g), CutBox(b, e, ys, g), h + Puts(p)) {
        TwoOrders(c, b, h, e, ys, p);
      }
    case BoxRecord(_) =>
      IndexLost(b, Box(b, ys), CutBox(b, e, ys, g), k, BBOX_CAP);
    case BoxCount =>
      CountLost(b, bMoved, Box(bMoved, ys), k, BBOX_CAP);
    case _ =>
  }

  /** A put that an interrupt's puts cut into leaves both rings in agreement with some order of all
      these puts if and only if the cut is harmless. */
  lemma CutAgreesIff(c: Ring<Record>, b: Ring<Entry>, h: seq<Event>, e: Entry, ys: seq<Entry>, g: Gap)
    requires Agree(c, b, h) && |c.slots| == CHRONICLE_CAP && |b.slots| == BBOX_CAP
    requires 0 < |ys| < BBOX_CAP
    ensures Harmless(e, ys, g)
       <==> exists p: seq<Entry> :: |p| == |ys| + 1
              && Agree(CutChronicle(c, e, ys, g), CutBox(b, e, ys, g), h + Puts(p))
  {
    hide Agree, CutChronicle, CutBox, Puts, Harmless;
    if Harmless(e, ys, g) {
      HarmlessAgrees(c, b, h, e, ys, g);
      var p := if g.Before? then ys + [e] else [e] + ys;
      assert |p| == |ys| + 1;
    } else {
      forall p: seq<Entry> | |p| == |ys| + 1
        ensures !Agree(CutChronicle(c, e, ys, g), CutBox(b, e, ys, g), h + Puts(p))
      {
        HarmedDisagrees(c, b, h, e, ys, g, p);
      }
    }
  }

  lemma PutOnce(c: Ring<Record>, e: Entry)
    requires |c.slots| == CHRONICLE_CAP
    ensures Chronicle(c, [e]) == RingStep(c, CHRONICLE_CAP, Record(c.count, e))
  {
    assert [e][..0] == [];
  }

  lemma PutTwice(b: Ring<Entry>, e: Entry)
    requires |b.slots| == BBOX_CAP
    ensures Box(b, [e, e]) == RingStep(RingStep(b, BBOX_CAP, e), BBOX_CAP, e)
  {
    hide RingStep;
    assert [e][..0] == [] && [e, e][..1] == [e];
    assert Box(b, [e]) == RingStep(b, BBOX_CAP, e);
  }

  // ---- The rings as the kernel keeps them --------------------------------------------

  /** One CPU's chronicle and black box, with the history they stand for. */
  class Evidence {
    var rec: array<Record>
    var next: nat
    var count: u32
    var fail: FailSlot

    var boxRec: array<Entry>
    var boxNext: nat
    var boxCount: u32
    var boxFail: FailSlot

    ghost var history: seq<Event>

    ghost function ChronicleRing(): Ring<Record>
      reads this, rec
    {
      Ring(rec[..], next, count)
    }

    ghost function BoxRing(): Ring<Entry>
      reads this, boxRec
    {
      Ring(boxRec[..], boxNext, boxCount)
    }

    /** Both rings and both failure slots agree with the history. */
    ghost predicate Valid()
      reads this, rec, boxRec
    {
      Agree(ChronicleRing(), BoxRing(), history) && fail == boxFail == FailureOf(history)
    }

    constructor ()
      ensures Valid() && history == [] && fresh(rec) && fresh(boxRec)
    {
      rec := new Record[CHRONICLE_CAP](_ => Record(0, Entry(0, 0, 0)));
      next, count, fail := 0, 0, NoFailure;
      boxRec := new Entry[BBOX_CAP](_ => Entry(0, 0, 0));
      boxNext, boxCount, boxFail := 0, 0, NoFailure;
      history := [];
    }

    /** nxu_bbox_put */
    method BoxPut(e: Entry, ghost list: seq<Entry>)
      requires InStep(BoxRing(), BBOX_CAP, list)
      modifies this`boxNext, this`boxCount, boxRec
      ensures InStep(BoxRing(), BBOX_CAP, list + [e])
      ensures BoxRing() == RingStep(old(BoxRing()), BBOX_CAP, e)
      ensures var i := old(boxNext) % 32;
        boxRec[..] == old(boxRec[..])[i := e] && boxNext == i + 1 && boxCount == (old(boxCount) + 1) % 0x1_0000_0000
    {
      hide Holds, Wrapped;
      HoldsSize(boxRec[..], boxNext, list, BBOX_CAP);
      StepInStep(BoxRing(), BBOX_CAP, list, e);
      ghost var ring := boxRec[..];
      var i := boxNext % BBOX_CAP;
      boxRec[i] := e;
      assert boxRec[..] == ring[i := e];
      boxNext := i + 1;
      boxCount := Next32(boxCount);
    }

    /** nxu_bbox_fail */
    method BoxFail(e: Entry, ghost list: seq<Entry>)
      requires InStep(BoxRing(), BBOX_CAP, list)
      modifies this`boxNext, this`boxCount, this`boxFail, boxRec
      ensures InStep(BoxRing(), BBOX_CAP, list + [e]) && boxFail == LastFailure(e)
      ensures BoxRing() == RingStep(old(BoxRing()), BBOX_CAP, e)
    {
      BoxPut(e, list);
      boxFail := LastFailure(e);
    }

    /** The chronicle's half of a put. */
    method ChroniclePut(e: Entry, ghost list: seq<Record>)
      requires InStep(ChronicleRing(), CHRONICLE_CAP, list)
      modifies this`next, this`count, rec
      ensures InStep(ChronicleRing(), CHRONICLE_CAP, list + [Record(old(count), e)])
      ensures ChronicleRing() == RingStep(old(ChronicleRing()), CHRONICLE_CAP, Record(old(count), e))
      ensures var i := old(next) % 128;
        && rec[..] == old(rec[..])[i := Record(old(count), e)] && next == i + 1
        && count == (old(count) + 1) % 0x1_0000_0000
    {
      hide Holds, Wrapped;
      HoldsSize(rec[..], next, list, CHRONICLE_CAP);
      StepInStep(ChronicleRing(), CHRONICLE_CAP, list, Record(count, e));
      ghost var ring := rec[..];
      var i := next % CHRONICLE_CAP;
      rec[i] := Record(count, e);
      assert rec[..] == ring[i := Record(count, e)];
      next := i + 1;
      count := Next32(count);
    }

    /** nxu_chronicle_put */
    method Put(e: Entry)
      requires Valid()
      modifies this, rec, boxRec
      ensures Valid() && history == old(history) + [Event.Put(e)]
      ensures rec == old(rec) && boxRec == old(boxRec) && fail == old(fail) && boxFail == old(boxFail)
      ensures ChronicleRing() == Chronicle(old(ChronicleRing()), [e]) && BoxRing() == Box(old(BoxRing()), [e])
    {
      BothGrow(history, Event.Put(e));
      assert [e][..0] == [];
      hide Holds, Wrapped, RingStep;
      ChroniclePut(e, Chronicled(history));
      BoxPut(e, Boxed(history));
      history := history + [Event.Put(e)];
    }

    /** nxu_chronicle_fail */
    method Fail(e: Entry)
      requires Valid()
      modifies this, rec, boxRec
      ensures Valid() && history == old(history) + [Failure(e)]
      ensures rec == old(rec) && boxRec == old(boxRec) && fail == boxFail == LastFailure(e)
      ensures ChronicleRing() == Chronicle(old(ChronicleRing()), [e]) && BoxRing() == Box(old(BoxRing()), [e, e])
    {
      BothGrow(history, Failure(e));
      PutOnce(ChronicleRing(), e);
      PutTwice(BoxRing(), e);
      hide Holds, Wrapped, RingStep, Chronicle, Box, Boxed, Chronicled;
      fail := LastFailure(e);
      ChroniclePut(e, Chronicled(history));
      BoxPut(e, Boxed(history));
      BoxFail(e, Boxed(history) + [e]);
      assert Boxed(history) + [e] + [e] == Boxed(history) + [e, e];
      history := history + [Failure(e)];
    }

    /** nxu_bbox_dump: what it lists for this CPU, and the failure it then shows. */
    method Dump() returns (out: seq<Entry>, shown: FailSlot)
      requires Valid()
      ensures var list := Boxed(history);
        var n := Wrapped(|list|);
        out == Last(list, if n > BBOX_CAP then BBOX_CAP else n)
      ensures shown == FailureOf(history)
    {
      hide Wrapped;
      CountUp(|Boxed(history)|);
      out, shown := [], boxFail;
      if boxCount == 0 && boxFail.NoFailure? { return; }
      var n := if boxCount > BBOX_CAP then BBOX_CAP else boxCount;
      ghost var list := Boxed(history);
      for i := 0 to n
        invariant out == Last(list, n)[..i]
      {
        var idx := if boxCount > BBOX_CAP then (boxNext + i) % BBOX_CAP else i;
        DumpSlot(boxNext, boxCount, n, i);
        out := out + [boxRec[idx]];
      }
    }
  }
}
