/** Stage S5 and S6: who owns which physical range, and which ranges get mapped with which
    permission (foundation/space/ownership.c, foundation/space/mmu_policy.c). */
module Space {
  import opened Words
  import opened PageTables

  const OWNER_MAX: int := 16

  datatype Owner = Unknown | Firmware | ImageOwner | Nxu | Mmio | Reserved

  datatype Region = Region(range: Range, owner: Owner)

  datatype Image = Image(base: u64, size: u64, textEnd: u64, rodataEnd: u64)

  /** The accepted facts that S5 turns into owners. */
  datatype Accepted = Accepted(mem: seq<Range>, dtbValid: bool, dtb: Range, gicd: Range, gicr: Range,
                               uartValid: bool, uart: Range, pwrc: Range)

  function Sized(r: Range, owner: Owner): Region {
    Region(Range(r.base, PageUp(r.size)), owner)
  }

  function OneIf(c: bool, r: Region): seq<Region> {
    if c then [r] else []
  }

  /** The regions S5 asks for, in order. */
  function Wanted(f: Accepted, image: Image): seq<Region> {
    seq(|f.mem|, i requires 0 <= i < |f.mem| => Region(f.mem[i], Nxu)) + AfterMemory(f, image)
  }

  function AfterMemory(f: Accepted, image: Image): seq<Region> {
    [Sized(Range(image.base, image.size), ImageOwner)]
    + (OneIf(f.dtbValid && f.dtb.size != 0, Sized(f.dtb, Reserved)) + Devices(f))
  }

  function Devices(f: Accepted): seq<Region> {
    [Sized(f.gicd, Mmio)] + ([Sized(f.gicr, Mmio)] + OptionalDevices(f))
  }

  function OptionalDevices(f: Accepted): seq<Region> {
    OneIf(f.uartValid, Sized(f.uart, Mmio)) + OneIf(f.pwrc.size != 0, Sized(f.pwrc, Mmio))
  }

  ghost predicate AllOk(rs: seq<Region>) {
    |rs| <= OWNER_MAX && forall r <- rs :: RangeOk(r.range.base, r.range.size)
  }

  /** The regions added so far all passed the check, and `rest` is what is still to come. */
  ghost predicate OnTrack(wanted: seq<Region>, rs: seq<Region>, rest: seq<Region>) {
    wanted == rs + rest && AllOk(rs)
  }

  lemma Advance(wanted: seq<Region>, rs: seq<Region>, x: Region, rest: seq<Region>)
    requires OnTrack(wanted, rs, [x] + rest)
    ensures RangeOk(x.range.base, x.range.size) && |rs| < OWNER_MAX ==> OnTrack(wanted, rs + [x], rest)
    ensures !(RangeOk(x.range.base, x.range.size) && |rs| < OWNER_MAX) ==> !AllOk(wanted)
  {
    assert rs + ([x] + rest) == (rs + [x]) + rest;
    assert wanted[|rs|] == x;
  }

  predicate Covers(r: Region, pa: u64, size: u64) {
    RangeContains(r.range.base, r.range.size, pa, if size == 0 then 1 else size)
  }

  /** Region `i` decides the owner of a range: it covers it, nothing smaller does, and no later one ties. */
  ghost predicate Decides(rs: seq<Region>, i: nat, pa: u64, size: u64)
    requires i < |rs|
  {
    && Covers(rs[i], pa, size)
    && forall j: nat | j < |rs| && Covers(rs[j], pa, size) ::
         rs[i].range.size <= rs[j].range.size && (i < j ==> rs[i].range.size < rs[j].range.size)
  }

  class Table {
    var count: u32
    const region: array<Region>
    var armed: bool

    ghost predicate Valid()
      reads this
    {
      region.Length == OWNER_MAX && count <= OWNER_MAX
    }

    ghost function Regions(): seq<Region>
      requires Valid()
      reads this, region
    {
      region[..count]
    }

    constructor ()
      ensures Valid() && Regions() == [] && !armed && fresh(region)
    {
      count := 0;
      armed := false;
      region := new Region[OWNER_MAX](_ => Region(Range(0, 0), Unknown));
    }

    method AddOwner(base: u64, size: u64, owner: Owner) returns (ok: bool)
      requires Valid()
      modifies this`count, region
      ensures Valid()
      ensures ok <==> RangeOk(base, size) && |old(Regions())| < OWNER_MAX
      ensures Regions() == old(Regions()) + if ok then [Region(Range(base, size), owner)] else []
    {
      if !RangeOk(base, size) { return false; }
      if count >= OWNER_MAX { return false; }
      region[count] := Region(Range(base, size), owner);
      count := count + 1;
      return true;
    }

    /** nxu_space_owner: the owner of the smallest region that holds the whole range. */
    method OwnerOf(pa: u64, size: u64) returns (owner: Owner)
      requires Valid()
      ensures OwnedBy(Regions(), pa, size, owner)
              || (owner == Unknown && forall r <- Regions() :: !Covers(r, pa, size))
    {
      owner := Unknown;
      var best: u64 := 0xffff_ffff_ffff_ffff;
      var i: u32 := 0;
      ghost var k: nat := 0;
      ghost var seen := false;
      while i < count
        invariant i <= count
        invariant !seen ==> owner == Unknown && best == 0xffff_ffff_ffff_ffff
        invariant !seen ==> forall r <- Regions()[..i] :: !Covers(r, pa, size)
        invariant seen ==> k < i as int && Decides(Regions()[..i], k, pa, size)
                           && owner == Regions()[k].owner && best == Regions()[k].range.size
      {
        ghost var before := Regions()[..i];
        assert Regions()[..i + 1] == before + [region[i]];
        if RangeContains(region[i].range.base, region[i].range.size, pa, if size == 0 then 1 else size) {
          if region[i].range.size <= best {
            best := region[i].range.size;
            owner := region[i].owner;
            seen, k := true, i;
          }
        }
        i := i + 1;
      }
      assert Regions()[..i] == Regions();
    }

    /** nxu_s5_ownership: every accepted fact gets its owner, in whole pages, and nothing else does; the
        stage fails exactly when some range is empty or wraps, or when there are more than sixteen. */
    method Ownership(f: Accepted, image: Image) returns (ok: bool)
      requires Valid()
      modifies this, region
      ensures Valid() && !armed
      ensures ok <==> Assignable(f, image)
      ensures ok ==> Assigned(f, image, Regions()) && Regions() == Wanted(f, image)
    {
      hide RangeOk, AllOk, OnTrack, OptionalDevices, Devices, AfterMemory, Assigned, Assignable, PageUp;
      WantedOk(f, image);
      if AllOk(Wanted(f, image)) { WantedMeans(f, image); }
      count := 0;
      armed := false;
      ghost var wanted, later := Wanted(f, image), AfterMemory(f, image);
      ghost var memory := seq(|f.mem|, i requires 0 <= i < |f.mem| => Region(f.mem[i], Nxu));
      NoneYet(wanted);
      assert Regions() == [];
      ok := OwnMemory(f.mem, wanted, memory, later);
      if !ok { return; }
      Unfold(f, image);
      ok := Own(Range(image.base, PageUp(image.size)), ImageOwner, wanted,
                OneIf(f.dtbValid && f.dtb.size != 0, Sized(f.dtb, Reserved)) + Devices(f));
      if !ok { return; }
      if f.dtbValid && f.dtb.size != 0 {
        ok := Own(Range(f.dtb.base, PageUp(f.dtb.size)), Reserved, wanted, Devices(f));
        if !ok { return; }
      }
      ok := OwnDevices(f, wanted);
    }

    /** One call of nxu_space_add, where `wanted` is what all calls together should leave. */
    method Own(r: Range, owner: Owner, ghost wanted: seq<Region>, ghost rest: seq<Region>) returns (ok: bool)
      requires Valid() && OnTrack(wanted, Regions(), [Region(r, owner)] + rest)
      modifies this`count, region
      ensures Valid()
      ensures if ok then OnTrack(wanted, Regions(), rest) else !AllOk(wanted)
    {
      hide RangeOk, AllOk, OnTrack;
      Advance(wanted, Regions(), Region(r, owner), rest);
      ok := AddOwner(r.base, r.size, owner);
    }

    /** The memory half of nxu_s5_ownership. */
    method OwnMemory(mem: seq<Range>, ghost wanted: seq<Region>, ghost memory: seq<Region>, ghost later: seq<Region>)
      returns (ok: bool)
      requires Valid() && OnTrack(wanted, Regions(), memory + later)
      requires |memory| == |mem| && forall i :: 0 <= i < |mem| ==> memory[i] == Region(mem[i], Nxu)
      modifies this`count, region
      ensures Valid()
      ensures if ok then OnTrack(wanted, Regions(), later) else !AllOk(wanted)
    {
      hide RangeOk, AllOk, OnTrack;
      var i := 0;
      assert memory[i..] == memory;
      while i < |mem|
        invariant Valid() && i <= |mem| && OnTrack(wanted, Regions(), memory[i..] + later)
      {
        assert memory[i..] + later == [memory[i]] + (memory[i + 1..] + later);
        ok := Own(mem[i], Nxu, wanted, memory[i + 1..] + later);
        if !ok { return; }
        i := i + 1;
      }
      assert memory[i..] + later == later;
      ok := true;
    }

    /** The device half of nxu_s5_ownership. */
    method OwnDevices(f: Accepted, ghost wanted: seq<Region>) returns (ok: bool)
      requires Valid() && OnTrack(wanted, Regions(), Devices(f))
      modifies this`count, region
      ensures Valid()
      ensures ok <==> AllOk(wanted)
      ensures ok ==> Regions() == wanted
    {
      hide RangeOk, AllOk, OptionalDevices, Devices, OnTrack, PageUp;
      Unfold(f, Image(0, 0, 0, 0));
      ok := Own(Range(f.gicd.base, PageUp(f.gicd.size)), Mmio, wanted, [Sized(f.gicr, Mmio)] + OptionalDevices(f));
      if !ok { return; }
      ok := Own(Range(f.gicr.base, PageUp(f.gicr.size)), Mmio, wanted, OptionalDevices(f));
      if !ok { return; }
      if f.uartValid {
        ok := Own(Range(f.uart.base, PageUp(f.uart.size)), Mmio, wanted, OneIf(f.pwrc.size != 0, Sized(f.pwrc, Mmio)));
        if !ok { return; }
      }
      if f.pwrc.size != 0 {
        assert [Sized(f.pwrc, Mmio)] + [] == [Sized(f.pwrc, Mmio)];
        ok := Own(Range(f.pwrc.base, PageUp(f.pwrc.size)), Mmio, wanted, []);
        if !ok { return; }
      }
      Finished(wanted, Regions());
    }
  }

  lemma Finished(wanted: seq<Region>, rs: seq<Region>)
    requires OnTrack(wanted, rs, [])
    ensures rs == wanted && AllOk(wanted)
  {
    assert rs + [] == rs;
  }

  lemma NoneYet(wanted: seq<Region>)
    ensures OnTrack(wanted, [], wanted)
  {
  }

  /** The lists behind Wanted, with optional entries resolved. */
  lemma Unfold(f: Accepted, image: Image)
    ensures AfterMemory(f, image) == [Sized(Range(image.base, image.size), ImageOwner)]
              + (OneIf(f.dtbValid && f.dtb.size != 0, Sized(f.dtb, Reserved)) + Devices(f))
    ensures forall r: Region, t: seq<Region> :: OneIf(true, r) + t == [r] + t && OneIf(false, r) + t == t
    ensures Devices(f) == [Sized(f.gicd, Mmio)] + ([Sized(f.gicr, Mmio)] + OptionalDevices(f))
    ensures OptionalDevices(f) == OneIf(f.uartValid, Sized(f.uart, Mmio)) + OneIf(f.pwrc.size != 0, Sized(f.pwrc, Mmio))
  {
  }

  // ---- What S5 assigns ---------------------------------------------------------------

  /** The region belongs to `owner`, starts with the range and spans it in as few whole pages as can be. */
  predicate Spans(x: Region, r: Range, owner: Owner) {
    && x.owner == owner && x.range.base == r.base
    && x.range.size % 0x1000 == 0 && r.size <= x.range.size < r.size + 0x1000
  }

  ghost predicate Owned(rs: seq<Region>, r: Range, owner: Owner) {
    exists x <- rs :: Spans(x, r, owner)
  }

  /** Memory is the kernel's, the image its own, the device tree reserved and the devices MMIO; nothing
      else has an owner. */
  ghost predicate Assigned(f: Accepted, image: Image, rs: seq<Region>) {
    && (forall r <- f.mem :: Region(r, Nxu) in rs)
    && Owned(rs, Range(image.base, image.size), ImageOwner)
    && (HasDtb(f) ==> Owned(rs, f.dtb, Reserved))
    && Owned(rs, f.gicd, Mmio) && Owned(rs, f.gicr, Mmio)
    && (f.uartValid ==> Owned(rs, f.uart, Mmio)) && (f.pwrc.size != 0 ==> Owned(rs, f.pwrc, Mmio))
    && |rs| == RegionCount(f) && forall x <- rs :: Due(f, image, x)
  }

  predicate HasDtb(f: Accepted) { f.dtbValid && f.dtb.size != 0 }

  /** Some fact calls for this region. */
  predicate Due(f: Accepted, image: Image, x: Region) {
    || (x.owner == Nxu && x.range in f.mem)
    || Spans(x, Range(image.base, image.size), ImageOwner)
    || (HasDtb(f) && Spans(x, f.dtb, Reserved))
    || Spans(x, f.gicd, Mmio) || Spans(x, f.gicr, Mmio)
    || (f.uartValid && Spans(x, f.uart, Mmio)) || (f.pwrc.size != 0 && Spans(x, f.pwrc, Mmio))
  }

  function RegionCount(f: Accepted): nat {
    |f.mem| + 3 + (if HasDtb(f) then 1 else 0) + (if f.uartValid then 1 else 0) + (if f.pwrc.size != 0 then 1 else 0)
  }

  /** Not empty, and in whole pages still below 2^64. */
  predicate Whole(r: Range) {
    0 < r.size && r.base + (r.size + 0xfff) / 0x1000 * 0x1000 < TWO64
  }

  ghost predicate Assignable(f: Accepted, image: Image) {
    && RegionCount(f) <= 16
    && (forall r <- f.mem :: 0 < r.size && r.base + r.size < TWO64)
    && Whole(Range(image.base, image.size)) && (HasDtb(f) ==> Whole(f.dtb)) && Whole(f.gicd) && Whole(f.gicr)
    && (f.uartValid ==> Whole(f.uart)) && (f.pwrc.size != 0 ==> Whole(f.pwrc))
  }

  lemma SizedOk(r: Range, owner: Owner)
    ensures var x := Sized(r, owner); RangeOk(x.range.base, x.range.size) <==> Whole(r)
    ensures Whole(r) ==> Spans(Sized(r, owner), r, owner)
  {
    hide RangeOk;
    var x := Sized(r, owner);
    RangeOkMeans(x.range.base, x.range.size);
  }

  lemma WantedOk(f: Accepted, image: Image)
    ensures AllOk(Wanted(f, image)) <==> Assignable(f, image)
  {
    hide RangeOk, Whole, Sized;
    WantedSize(f, image);
    var rs := Wanted(f, image);
    SizedOk(Range(image.base, image.size), ImageOwner);
    SizedOk(f.dtb, Reserved);
    SizedOk(f.gicd, Mmio);
    SizedOk(f.gicr, Mmio);
    SizedOk(f.uart, Mmio);
    SizedOk(f.pwrc, Mmio);
    MemoryOk(f.mem);
    WantedEach(f, image);
    if AllOk(rs) {
      forall r <- f.mem ensures 0 < r.size && r.base + r.size < TWO64 {
        assert Region(r, Nxu) in rs;
      }
    }
  }

  lemma MemoryOk(mem: seq<Range>)
    ensures forall r <- mem :: RangeOk(r.base, r.size) <==> 0 < r.size && r.base + r.size < TWO64
  {
    forall r <- mem ensures RangeOk(r.base, r.size) <==> 0 < r.size && r.base + r.size < TWO64 {
      RangeOkMeans(r.base, r.size);
    }
  }

  lemma WantedSize(f: Accepted, image: Image)
    ensures |Wanted(f, image)| == RegionCount(f)
  {
    hide Sized;
  }

  predicate Listed(f: Accepted, image: Image, x: Region) {
    || (x.owner == Nxu && x.range in f.mem)
    || x == Sized(Range(image.base, image.size), ImageOwner) || (HasDtb(f) && x == Sized(f.dtb, Reserved))
    || x == Sized(f.gicd, Mmio) || x == Sized(f.gicr, Mmio)
    || (f.uartValid && x == Sized(f.uart, Mmio)) || (f.pwrc.size != 0 && x == Sized(f.pwrc, Mmio))
  }

  /** The regions that S5 asks for, one by one. */
  lemma WantedEach(f: Accepted, image: Image)
    ensures forall x: Region :: x in Wanted(f, image) <==> Listed(f, image, x)
  {
    hide Sized;
    var ram := seq(|f.mem|, i requires 0 <= i < |f.mem| => Region(f.mem[i], Nxu));
    forall x: Region ensures x in Wanted(f, image) <==> Listed(f, image, x) {
      assert x in Wanted(f, image) <==> x in ram || x in AfterMemory(f, image);
      if x.owner == Nxu && x.range in f.mem {
        var i :| 0 <= i < |f.mem| && f.mem[i] == x.range;
        assert ram[i] == x;
      }
      LaterEach(f, image, x);
    }
  }

  lemma LaterEach(f: Accepted, image: Image, x: Region)
    ensures x in AfterMemory(f, image) <==>
      || x == Sized(Range(image.base, image.size), ImageOwner) || (HasDtb(f) && x == Sized(f.dtb, Reserved))
      || x == Sized(f.gicd, Mmio) || x == Sized(f.gicr, Mmio)
      || (f.uartValid && x == Sized(f.uart, Mmio)) || (f.pwrc.size != 0 && x == Sized(f.pwrc, Mmio))
  {
    hide Sized;
  }

  lemma WantedMeans(f: Accepted, image: Image)
    requires AllOk(Wanted(f, image))
    ensures Assigned(f, image, Wanted(f, image))
  {
    hide RangeOk, Whole, Sized, Spans, Wanted, AllOk;
    var rs := Wanted(f, image);
    WantedOk(f, image);
    WantedSize(f, image);
    WantedEach(f, image);
    SizedOk(Range(image.base, image.size), ImageOwner);
    SizedOk(f.dtb, Reserved);
    SizedOk(f.gicd, Mmio);
    SizedOk(f.gicr, Mmio);
    SizedOk(f.uart, Mmio);
    SizedOk(f.pwrc, Mmio);
    assert Sized(Range(image.base, image.size), ImageOwner) in rs;
    assert Sized(f.gicd, Mmio) in rs && Sized(f.gicr, Mmio) in rs;
    assert HasDtb(f) ==> Sized(f.dtb, Reserved) in rs;
    assert f.uartValid ==> Sized(f.uart, Mmio) in rs;
    assert f.pwrc.size != 0 ==> Sized(f.pwrc, Mmio) in rs;
    forall x <- rs ensures Due(f, image, x) { }
  }

  // ---- S6: the identity map ----------------------------------------------------------

  function Sub64(a: u64, b: u64): u64 {
    (a - b) % 0x1_0000_0000_0000_0000
  }

  function TextEnd(image: Image): u64 {
    var e := PageUp(image.textEnd);
    if e <= image.base then Add64(image.base, 0x1000) else e
  }

  function RodataEnd(image: Image): u64 {
    var e := PageUp(image.rodataEnd);
    if e < TextEnd(image) then TextEnd(image) else e
  }

  function ImageEnd(image: Image): u64 {
    PageUp(Add64(image.base, image.size))
  }

  /** One call of nxu_mmu_map. */
  datatype Step = Step(pa: u64, size: u64, perm: u32)

  function StepIf(c: bool, s: Step): seq<Step> {
    if c then [s] else []
  }

  function TextStep(image: Image): Step {
    Step(image.base, Sub64(TextEnd(image), image.base), MAP_RX)
  }

  function RodataStep(image: Image): Step {
    Step(TextEnd(image), Sub64(RodataEnd(image), TextEnd(image)), MAP_R)
  }

  function RestStep(image: Image): Step {
    Step(RodataEnd(image), Sub64(ImageEnd(image), RodataEnd(image)), MAP_RW)
  }

  /** The steps up to the read-only data. */
  function UpToRodata(image: Image): seq<Step> {
    [TextStep(image)] + StepIf(RodataEnd(image) > TextEnd(image), RodataStep(image))
  }

  function ImageSteps(image: Image): seq<Step> {
    UpToRodata(image) + StepIf(ImageEnd(image) > RodataEnd(image), RestStep(image))
  }

  function DeviceStep(r: Region): Step {
    var b := PageDown(r.range.base);
    Step(b, PageUp(Add64(r.range.size, r.range.base - b)), MAP_DEV)
  }

  function DeviceSteps(rs: seq<Region>): seq<Step> {
    if rs == [] then []
    else DeviceSteps(rs[..|rs| - 1]) + StepIf(rs[|rs| - 1].owner == Mmio, DeviceStep(rs[|rs| - 1]))
  }

  ghost function Apply(m: map<Page, u64>, steps: seq<Step>): map<Page, u64> {
    if steps == [] then m
    else
      var s := steps[|steps| - 1];
      Mapped(Apply(m, steps[..|steps| - 1]), Touched(s.pa, s.size), s.perm)
  }

  predicate StepOk(s: Step) {
    RangeOk(s.pa, s.size) && s.pa % 0x1000 == 0 && s.size % 0x1000 == 0
  }

  ghost predicate Legal(steps: seq<Step>) {
    forall s <- steps :: StepOk(s)
  }

  lemma LegalMore(steps: seq<Step>, s: Step)
    requires Legal(steps) && StepOk(s)
    ensures Legal(steps + [s])
  {
  }

  /** Every mapping call is legal and the tables for all of them together fit in the pool. */
  ghost predicate Fits(steps: seq<Step>) {
    Legal(steps) && |Nodes(Apply(map[], steps).Keys)| <= POOL
  }

  lemma ApplyOne(m: map<Page, u64>, steps: seq<Step>, s: Step)
    ensures Apply(m, steps + [s]) == Mapped(Apply(m, steps), Touched(s.pa, s.size), s.perm)
    ensures Apply(m, steps + [s]).Keys == Apply(m, steps).Keys + Touched(s.pa, s.size)
  {
    assert (steps + [s])[..|steps|] == steps;
  }

  lemma {:induction false} ApplyGrows(m: map<Page, u64>, steps: seq<Step>, more: seq<Step>)
    ensures Apply(m, steps).Keys <= Apply(m, steps + more).Keys
  {
    hide Touched;
    if more == [] {
      assert steps + more == steps;
    } else {
      hide Apply;
      var k := |more| - 1;
      ApplyGrows(m, steps, more[..k]);
      ApplyOne(m, steps + more[..k], more[k]);
      assert steps + more == (steps + more[..k]) + [more[k]];
    }
  }

  /** If a call fails, the whole plan did not fit. */
  lemma NoFit(done: seq<Step>, s: Step, rest: seq<Step>)
    requires StepOk(s) ==> |Nodes(Apply(map[], done).Keys + Touched(s.pa, s.size))| > POOL
    ensures !Fits(done + ([s] + rest))
  {
    var all := done + ([s] + rest);
    assert all == (done + [s]) + rest;
    assert all[|done|] == s;
    ApplyOne(map[], done, s);
    ApplyGrows(map[], done + [s], rest);
    NodesGrow(Apply(map[], done + [s]).Keys, Apply(map[], all).Keys);
  }

  ghost predicate Before(done: seq<Step>, s: Step, plan: seq<Step>) {
    done + [s] <= plan
  }

  method MapStep(t: Tables, pa: u64, size: u64, perm: u32, ghost done: seq<Step>, ghost plan: seq<Step>)
    returns (ok: bool)
    requires t.Valid() && t.leafs == Apply(map[], done) && Legal(done)
    requires Before(done, Step(pa, size, perm), plan)
    modifies t`used, t`site, t`leafs, t.pt
    ensures ok ==> t.Valid() && t.leafs == Apply(map[], done + [Step(pa, size, perm)])
    ensures ok ==> Legal(done + [Step(pa, size, perm)])
    ensures !ok ==> !Fits(plan)
  {
    hide Fits, Nodes, Touched, Mapped, Legal;
    ghost var s := Step(pa, size, perm);
    ok := t.Map(pa, size, perm);
    ApplyOne(map[], done, s);
    if ok {
      LegalMore(done, s);
    } else {
      ghost var rest := plan[|done| + 1..];
      assert plan == done + ([s] + rest);
      NoFit(done, s, rest);
    }
  }

  lemma {:induction false} DevicePrefix(rs: seq<Region>, i: nat)
    requires i <= |rs|
    ensures DeviceSteps(rs[..i]) <= DeviceSteps(rs)
  {
    if i < |rs| {
      var k := |rs| - 1;
      DevicePrefix(rs[..k], i);
      assert rs[..k][..i] == rs[..i];
    } else {
      assert rs[..i] == rs;
    }
  }

  function Plan(image: Image, rs: seq<Region>): seq<Step> {
    ImageSteps(image) + DeviceSteps(rs)
  }

  ghost predicate OwnedBy(rs: seq<Region>, pa: u64, size: u64, owner: Owner) {
    exists i: nat :: i < |rs| && Decides(rs, i, pa, size) && rs[i].owner == owner
  }

  lemma DecidesOnce(rs: seq<Region>, i: nat, j: nat, pa: u64, size: u64)
    requires i < |rs| && j < |rs| && Decides(rs, i, pa, size) && Decides(rs, j, pa, size)
    ensures i == j
  {
  }

  lemma ImageOrder(image: Image, plan: seq<Step>)
    requires ImageSteps(image) <= plan
    ensures Before([], TextStep(image), plan)
    ensures RodataEnd(image) > TextEnd(image) ==> Before([TextStep(image)], RodataStep(image), plan)
    ensures ImageEnd(image) > RodataEnd(image) ==> Before(UpToRodata(image), RestStep(image), plan)
    ensures ImageEnd(image) > RodataEnd(image) ==> ImageSteps(image) == UpToRodata(image) + [RestStep(image)]
    ensures RodataEnd(image) > TextEnd(image) ==> UpToRodata(image) == [TextStep(image)] + [RodataStep(image)]
    ensures ImageEnd(image) <= RodataEnd(image) ==> ImageSteps(image) == UpToRodata(image)
    ensures RodataEnd(image) <= TextEnd(image) ==> UpToRodata(image) == [TextStep(image)]
  {
    hide TextEnd, RodataEnd, ImageEnd, Sub64;
    var s := ImageSteps(image);
    assert [] + [TextStep(image)] <= s;
    assert s == plan[..|s|];
  }

  /** The image half of nxu_s6_mmu. */
  method MapImage(t: Tables, image: Image, ghost plan: seq<Step>) returns (ok: bool)
    requires t.Valid() && t.leafs == map[] && ImageSteps(image) <= plan
    modifies t`used, t`site, t`leafs, t.pt
    ensures ok ==> t.Valid() && t.leafs == Apply(map[], ImageSteps(image)) && Legal(ImageSteps(image))
    ensures !ok ==> !Fits(plan)
  {
    hide PageUp, Add64, Sub64, Apply, Fits, Legal, Before, ImageSteps;
    ImageOrder(image, plan);
    ApplyNone();
    var textEnd := PageUp(image.textEnd);
    var roEnd := PageUp(image.rodataEnd);
    var imgEnd := PageUp(Add64(image.base, image.size));
    if textEnd <= image.base { textEnd := Add64(image.base, 0x1000); }
    if roEnd < textEnd { roEnd := textEnd; }
    ok := MapStep(t, image.base, Sub64(textEnd, image.base), MAP_RX, [], plan);
    if !ok { return; }
    assert [] + [TextStep(image)] == [TextStep(image)];
    if roEnd > textEnd {
      ok := MapStep(t, textEnd, Sub64(roEnd, textEnd), MAP_R, [TextStep(image)], plan);
      if !ok { return; }
    }
    if imgEnd > roEnd {
      ok := MapStep(t, roEnd, Sub64(imgEnd, roEnd), MAP_RW, UpToRodata(image), plan);
    }
  }

  lemma ApplyNone()
    ensures Apply(map[], []) == map[] && Legal([])
  {
  }

  lemma FitsMeans(plan: seq<Step>, t: Tables)
    requires t.Valid() && t.leafs == Apply(map[], plan) && Legal(plan)
    ensures Fits(plan)
  {
    t.NodesCounted();
  }

  /** The plan up to region `i`. */
  function PlanTo(image: Image, rs: seq<Region>, i: nat): seq<Step>
    requires i <= |rs|
  {
    ImageSteps(image) + DeviceSteps(rs[..i])
  }

  lemma PlanNext(image: Image, rs: seq<Region>, i: nat)
    requires i < |rs|
    ensures PlanTo(image, rs, 0) == ImageSteps(image) && PlanTo(image, rs, |rs|) == Plan(image, rs)
    ensures rs[i].owner != Mmio ==> PlanTo(image, rs, i + 1) == PlanTo(image, rs, i)
    ensures rs[i].owner == Mmio ==> PlanTo(image, rs, i + 1) == PlanTo(image, rs, i) + [DeviceStep(rs[i])]
    ensures rs[i].owner == Mmio ==> Before(PlanTo(image, rs, i), DeviceStep(rs[i]), Plan(image, rs))
  {
    assert rs[..i + 1][..i] == rs[..i];
    assert rs[..|rs|] == rs;
    DevicePrefix(rs, i + 1);
  }

  /** The pages of one device. */
  method MapDevice(t: Tables, r: Region, ghost done: seq<Step>, ghost plan: seq<Step>) returns (ok: bool)
    requires t.Valid() && t.leafs == Apply(map[], done) && Legal(done)
    requires Before(done, DeviceStep(r), plan)
    modifies t`used, t`site, t`leafs, t.pt
    ensures ok ==> t.Valid() && t.leafs == Apply(map[], done + [DeviceStep(r)]) && Legal(done + [DeviceStep(r)])
    ensures !ok ==> !Fits(plan)
  {
    hide PageUp, PageDown, Add64, Apply, Legal, Fits, StepOk, Before, ShapeOk, LeafsOk, Nodes;
    var b := PageDown(r.range.base);
    ok := MapStep(t, b, PageUp(Add64(r.range.size, r.range.base - b)), MAP_DEV, done, plan);
  }

  /** The device half of nxu_s6_mmu. */
  method MapDevices(t: Tables, space: Table, ghost image: Image) returns (ok: bool)
    requires space.Valid() && t.Valid() && t.leafs == Apply(map[], ImageSteps(image))
    requires Legal(ImageSteps(image))
    modifies t`used, t`site, t`leafs, t.pt
    ensures ok ==> t.Valid() && t.leafs == Apply(map[], Plan(image, space.Regions()))
    ensures ok ==> Legal(Plan(image, space.Regions()))
    ensures !ok ==> !Fits(Plan(image, space.Regions()))
  {
    hide DeviceStep, Apply, Legal, Fits, StepOk, ImageSteps, DeviceSteps, Before, Plan, PlanTo, ShapeOk, LeafsOk, Nodes;
    ghost var rs := space.Regions();
    var i: u32 := 0;
    PlanEnds(image, rs);
    while i < space.count
      invariant i <= space.count && space.Valid() && space.Regions() == rs
      invariant t.Valid() && t.leafs == Apply(map[], PlanTo(image, rs, i))
      invariant Legal(PlanTo(image, rs, i))
    {
      PlanNext(image, rs, i);
      assert space.region[i] == rs[i];
      if space.region[i].owner == Mmio {
        ok := MapDevice(t, space.region[i], PlanTo(image, rs, i), Plan(image, rs));
        if !ok { return; }
      }
      i := i + 1;
    }
    return true;
  }

  lemma PlanEnds(image: Image, rs: seq<Region>)
    ensures PlanTo(image, rs, 0) == ImageSteps(image) && PlanTo(image, rs, |rs|) == Plan(image, rs)
  {
    assert rs[..|rs|] == rs;
  }

  /** nxu_s6_mmu: the map it leaves is the plan's, it succeeds exactly when every step is legal, the
      tables fit, the first image page belongs to the image, and nxu_mmu_enable finds exception level 1;
      only then is the space armed. */
  method Arm(t: Tables, space: Table, image: Image, current: nat, el: nat) returns (ok: bool)
    requires space.Valid()
    requires t.Placed() && forall i: nat, j: nat | i < POOL && j < 512 :: t.pt[i, j] == 0
    modifies t, t.pt, space`armed
    ensures ok <==> && Fits(Plan(image, space.Regions()))
                    && OwnedBy(space.Regions(), image.base, 0x1000, ImageOwner) && el == 1
    ensures ok ==> t.Valid() && t.leafs == Apply(map[], Plan(image, space.Regions())) && space.armed
    ensures ok ==> t.ttbr == TableAddress(t.base, 0) && t.mair == MAIR && Walks48(t.tcr, current)
    ensures !ok ==> space.armed == old(space.armed)
  {
    hide Apply, Fits, StepOk, ImageSteps, DeviceSteps, Legal, OwnedBy, Covers, ShapeOk, LeafsOk, Nodes;
    t.InitPool(current);
    ok := MapImage(t, image, Plan(image, space.Regions()));
    if !ok { return; }
    ok := MapDevices(t, space, image);
    if !ok { return; }
    FitsMeans(Plan(image, space.Regions()), t);
    var owner := space.OwnerOf(image.base, 0x1000);
    if owner != ImageOwner {
      NotOwned(space.Regions(), image.base, 0x1000, owner);
      return false;
    }
    if el != 1 { return false; }
    space.armed := true;
    return true;
  }

  lemma NotOwned(rs: seq<Region>, pa: u64, size: u64, owner: Owner)
    requires OwnedBy(rs, pa, size, owner) || (owner == Unknown && forall r <- rs :: !Covers(r, pa, size))
    requires owner != ImageOwner
    ensures !OwnedBy(rs, pa, size, ImageOwner)
  {
    forall i: nat | i < |rs| && Decides(rs, i, pa, size) ensures rs[i].owner != ImageOwner {
      if OwnedBy(rs, pa, size, owner) {
        var j: nat :| j < |rs| && Decides(rs, j, pa, size) && rs[j].owner == owner;
        DecidesOnce(rs, i, j, pa, size);
      }
    }
  }

  // ---- Default deny, exactly ---------------------------------------------------------

  ghost predicate MeetsDevice(rs: seq<Region>, q: u64) {
    exists r <- rs :: r.owner == Mmio && Meets(r.range, q)
  }

  /** The leaf word S6 leaves for an address below 2^48: devices first, then the image from its end,
      and nothing else at all. */
  ghost function Expected(image: Image, rs: seq<Region>, q: u64): int {
    if MeetsDevice(rs, q) then q / 0x1000 * 0x1000 + LeafAttr(MAP_DEV) else ImageWord(image, q)
  }

  ghost function ImageWord(image: Image, q: u64): int {
    SectionWord(image.base, TextEnd(image), RodataEnd(image), ImageEnd(image), q)
  }

  ghost function SectionWord(base: u64, te: u64, re: u64, ie: u64, q: u64): int {
    var frame := q / 0x1000 * 0x1000;
    if re < ie && Meets(Range(re, ie - re), q) then frame + LeafAttr(MAP_RW)
    else if te < re && Meets(Range(te, re - te), q) then frame + LeafAttr(MAP_R)
    else if base < te && Meets(Range(base, te - base), q) then frame + LeafAttr(MAP_RX)
    else 0
  }

  lemma SpansPages(base: u64, size: u64, b: u64, span: u64, a: int)
    requires b % 0x1000 == 0 && span % 0x1000 == 0 && b <= base && 0 < size
    requires base - b + size <= span < base - b + size + 0x1000 && base < b + 0x1000
    requires InRange(a, b, span)
    ensures exists c :: InRange(c, base, size) && c / 0x1000 == a / 0x1000
  {
    var f := a / 0x1000 * 0x1000;
    SameSide(b, f, a);
    SameSide(b + span, f + 0xfff, a);
    var c := if f < base then base else f;
    assert InRange(c, base, size) && c / 0x1000 == a / 0x1000;
  }

  /** The whole-page range that S6 maps for a device meets exactly the pages that the device meets. */
  lemma DeviceFrames(r: Region, q: u64)
    requires RangeOk(r.range.base, r.range.size) && StepOk(DeviceStep(r))
    ensures var s := DeviceStep(r); Meets(Range(s.pa, s.size), q) <==> Meets(r.range, q)
  {
    hide PageUp, PageDown;
    var s, b := DeviceStep(r), PageDown(r.range.base);
    assert Add64(r.range.size, r.range.base - b) == r.range.size + (r.range.base - b);
    if a :| InRange(a, s.pa, s.size) && SameFrame(a, q) {
      SpansPages(r.range.base, r.range.size, s.pa, s.size, a);
      var c :| InRange(c, r.range.base, r.range.size) && c / 0x1000 == a / 0x1000;
      assert SameFrame(c, q);
    }
    if a :| InRange(a, r.range.base, r.range.size) && SameFrame(a, q) {
      assert InRange(a, s.pa, s.size);
    }
  }

  /** Mapping one more step, unless it is skipped. */
  lemma StepWord(steps: seq<Step>, c: bool, s: Step, q: u64)
    requires s.pa + s.size <= TWO64 && q < TWO48
    ensures Lookup(Apply(map[], steps + StepIf(c, s)), PageOf(q)) ==
            if c && Meets(Range(s.pa, s.size), q) then q / 0x1000 * 0x1000 + LeafAttr(s.perm)
            else Lookup(Apply(map[], steps), PageOf(q))
  {
    hide PageOf, Touched, LeafAttr, Apply, Mapped, Meets;
    if c {
      ApplyOne(map[], steps, s);
      MapThenLookup(Apply(map[], steps), s.pa, s.size, s.perm, q);
    } else {
      assert steps + StepIf(c, s) == steps;
    }
  }

  lemma SectionsExact(base: u64, te: u64, re: u64, ie: u64, steps: seq<Step>, q: u64)
    requires base < te <= re && q < TWO48
    requires steps == [Step(base, te - base, MAP_RX)] + StepIf(re > te, Step(te, re - te, MAP_R))
                      + (if ie > re then [Step(re, ie - re, MAP_RW)] else [])
    ensures Lookup(Apply(map[], steps), PageOf(q)) == SectionWord(base, te, re, ie, q)
  {
    hide PageOf, Touched, LeafAttr, Apply, Mapped, Meets;
    ApplyNone();
    var none: seq<Step> := [];
    var s1 := [Step(base, te - base, MAP_RX)];
    StepWord(none, true, s1[0], q);
    assert none + StepIf(true, s1[0]) == s1;
    var s2 := s1 + StepIf(re > te, Step(te, re - te, MAP_R));
    StepWord(s1, re > te, Step(te, re - te, MAP_R), q);
    if ie > re {
      StepWord(s2, true, Step(re, ie - re, MAP_RW), q);
      assert steps == s2 + StepIf(true, Step(re, ie - re, MAP_RW));
    } else {
      assert steps == s2;
    }
  }

  /** A legal first step starts a text section of at least a page. */
  lemma TextStarts(image: Image)
    requires Legal(ImageSteps(image))
    ensures image.base < TextEnd(image) <= RodataEnd(image)
  {
    hide PageUp;
    assert StepOk(ImageSteps(image)[0]);
  }

  lemma ImageExact(image: Image, q: u64)
    requires Legal(ImageSteps(image)) && q < TWO48
    ensures Lookup(Apply(map[], ImageSteps(image)), PageOf(q)) == ImageWord(image, q)
  {
    hide TextEnd, RodataEnd, ImageEnd, SectionWord, PageOf, Apply, Legal;
    TextStarts(image);
    SectionsExact(image.base, TextEnd(image), RodataEnd(image), ImageEnd(image), ImageSteps(image), q);
  }

  lemma PlanLegal(image: Image, rs: seq<Region>)
    requires Legal(Plan(image, rs))
    ensures Legal(ImageSteps(image))
    ensures rs != [] ==> Legal(Plan(image, rs[..|rs| - 1]))
    ensures rs != [] && rs[|rs| - 1].owner == Mmio ==> StepOk(DeviceStep(rs[|rs| - 1]))
  {
    hide StepOk, ImageSteps, DeviceStep;
    assert ImageSteps(image) <= Plan(image, rs);
    if rs != [] && rs[|rs| - 1].owner == Mmio {
      assert DeviceStep(rs[|rs| - 1]) in Plan(image, rs);
    }
  }

  lemma DeviceMapped(r: Region)
    ensures DeviceStep(r).perm == MAP_DEV
  {
    hide PageUp, PageDown, Add64;
  }

  lemma OneMoreRegion(rs: seq<Region>, r: Region, q: u64)
    ensures MeetsDevice(rs + [r], q) <==> MeetsDevice(rs, q) || (r.owner == Mmio && Meets(r.range, q))
  {
  }

  lemma StepEnds(s: Step)
    requires StepOk(s)
    ensures s.pa + s.size <= TWO64
  {
  }

  /** Default deny, exactly: whenever S6 succeeds, the map holds for every address below 2^48 the
      expected word, so the mapped pages are the image's and those meeting a device, and no others. */
  lemma {:induction false} DefaultDeny(image: Image, rs: seq<Region>, q: u64)
    requires AllOk(rs) && Legal(Plan(image, rs)) && q < TWO48
    ensures Lookup(Apply(map[], Plan(image, rs)), PageOf(q)) == Expected(image, rs, q)
  {
    hide PageOf, Touched, LeafAttr, ImageWord, Apply, Meets, Legal, ImageSteps, StepOk, DeviceStep;
    PlanLegal(image, rs);
    if rs == [] {
      assert Plan(image, rs) == ImageSteps(image);
      ImageExact(image, q);
    } else {
      var k := |rs| - 1;
      var r := rs[k];
      assert rs == rs[..k] + [r];
      DefaultDeny(image, rs[..k], q);
      OneMoreRegion(rs[..k], r, q);
      var s, c := DeviceStep(r), r.owner == Mmio;
      assert Plan(image, rs) == Plan(image, rs[..k]) + StepIf(c, s);
      if c {
        DeviceFrames(r, q);
        StepEnds(s);
        assert s.perm == MAP_DEV by { DeviceMapped(r); }
        StepWord(Plan(image, rs[..k]), c, s, q);
      } else {
        assert Plan(image, rs) == Plan(image, rs[..k]);
      }
    }
  }

  // ---- The same in plain terms -------------------------------------------------------

  /** The image as linked: page-aligned start, ordered section ends, below 2^48. */
  ghost predicate Linked(image: Image) {
    && image.base % 0x1000 == 0 && 0 < image.size
    && image.base <= image.textEnd <= image.rodataEnd <= image.base + image.size <= TWO48
  }

  ghost predicate OnDevice(rs: seq<Region>, q: u64) {
    exists r <- rs :: r.owner == Mmio && OnPage(r.range, q)
  }

  /** The leaf word S6 is meant to leave: devices, then text read-execute, read-only data, the rest
      of the image read-write, and nothing else at all. */
  ghost function Intended(image: Image, rs: seq<Region>, q: u64): int {
    if OnDevice(rs, q) then q / 0x1000 * 0x1000 + LeafAttr(MAP_DEV) else LinkedWord(image, q)
  }

  /** A page of the image that starts below the end of the text, or is its first, is text; one that starts
      below the end of the read-only data is that; the rest of the image can be written. */
  ghost function LinkedWord(image: Image, q: u64): int {
    var frame := q / 0x1000 * 0x1000;
    if q < image.base || frame >= image.base + image.size then 0
    else if frame < image.textEnd || frame == image.base then frame + LeafAttr(MAP_RX)
    else if frame < image.rodataEnd then frame + LeafAttr(MAP_R)
    else frame + LeafAttr(MAP_RW)
  }

  lemma PageUpMonotone(a: u64, b: u64)
    requires a <= b <= TWO48
    ensures a <= PageUp(a) <= PageUp(b) < b + 0x1000 && PageUp(b) <= TWO48
  {
    hide PageUp;
  }

  lemma SumFits(a: u64, b: u64)
    requires a + b < TWO64
    ensures Add64(a, b) == a + b
  {
  }

  lemma FirstPage(image: Image)
    requires Linked(image)
    ensures image.base < TextEnd(image) && TextEnd(image) % 0x1000 == 0
    ensures TextEnd(image) == PageUp(image.textEnd)
         || (TextEnd(image) == image.base + 0x1000 && PageUp(image.textEnd) <= image.base)
  {
    hide PageUp, Add64;
    SumFits(image.base, 0x1000);
  }

  lemma WholeFirstPage(base: u64, end: u64, up: u64)
    requires base % 0x1000 == 0 && base < end <= up && up % 0x1000 == 0
    ensures base + 0x1000 <= up
  {
  }

  /** The section ends are whole pages, in order, and end with the last page of the image. */
  lemma Sections(image: Image)
    requires Linked(image)
    ensures image.base < TextEnd(image) <= RodataEnd(image) <= ImageEnd(image) <= TWO48
    ensures TextEnd(image) % 0x1000 == RodataEnd(image) % 0x1000 == ImageEnd(image) % 0x1000 == 0
    ensures ImageEnd(image) - 0x1000 < image.base + image.size <= ImageEnd(image)
    ensures image.textEnd <= TextEnd(image)
         && (TextEnd(image) < image.textEnd + 0x1000 || TextEnd(image) == image.base + 0x1000)
    ensures image.rodataEnd <= RodataEnd(image)
         && (RodataEnd(image) < image.rodataEnd + 0x1000 || RodataEnd(image) == TextEnd(image))
  {
    hide PageUp, Add64, TextEnd;
    var end := image.base + image.size;
    SumFits(image.base, image.size);
    PageUpMonotone(image.textEnd, image.rodataEnd);
    PageUpMonotone(image.rodataEnd, end);
    PageUpMonotone(image.base, image.textEnd);
    FirstPage(image);
    WholeFirstPage(image.base, end, PageUp(end));
  }

  lemma SectionsBelow(image: Image, q: u64)
    requires Linked(image) && q < TWO48
    ensures ImageWord(image, q) == LinkedWord(image, q)
  {
    hide Meets, LeafAttr, TextEnd, RodataEnd, ImageEnd, Linked, SectionWord, LinkedWord, InRange;
    Sections(image);
    var base, te, re, ie := image.base, TextEnd(image), RodataEnd(image), ImageEnd(image);
    assert base % 0x1000 == 0 by { LinkedBase(image); }
    PagesMeet(Range(base, te - base), q);
    PagesMeet(Range(te, re - te), q);
    PagesMeet(Range(re, ie - re), q);
    SameSection(image, te, re, ie, q);
    WordOfSection(image, te, re, ie, q);
  }

  lemma WordOfSection(image: Image, te: u64, re: u64, ie: u64, q: u64)
    requires image.base < te <= re <= ie
    requires Meets(Range(image.base, te - image.base), q) <==> InRange(q, image.base, te - image.base)
    requires Meets(Range(te, re - te), q) <==> InRange(q, te, re - te)
    requires Meets(Range(re, ie - re), q) <==> InRange(q, re, ie - re)
    requires var frame := q / 0x1000 * 0x1000;
      && (q < ie <==> frame < image.base + image.size)
      && (image.base <= q ==> (q < te <==> frame < image.textEnd || frame == image.base))
      && (te <= q ==> (q < re <==> frame < image.rodataEnd))
    ensures SectionWord(image.base, te, re, ie, q) == LinkedWord(image, q)
  {
    hide Meets, LeafAttr;
  }

  lemma LinkedBase(image: Image)
    requires Linked(image)
    ensures image.base % 0x1000 == 0
  {
  }

  /** A page lies in a section exactly when its first byte does, or when it is the first page. */
  lemma SameSection(image: Image, te: u64, re: u64, ie: u64, q: u64)
    requires image.base % 0x1000 == te % 0x1000 == re % 0x1000 == ie % 0x1000 == 0
    requires image.base < te <= re <= ie && ie - 0x1000 < image.base + image.size <= ie
    requires image.textEnd <= te && (te < image.textEnd + 0x1000 || te == image.base + 0x1000)
    requires image.rodataEnd <= re && (re < image.rodataEnd + 0x1000 || re == te)
    ensures var frame := q / 0x1000 * 0x1000;
      && (q < ie <==> frame < image.base + image.size)
      && (image.base <= q ==> (q < te <==> frame < image.textEnd || frame == image.base))
      && (te <= q ==> (q < re <==> frame < image.rodataEnd))
  {
    PageBefore(image.base, q);
    PageBefore(te, q);
    PageBefore(re, q);
    PageBefore(ie, q);
  }

  /** An address is below a page boundary exactly when its page starts below it, and so by a whole page. */
  lemma PageBefore(edge: nat, q: u64)
    requires edge % 0x1000 == 0
    ensures var frame := q / 0x1000 * 0x1000; (q < edge <==> frame < edge) && (frame < edge <==> frame + 0x1000 <= edge)
  {
    var f := q / 0x1000 * 0x1000;
    SameSide(edge, f, q);
    assert edge / 0x1000 * 0x1000 == edge;
  }

  /** No device byte at or above 2^48 shares its low 48 bits with a page that holds no device. */
  ghost predicate NoAlias(rs: seq<Region>) {
    forall r, a: u64 | r in rs && r.owner == Mmio && InRange(a, r.range.base, r.range.size) && a >= TWO48 ::
      OnDevice(rs, a % 0x1_0000_0000_0000)
  }

  lemma LowBits48(a: u64)
    ensures var q: u64 := a % 0x1_0000_0000_0000; q < TWO48 && SameFrame(a, q)
    ensures a < TWO48 ==> a % 0x1_0000_0000_0000 == a
  {
    var h, q := a / 0x1_0000_0000_0000, a % 0x1_0000_0000_0000;
    assert a == h * 0x1_0000_0000_0000 + q;
    PagesUp(h, q);
    FramesUp(h, q / 0x1000);
  }

  lemma PagesUp(h: nat, q: nat)
    ensures (h * 0x1_0000_0000_0000 + q) / 0x1000 == h * 0x10_0000_0000 + q / 0x1000
  {
  }

  lemma FramesUp(h: nat, n: nat)
    ensures (h * 0x10_0000_0000 + n) % 0x10_0000_0000 == n % 0x10_0000_0000
  {
  }

  /** Which devices the page table meets, in plain terms. */
  lemma DevicesMet(rs: seq<Region>, q: u64)
    requires NoAlias(rs) && AllOk(rs) && q < TWO48
    ensures MeetsDevice(rs, q) <==> OnDevice(rs, q)
  {
    hide Meets, OnPage, OnDevice, NoAlias;
    if r :| r in rs && r.owner == Mmio && Meets(r.range, q) { MetPlainly(rs, r, q); }
    if OnDevice(rs, q) { PlainlyMet(rs, q); }
  }

  lemma MetPlainly(rs: seq<Region>, r: Region, q: u64)
    requires NoAlias(rs) && AllOk(rs) && q < TWO48 && r in rs && r.owner == Mmio && Meets(r.range, q)
    ensures OnDevice(rs, q)
  {
    hide SameFrame;
    var a: u64 :| InRange(a, r.range.base, r.range.size) && SameFrame(a, q);
    var low: u64 := a % 0x1_0000_0000_0000;
    LowBits48(a);
    SamePage(a, q);
    SamePage(a, low);
    SamePage(low, q);
    if a < TWO48 {
      assert OnPage(r.range, q);
    } else {
      assert OnDevice(rs, low);
    }
  }

  lemma PlainlyMet(rs: seq<Region>, q: u64)
    requires OnDevice(rs, q)
    ensures MeetsDevice(rs, q)
  {
    var r :| r in rs && r.owner == Mmio && OnPage(r.range, q);
    var a :| InRange(a, r.range.base, r.range.size) && a / 0x1000 == q / 0x1000;
    assert InRange(a, r.range.base, r.range.size) && SameFrame(a, q);
  }

  lemma AliasMet(rs: seq<Region>, r: Region, a: u64)
    requires r in rs && r.owner == Mmio && InRange(a, r.range.base, r.range.size)
    ensures MeetsDevice(rs, a % 0x1_0000_0000_0000)
  {
    hide SameFrame;
    LowBits48(a);
  }

  lemma ImageNoDevice(image: Image, q: u64)
    ensures LinkedWord(image, q) != q / 0x1000 * 0x1000 + LeafAttr(MAP_DEV)
  {
    hide TextEnd, RodataEnd, ImageEnd;
  }

  /** S6 maps what it is meant to, for every address, if and only if no device aliases a page below
      2^48; it makes no check of its own that devices lie there. */
  lemma DenyIff(image: Image, rs: seq<Region>)
    requires AllOk(rs) && Legal(Plan(image, rs)) && Linked(image)
    ensures NoAlias(rs)
       <==> forall q: u64 | q < TWO48 :: Lookup(Apply(map[], Plan(image, rs)), PageOf(q)) == Intended(image, rs, q)
  {
    hide PageOf, Apply, Legal, Plan, LinkedWord, ImageWord, LeafAttr, OnDevice, MeetsDevice, AllOk, Linked;
    var m := Apply(map[], Plan(image, rs));
    forall q: u64 | q < TWO48
      ensures Lookup(m, PageOf(q)) == Expected(image, rs, q)
      ensures ImageWord(image, q) == LinkedWord(image, q) != q / 0x1000 * 0x1000 + LeafAttr(MAP_DEV)
      ensures NoAlias(rs) ==> (MeetsDevice(rs, q) <==> OnDevice(rs, q))
    {
      DefaultDeny(image, rs, q);
      SectionsBelow(image, q);
      ImageNoDevice(image, q);
      if NoAlias(rs) { DevicesMet(rs, q); }
    }
    if forall q: u64 | q < TWO48 :: Lookup(m, PageOf(q)) == Intended(image, rs, q) {
      forall r, a: u64 | r in rs && r.owner == Mmio && InRange(a, r.range.base, r.range.size) && a >= TWO48
        ensures OnDevice(rs, a % 0x1_0000_0000_0000)
      {
        var q: u64 := a % 0x1_0000_0000_0000;
        AliasMet(rs, r, a);
        assert Lookup(m, PageOf(q)) == Intended(image, rs, q);
      }
    }
  }

  /** The bits of a leaf word that maps `frame` to itself for the kernel alone, one by one: a page, accessed,
      inner shareable, of one memory type, not for EL0, and with the given rights for the kernel. */
  predicate KernelLeaf(w: u64, frame: nat, device: bool, writable: bool, executable: bool) {
    && Output(w) == frame && w % 4 == 3 && w / 0x400 % 2 == 1 && w / 0x100 % 4 == 3
    && w / 4 % 8 == (if device then 0 else 1)
    && !El0(w) && Uxn(w) && (ReadOnly(w) <==> !writable) && (Pxn(w) <==> !executable)
  }

  lemma KernelWord(q: u64, perm: u32)
    requires q < TWO48 && (perm == MAP_DEV || perm == MAP_RX || perm == MAP_R || perm == MAP_RW)
    ensures LeafWord(PageOf(q), perm) == q / 0x1000 * 0x1000 + LeafAttr(perm)
    ensures KernelLeaf(q / 0x1000 * 0x1000 + LeafAttr(perm), q / 0x1000 * 0x1000, perm == MAP_DEV,
                       perm == MAP_DEV || perm == MAP_RW, perm == MAP_RX)
  {
    hide PageOf, PageNumber, LeafAttr, El0, Uxn, Pxn, ReadOnly, Output;
    PageNumberOf(q);
    FrameBelow(q);
    LeafBits(PageOf(q), perm);
    MemoryType(PageOf(q), perm);
  }

  /** What S6 leaves of a linked image whose map is the intended one: the pages of devices are writable device
      memory, those of the text read-only and executable, those of the read-only data neither, all other image
      pages writable and not executable, and no other address below 2^48 is mapped at all. */
  lemma MapBits(image: Image, rs: seq<Region>, q: u64)
    requires AllOk(rs) && Legal(Plan(image, rs)) && Linked(image) && NoAlias(rs) && q < TWO48
    ensures var w := Lookup(Apply(map[], Plan(image, rs)), PageOf(q));
      var frame := q / 0x1000 * 0x1000;
      if OnDevice(rs, q) then KernelLeaf(w, frame, true, true, false)
      else if q < image.base || frame >= image.base + image.size then w == 0
      else if frame < image.textEnd || frame == image.base then KernelLeaf(w, frame, false, false, true)
      else if frame < image.rodataEnd then KernelLeaf(w, frame, false, false, false)
      else KernelLeaf(w, frame, false, true, false)
  {
    hide PageOf, Lookup, Apply, Plan, Legal, LeafAttr, OnDevice, AllOk, Linked, NoAlias, KernelLeaf;
    DenyIff(image, rs);
    assert Lookup(Apply(map[], Plan(image, rs)), PageOf(q)) == Intended(image, rs, q);
    KernelWord(q, MAP_DEV);
    KernelWord(q, MAP_RX);
    KernelWord(q, MAP_R);
    KernelWord(q, MAP_RW);
  }

  // ---- S5 and S6 together ------------------------------------------------------------

  /** One of the devices among the accepted facts. */
  predicate AcceptedDevice(f: Accepted, r: Range) {
    r == f.gicd || r == f.gicr || (f.uartValid && r == f.uart) || (f.pwrc.size != 0 && r == f.pwrc)
  }

  /** After both stages every byte of every accepted device below 2^48 is mapped to itself, as a device. */
  lemma DevicesMapped(f: Accepted, image: Image, rs: seq<Region>, r: Range, x: u64)
    requires Assigned(f, image, rs) && AllOk(rs) && Legal(Plan(image, rs))
    requires AcceptedDevice(f, r) && InRange(x, r.base, r.size) && x < TWO48
    ensures Lookup(Apply(map[], Plan(image, rs)), PageOf(x)) == LeafWord(PageOf(x), MAP_DEV)
    ensures PageNumber(PageOf(x)) == x / 0x1000
  {
    hide Legal, Plan, Apply, PageOf, AllOk, Due, Expected;
    DefaultDeny(image, rs, x);
    PageNumberOf(x);
    FrameBelow(x);
    var d :| d in rs && Spans(d, r, Mmio);
    assert InRange(x, d.range.base, d.range.size) && SameFrame(x, x);
    DeviceFirst(image, rs, d, x);
  }

  lemma DeviceFirst(image: Image, rs: seq<Region>, d: Region, q: u64)
    requires d in rs && d.owner == Mmio && Meets(d.range, q)
    ensures Expected(image, rs, q) == q / 0x1000 * 0x1000 + LeafAttr(MAP_DEV)
  {
    hide LeafAttr, ImageWord, Meets;
  }
}
