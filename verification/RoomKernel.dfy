/** The kernel side of foundation/room/room.c on its mutable state: the page tables, RAM, and the
    static variables `cur`, `grant`, `delivered`, `rejected` and the exit reason.
    Every method is tied to the state machine of Rooms.dfy. */
module RoomKernel {
  import opened Words
  import opened PageTables
  import opened Rooms

  ghost function RoomPages(l: Layout, id: nat): set<Page>
    requires LayoutOk(l) && id < ROOM_N
  {
    {PageOf(Code(l, id)), PageOf(Data(l, id))}
  }

  /** One call of run(): the room, the bytes of the body, the test address, whether the data page is cleared
      first, and whether an SGI is sent before the entry. */
  datatype Visit = Visit(id: nat, blob: seq<u8>, fault: u64, wipe: bool, poke: bool)

  class Machine {
    const l: Layout
    const t: Tables
    const ram: array<u8>
    var cur: u32
    var grant: u32
    var delivered: u32
    var rejected: u32
    var reason: Exit

    // The entries made so far, and the state from which they started.
    ghost var start: Kernel
    var visits: seq<Visit>

    ghost predicate Valid()
      reads this, t, t.pt
    {
      LayoutOk(l) && ram.Length == l.size && t.Valid() && cur < ROOM_N
    }

    ghost function State(): (k: Kernel)
      requires Valid()
      reads this, t, t.pt, ram
      ensures |k.ram| == l.size && k.cur < ROOM_N
    {
      Kernel(ram[..], t.leafs, cur, grant, delivered, rejected, reason)
    }

    constructor (l: Layout, t: Tables, ram: array<u8>)
      requires LayoutOk(l) && ram.Length == l.size && t.Valid()
      ensures Valid() && this.l == l && this.t == t && this.ram == ram
      ensures cur == 0 && grant == ROOM_N && delivered == 0 && rejected == 0 && visits == []
    {
      this.l, this.t, this.ram := l, t, ram;
      cur, grant, delivered, rejected, reason := 0, ROOM_N as u32, 0, 0, NoExit;
      visits := [];
    }

    /** All four room pages have their tables, so remapping them cannot exhaust the pool. */
    ghost predicate Mapped4()
      reads t
      requires LayoutOk(l)
    {
      && PageOf(Code(l, 0)) in t.leafs && PageOf(Data(l, 0)) in t.leafs
      && PageOf(Code(l, 1)) in t.leafs && PageOf(Data(l, 1)) in t.leafs
    }

    /** nxu_mmu_map of one whole page; it allocates nothing when the page is already mapped. */
    method MapOne(pa: u64, perm: u32) returns (ok: bool)
      requires Valid() && pa % 0x1000 == 0 && pa + 0x1000 < TWO48
      modifies t, t.pt
      ensures ok <==> |Nodes(old(t.leafs.Keys) + {PageOf(pa)})| <= POOL
      ensures PageOf(pa) in old(t.leafs) ==> ok && t.used == old(t.used)
      ensures ok ==> Valid() && t.leafs == Remap(old(t.leafs), pa, perm)
      ensures ok ==> t.leafs.Keys == old(t.leafs.Keys) + {PageOf(pa)}
    {
      hide PageOf, Touched, Nodes, ShapeOk, LeafsOk;
      ghost var keys := t.leafs.Keys;
      assert Touched(pa, 0x1000) == {PageOf(pa)} by { TouchedNone(pa); TouchedNext(pa, 0); }
      t.NodesCounted();
      ok := t.Map(pa, 0x1000, perm);
      if PageOf(pa) in keys {
        assert keys + {PageOf(pa)} == keys;
        assert t.leafs.Keys == keys;
        t.NodesCounted();
      }
    }

    /** priv() */
    method MakePriv(id: u32) returns (ok: bool)
      requires Valid() && id < ROOM_N
      modifies t, t.pt
      ensures old(Mapped4()) ==> ok && Mapped4() && t.used == old(t.used)
      ensures ok <==> |Nodes(old(t.leafs.Keys) + RoomPages(l, id))| <= POOL
      ensures ok ==> Valid() && t.leafs == Priv(l, old(t.leafs), id)
      ensures ok ==> t.leafs.Keys == old(t.leafs.Keys) + RoomPages(l, id)
    {
      hide PageOf, Touched, ShapeOk, LeafsOk, Nodes, Remap;
      ghost var keys := t.leafs.Keys;
      ok := MapOne(l.base + 2 * id * 0x1000, MAP_RW);
      if !ok {
        NodesGrow(keys + {PageOf(Code(l, id))}, keys + RoomPages(l, id));
        return;
      }
      assert keys + {PageOf(Code(l, id))} + {PageOf(Data(l, id))} == keys + RoomPages(l, id);
      ok := MapOne(l.base + (2 * id + 1) * 0x1000, MAP_RW);
    }

    /** user_open(): both rooms to kernel-only, then the entered room's two pages to EL0. */
    method Open(id: u32) returns (ok: bool)
      requires Valid() && id < ROOM_N
      modifies t, t.pt
      ensures old(Mapped4()) ==> ok && Mapped4() && t.used == old(t.used)
      ensures ok ==> Valid() && t.leafs == UserOpen(l, old(t.leafs), id)
    {
      hide PageOf, Touched, ShapeOk, LeafsOk, Nodes, Remap;
      ok := MakePriv(0);
      if !ok { return; }
      ok := MakePriv(1);
      if !ok { return; }
      ok := MapOne(l.base + 2 * id * 0x1000, MAP_USER_RX);
      if !ok { return; }
      ok := MapOne(l.base + (2 * id + 1) * 0x1000, MAP_USER_RW);
    }

    // ---- Memory ----------------------------------------------------------------------

    /** Store a little-endian word at a byte address. */
    method WriteWord(pa: nat, v: u64)
      requires Valid() && l.lo <= pa && pa + 8 <= l.lo + l.size
      modifies ram
      ensures ram[..] == Poke(l, old(ram[..]), pa, LeBytes(v, 8))
    {
      var bytes := LeBytes(v, 8);
      WriteBytes(pa, bytes);
    }

    method WriteBytes(pa: nat, bytes: seq<u8>)
      requires Valid() && l.lo <= pa && pa + |bytes| <= l.lo + l.size
      modifies ram
      ensures ram[..] == Poke(l, old(ram[..]), pa, bytes)
    {
      hide Poke, ShapeOk, LeafsOk, Nodes;
      var i := 0;
      PokeNone(l, ram[..], pa);
      while i < |bytes|
        invariant i <= |bytes|
        invariant ram[..] == Poke(l, old(ram[..]), pa, bytes[..i])
      {
        PokeNext(l, old(ram[..]), pa, bytes, i);
        ram[pa - l.lo + i] := bytes[i];
        i := i + 1;
      }
      assert bytes[..i] == bytes;
    }

    method ReadWord(pa: nat) returns (v: nat)
      requires Valid() && l.lo <= pa && pa + 8 <= l.lo + l.size
      ensures v == Load64(l, ram[..], pa)
    {
      assert ram[pa - l.lo .. pa - l.lo + 8] == ram[..][pa - l.lo .. pa - l.lo + 8];
      v := LittleEndian(ram[pa - l.lo .. pa - l.lo + 8]);
    }

    /** clear_page(): 512 word stores of zero. */
    method ClearPage(pa: nat)
      requires Valid() && l.lo <= pa && pa + 0x1000 <= l.lo + l.size
      modifies ram
      ensures ram[..] == Poke(l, old(ram[..]), pa, Zeros())
    {
      hide ZeroFill, Poke, LeBytes, ShapeOk, LeafsOk, Nodes;
      var i := 0;
      ghost var was := ram[..];
      ZeroStart(l, was, pa);
      while i < 512
        invariant i <= 512
        invariant ram[..] == Poke(l, was, pa, ZeroFill(8 * i))
      {
        WriteWord(pa + 8 * i, 0);
        ZeroMore(l, was, pa, 8 * i);
        i := i + 1;
      }
    }

    /** copy_blob(): 1 to 64 bytes, or nxu_fail. */
    method CopyBlob(dst: nat, blob: seq<u8>) returns (ok: bool)
      requires Valid() && l.lo <= dst && dst + 0x1000 <= l.lo + l.size
      modifies ram
      ensures ok <==> 0 < |blob| <= 64
      ensures ok ==> ram[..] == Poke(l, old(ram[..]), dst, blob)
      ensures !ok ==> ram[..] == old(ram[..])
    {
      if |blob| == 0 || |blob| > 64 { return false; }
      WriteBytes(dst, blob);
      return true;
    }

    // ---- Entries ---------------------------------------------------------------------

    /** seal(): the running room's pages back to kernel-only. */
    method MakeSealed() returns (ok: bool)
      requires Valid() && Mapped4()
      modifies t, t.pt
      ensures ok && Valid() && Mapped4() && t.used == old(t.used)
      ensures t.leafs == Priv(l, old(t.leafs), cur)
    {
      ok := true;
      if cur < ROOM_N {
        ok := MakePriv(cur);
      }
    }

    /** pulse(): copy one payload, or reject. */
    method TakePulse(arg0: u64)
      requires Valid()
      modifies this`grant, this`delivered, this`rejected, ram
      ensures Valid() && State() == Pulse(l, old(State()), arg0)
    {
      hide PageOf, ShapeOk, LeafsOk, Nodes, Poke, Load64, LeBytes, Incr;
      if cur != 0 || !Inside(l, 0, arg0) {
        rejected := Incr(rejected);
        return;
      }
      var dest := ReadWord(arg0);
      var payload := ReadWord(arg0 + 8);
      if dest != 1 || payload != PAYLOAD {
        rejected := Incr(rejected);
        return;
      }
      WriteWord(l.base + 3 * 0x1000 + 8, payload);
      delivered := Incr(delivered);
      grant := dest;
    }

    /** consume(): entering Room 1 spends the grant; without one it reaches nxu_fail. */
    method Consume(id: u32) returns (ok: bool)
      requires Valid()
      modifies this`grant
      ensures ok <==> id == 0 || old(grant) == id
      ensures grant == if ok && id != 0 then ROOM_N else old(grant)
    {
      if id == 0 { return true; }
      if grant != id { return false; }
      grant := ROOM_N;
      return true;
    }

    /** refuse(): the check that a room is not owed an entry. */
    method Refuse(id: u32) returns (ok: bool)
      ensures ok <==> id != 0 && grant != id
    {
      return !(id == 0 || grant == id);
    }

    /** nxu_room_exception(); the result says whether the interval is over. */
    method TakeException(esr: u64, arg0: u64) returns (leave: bool)
      requires Valid() && Mapped4()
      modifies this`grant, this`delivered, this`rejected, this`reason, t, t.pt, ram
      ensures Valid() && Mapped4() && t.used == old(t.used)
      ensures State() == Exception(l, old(State()), esr, arg0) && leave == !IsPulse(esr)
    {
      hide PageOf, ShapeOk, LeafsOk, Nodes, Pulse, Priv;
      var ec := esr / 0x400_0000 % 0x40;
      var ok;
      if ec == 0x15 {
        var imm := esr % 0x1_0000;
        if imm == 1 {
          TakePulse(arg0);
          return false;
        }
        if imm == 0 {
          reason := Svc;
          ok := MakeSealed();
          return true;
        }
      }
      reason := Fault;
      ok := MakeSealed();
      return true;
    }

    /** nxu_room_irq(): any interrupt ends the interval. */
    method TakeIrq(intid: u32)
      requires Valid() && Mapped4()
      modifies this`reason, t, t.pt
      ensures Valid() && Mapped4() && t.used == old(t.used)
      ensures State() == Seal(l, old(State()), IrqReason(intid))
    {
      hide PageOf, ShapeOk, LeafsOk, Nodes, Priv;
      if intid >= 1020 {
        reason := Fault;
      } else if intid != TIMER_PPI {
        reason := Foreign;
      } else {
        reason := Irq;
      }
      var ok := MakeSealed();
    }

    /** The hardware's side of one EL0 action: the access is checked against the walked tables. */
    method Act(a: Action) returns (left: bool)
      requires Valid() && Mapped4()
      modifies this`grant, this`delivered, this`rejected, this`reason, t, t.pt, ram
      ensures Valid() && Mapped4() && t.used == old(t.used)
      ensures State() == Step(l, old(State()), a).k && left == Step(l, old(State()), a).left
    {
      hide PageOf, ShapeOk, LeafsOk, Nodes, Exception, Present, El0, Uxn, ReadOnly, Output, Lookup;
      match a
      case Load(va) =>
        var w := t.Leaf(va);
        if va < TWO48 && Present(w) && El0(w) { return false; }
        left := TakeException(ESR_DATA_ABORT, 0);
      case Store(va, value) =>
        var w := t.Leaf(va);
        if va < TWO48 && Present(w) && El0(w) && !ReadOnly(w) {
          var pa := Output(w) + va % 0x1000;
          if l.lo <= pa < l.lo + l.size { ram[pa - l.lo] := value; }
          return false;
        }
        left := TakeException(ESR_DATA_ABORT, 0);
      case Fetch(va) =>
        var w := t.Leaf(va);
        if va < TWO48 && Present(w) && !Uxn(w) { return false; }
        left := TakeException(ESR_INSTR_ABORT, 0);
      case Sync(esr, arg0) =>
        left := TakeException(esr, arg0);
    }

    /** EL0 from nxu_room_enter to nxu_room_return: actions until one leaves, then the interrupt. */
    method RunRoom(actions: seq<Action>, intid: u32)
      requires Valid() && Mapped4()
      modifies this`grant, this`delivered, this`rejected, this`reason, t, t.pt, ram
      ensures Valid() && Mapped4() && t.used == old(t.used)
      ensures State() == Perform(l, old(State()), actions, intid)
    {
      hide PageOf, ShapeOk, LeafsOk, Nodes, Step, Seal;
      var i := 0;
      ghost var goal := Perform(l, State(), actions, intid);
      while i < |actions|
        invariant i <= |actions| && Valid() && Mapped4() && t.used == old(t.used)
        invariant Perform(l, State(), actions[i..], intid) == goal
      {
        assert actions[i..][0] == actions[i] && actions[i..][1..] == actions[i + 1..];
        var left := Act(actions[i]);
        if left { return; }
        i := i + 1;
      }
      assert actions[i..] == [];
      TakeIrq(intid);
    }

    /** run() up to the eret. `late` says that the compare was already behind the counter. */
    method EnterRoom(v: Visit, freq: u64, late: bool) returns (ok: bool)
      requires Valid() && Mapped4() && v.id < ROOM_N
      modifies this`cur, this`grant, this`visits, t, t.pt, ram
      ensures var iv := Interval(v.id, v.blob, v.wipe, [], 0 < freq / 10 <= 0x7fff_ffff && !late, 0);
              var e := Enter(l, old(State()), iv);
              && (ok <==> e.Some?)
              && (ok ==> Valid() && Mapped4() && t.used == old(t.used) && State() == e.value)
              && (ok ==> visits == old(visits) + [v])
    {
      hide PageOf, ShapeOk, LeafsOk, Nodes, Priv, UserOpen, Poke, ZeroFill;
      ok := Consume(v.id);
      if !ok { return; }
      if v.wipe { ClearPage(Data(l, v.id)); }
      ok := MakePriv(v.id);
      ok := CopyBlob(Code(l, v.id), v.blob);
      if !ok { return; }
      cur := v.id;
      ok := Open(v.id);
      var ticks := freq / 10;
      if ticks == 0 || ticks > 0x7fff_ffff { return false; }
      if late { return false; }
      visits := visits + [v];
      return true;
    }

    /** run(): one entry of a room, with what EL0 does there given as a list of actions. */
    method RunInterval(v: Visit, freq: u64, late: bool, actions: seq<Action>, intid: u32) returns (ok: bool)
      requires Valid() && Mapped4() && v.id < ROOM_N
      modifies this, t, t.pt, ram
      ensures var iv := Interval(v.id, v.blob, v.wipe, [], 0 < freq / 10 <= 0x7fff_ffff && !late, intid);
              var e := Enter(l, old(State()), iv);
              && (ok <==> e.Some?)
              && (ok ==> Valid() && Mapped4() && t.used == old(t.used))
              && (ok ==> State() == Perform(l, e.value, actions, intid))
    {
      hide PageOf, ShapeOk, LeafsOk, Nodes, Priv, UserOpen, Poke, Perform, ZeroFill;
      ok := EnterRoom(v, freq, late);
      if ok { RunRoom(actions, intid); }
    }
  }

  lemma PokeNone(l: Layout, ram: seq<u8>, pa: nat)
    requires |ram| == l.size && l.lo <= pa && pa <= l.lo + l.size
    ensures Poke(l, ram, pa, []) == ram
  {
  }

  /** One more byte of a write in place. */
  lemma PokeNext(l: Layout, ram: seq<u8>, pa: nat, bytes: seq<u8>, i: nat)
    requires |ram| == l.size && l.lo <= pa && pa + |bytes| <= l.lo + l.size && i < |bytes|
    ensures Poke(l, ram, pa, bytes[..i + 1]) == Poke(l, ram, pa, bytes[..i])[pa - l.lo + i := bytes[i]]
  {
  }

  lemma {:induction false} ZeroBytes(n: nat)
    ensures LeBytes(0, n) == ZeroFill(n)
  {
    if n > 0 { ZeroBytes(n - 1); }
  }

  lemma ZeroStart(l: Layout, ram: seq<u8>, pa: nat)
    requires |ram| == l.size && l.lo <= pa <= l.lo + l.size
    ensures Poke(l, ram, pa, ZeroFill(0)) == ram
  {
  }

  lemma ZeroMore(l: Layout, ram: seq<u8>, pa: nat, n: nat)
    requires |ram| == l.size && l.lo <= pa && pa + n + 8 <= l.lo + l.size
    ensures Poke(l, Poke(l, ram, pa, ZeroFill(n)), pa + n, LeBytes(0, 8)) == Poke(l, ram, pa, ZeroFill(n + 8))
  {
    ZeroBytes(8);
    assert ZeroFill(n + 8) == ZeroFill(n) + ZeroFill(8);
  }
}
