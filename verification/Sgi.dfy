/** The word that nxu_gic_sgi writes to ICC_SGI1R_EL1 (silicon/aarch64/gicv3/gicv3.c), decoded as
    the GICv3 architecture does (IHI 0069, ICC_SGI1R_EL1). */
module Sgi {
  /** mpidr & 0xFF00FFFFFF */
  function Mask(m: bv64): bv64 {
    m & 0xff_00ff_ffff
  }

  function Aff0(m: bv64): bv64 { m & 0xff }

  function SgiWord(intid: bv64, m: bv64): bv64
    requires intid < 16 && Aff0(m) < 64
  {
    (((m >> 32) & 0xff) << 48) | (((m >> 16) & 0xff) << 32) | (((m >> 8) & 0xff) << 16)
    | (intid << 24) | ((1 as bv64) << (Aff0(m) as bv7))
  }

  // ---- The architecture's reading of the word ----------------------------------------

  function Irm(w: bv64): bv64 { (w >> 40) & 1 }

  function Intid(w: bv64): bv64 { (w >> 24) & 0xf }

  /** Whether the CPU with affinity `c` is a target of a word written on the CPU `sender`. With IRM 0 it
      is when it lies in the named cluster, its Aff0 is in the range selected by RS, and its bit of the
      target list is set; with IRM 1 every CPU but the sender is. */
  predicate Targets(w: bv64, sender: bv64, c: bv64) {
    if Irm(w) == 1 then Mask(c) != Mask(sender)
    else
      && (w >> 48) & 0xff == (c >> 32) & 0xff
      && (w >> 32) & 0xff == (c >> 16) & 0xff
      && (w >> 16) & 0xff == (c >> 8) & 0xff
      && (w >> 44) & 0xf == Aff0(c) >> 4
      && ((w & 0xffff) >> ((Aff0(c) & 0xf) as bv5)) & 1 == 1
  }

  lemma UpperFields(intid: bv64, m: bv64)
    requires intid < 16 && Aff0(m) < 16
    ensures var w := SgiWord(intid, m);
      && Irm(w) == 0 && (w >> 44) & 0xf == 0
      && (w >> 48) & 0xff == (m >> 32) & 0xff && (w >> 32) & 0xff == (m >> 16) & 0xff
  {
  }

  lemma LowerFields(intid: bv64, m: bv64)
    requires intid < 16 && Aff0(m) < 16
    ensures var w := SgiWord(intid, m);
      && Intid(w) == intid && (w >> 16) & 0xff == (m >> 8) & 0xff
      && w & 0xffff == (1 as bv64) << (Aff0(m) as bv7)
  {
  }

  lemma OneBit(a: bv64, b: bv64)
    requires a < 16 && b < 256
    ensures 0 == b >> 4 && (((1 as bv64) << (a as bv7)) >> ((b & 0xf) as bv5)) & 1 == 1 <==> a == b
  {
  }

  lemma FieldsOfMask(m: bv64)
    ensures Mask(m) == (((m >> 32) & 0xff) << 32) | (((m >> 16) & 0xff) << 16) | (((m >> 8) & 0xff) << 8) | Aff0(m)
    ensures (Mask(m) >> 32) & 0xff == (m >> 32) & 0xff && (Mask(m) >> 16) & 0xff == (m >> 16) & 0xff
    ensures (Mask(m) >> 8) & 0xff == (m >> 8) & 0xff && Aff0(Mask(m)) == Aff0(m)
  {
  }

  lemma SameAffinity(m: bv64, c: bv64)
    ensures Mask(c) == Mask(m)
       <==> (c >> 32) & 0xff == (m >> 32) & 0xff && (c >> 16) & 0xff == (m >> 16) & 0xff
            && (c >> 8) & 0xff == (m >> 8) & 0xff && Aff0(c) == Aff0(m)
  {
    hide Mask, Aff0;
    FieldsOfMask(m);
    FieldsOfMask(c);
  }

  /** For Aff0 below 16 the interrupt goes to the named CPU and to no other one. */
  lemma OneTarget(intid: bv64, m: bv64, sender: bv64, c: bv64)
    requires intid < 16 && Aff0(m) < 16
    ensures Irm(SgiWord(intid, m)) == 0 && Intid(SgiWord(intid, m)) == intid
    ensures Targets(SgiWord(intid, m), sender, c) <==> Mask(c) == Mask(m)
  {
    hide SgiWord, Mask, Aff0;
    UpperFields(intid, m);
    LowerFields(intid, m);
    Aff0Small(c);
    OneBit(Aff0(m), Aff0(c));
    SameAffinity(m, c);
  }

  lemma Aff0Small(c: bv64)
    ensures Aff0(c) < 256
  {
  }

  /** The shifted bit is the routing mode for Aff0 40, and leaves the target list empty from 16 on. */
  lemma ShiftedBit(intid: bv64, m: bv64)
    requires intid < 16 && 16 <= Aff0(m) < 64
    ensures SgiWord(intid, m) & 0xffff == 0
    ensures Irm(SgiWord(intid, m)) == if Aff0(m) == 40 then 1 else 0
  {
  }

  lemma EmptyList(w: bv64, b: bv64)
    requires w & 0xffff == 0 && b < 16
    ensures ((w & 0xffff) >> (b as bv5)) & 1 == 0
  {
  }

  /** From 16 on nobody is reached, but for Aff0 40, where everybody is except the sender. */
  lemma HighAff0(intid: bv64, m: bv64, sender: bv64, c: bv64)
    requires intid < 16 && 16 <= Aff0(m) < 64
    ensures Targets(SgiWord(intid, m), sender, c) <==> Aff0(m) == 40 && Mask(c) != Mask(sender)
  {
    hide SgiWord, Mask;
    ShiftedBit(intid, m);
    EmptyList(SgiWord(intid, m), Aff0(c) & 0xf);
  }

  /** The named CPU is reached from another CPU exactly when its Aff0 is below 16 or is 40, and from
      itself exactly when its Aff0 is below 16. */
  lemma ReachedIff(intid: bv64, m: bv64, sender: bv64)
    requires intid < 16 && Aff0(m) < 64
    ensures Targets(SgiWord(intid, m), sender, m) <==> Aff0(m) < 16 || (Aff0(m) == 40 && Mask(m) != Mask(sender))
  {
    hide SgiWord, Mask, Aff0, Targets;
    if Aff0(m) < 16 { OneTarget(intid, m, sender, m); } else { HighAff0(intid, m, sender, m); }
  }

  /** A CPU of which neither of two given ones is a double. */
  function ThirdCpu(m: bv64, sender: bv64): (c: bv64)
    ensures Mask(c) != Mask(m) && Mask(c) != Mask(sender)
  {
    if Mask(m) != 0 && Mask(sender) != 0 then 0
    else if Mask(m) != 1 && Mask(sender) != 1 then 1
    else 2
  }

  /** It is the one and only target, whoever sends, exactly when its Aff0 is below 16. */
  lemma OnlyTargetIff(intid: bv64, m: bv64, sender: bv64)
    requires intid < 16 && Aff0(m) < 64
    ensures (forall c :: Targets(SgiWord(intid, m), sender, c) <==> Mask(c) == Mask(m)) <==> Aff0(m) < 16
  {
    hide SgiWord, Mask, Aff0, Targets;
    if Aff0(m) < 16 {
      forall c ensures Targets(SgiWord(intid, m), sender, c) <==> Mask(c) == Mask(m) {
        OneTarget(intid, m, sender, c);
      }
    } else {
      HighAff0(intid, m, sender, m);
      HighAff0(intid, m, sender, ThirdCpu(m, sender));
    }
  }
}
