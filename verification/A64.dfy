/** The A64 instructions that the room bodies of foundation/room/room_entry.S are made of: their 32-bit
    encodings and back. */
module A64 {
  import opened Words

  /** Register 31 is xzr, and the stack pointer where it is a base, which no body uses. */
  datatype Instr =
    | Movz(rd: nat, imm: nat)             // mov xd, #imm
    | MovReg(rd: nat, rm: nat)            // mov xd, xm
    | Ldr(rt: nat, rn: nat, off: nat)     // ldr xt, [xn, #off]
    | Str(rt: nat, rn: nat, off: nat)     // str xt, [xn, #off]
    | Br(rn: nat)                         // br xn
    | B(words: int)                       // b . + 4 * words
    | Call(imm: nat)                       // svc #imm
    | MsrTval(rt: nat)                    // msr cntp_tval_el0, xt
    | Other                               // anything else

  predicate Valid(i: Instr) {
    match i
    case Movz(rd, imm) => rd < 32 && imm < 0x1_0000
    case MovReg(rd, rm) => rd < 32 && rm < 32
    case Ldr(rt, rn, off) => rt < 32 && rn < 31 && off % 8 == 0 && off < 0x8000
    case Str(rt, rn, off) => rt < 32 && rn < 31 && off % 8 == 0 && off < 0x8000
    case Br(rn) => rn < 32
    case B(words) => -0x200_0000 <= words < 0x200_0000
    case Call(imm) => imm < 0x1_0000
    case MsrTval(rt) => rt < 32
    case Other => false
  }

  function Encode(i: Instr): u32
    requires Valid(i)
  {
    match i
    case Movz(rd, imm) => 0xD280_0000 + imm * 0x20 + rd
    case MovReg(rd, rm) => 0xAA00_03E0 + rm * 0x1_0000 + rd
    case Ldr(rt, rn, off) => 0xF940_0000 + off / 8 * 0x400 + rn * 0x20 + rt
    case Str(rt, rn, off) => 0xF900_0000 + off / 8 * 0x400 + rn * 0x20 + rt
    case Br(rn) => 0xD61F_0000 + rn * 0x20
    case B(words) => 0x1400_0000 + words % 0x400_0000
    case Call(imm) => 0xD400_0001 + imm * 0x20
    case MsrTval(rt) => 0xD51B_E200 + rt
  }

  function Decode(w: u32): Instr {
    if w / 0x20_0000 == 0x694 then Movz(w % 0x20, w / 0x20 % 0x1_0000)
    else if w / 0x20_0000 == 0x550 && w / 0x20 % 0x800 == 0x1F then MovReg(w % 0x20, w / 0x1_0000 % 0x20)
    else if w / 0x40_0000 == 0x3E5 && w / 0x20 % 0x20 != 31 then
      Ldr(w % 0x20, w / 0x20 % 0x20, w / 0x400 % 0x1000 * 8)
    else if w / 0x40_0000 == 0x3E4 && w / 0x20 % 0x20 != 31 then
      Str(w % 0x20, w / 0x20 % 0x20, w / 0x400 % 0x1000 * 8)
    else if w / 0x400 == 0x35_87C0 && w % 0x20 == 0 then Br(w / 0x20 % 0x20)
    else if w / 0x400_0000 == 5 then
      B(if w % 0x400_0000 < 0x200_0000 then w % 0x400_0000 else w % 0x400_0000 - 0x400_0000)
    else if w / 0x20_0000 == 0x6A0 && w % 0x20 == 1 then Call(w / 0x20 % 0x1_0000)
    else if w / 0x20 == 0x6A8_DF10 then MsrTval(w % 0x20)
    else Other
  }

  // One field at a time: `low` is what lies below the field.
  lemma By20(q: nat, low: nat)
    requires low < 0x20
    ensures (q * 0x20 + low) / 0x20 == q && (q * 0x20 + low) % 0x20 == low
  {
  }

  lemma By400(q: nat, low: nat)
    requires low < 0x400
    ensures (q * 0x400 + low) / 0x400 == q
  {
  }

  lemma By1_0000(q: nat, low: nat)
    requires low < 0x1_0000
    ensures (q * 0x1_0000 + low) / 0x1_0000 == q && (q * 0x1_0000 + low) % 0x1_0000 == low
  {
  }

  lemma By20_0000(q: nat, low: nat)
    requires low < 0x20_0000
    ensures (q * 0x20_0000 + low) / 0x20_0000 == q
  {
  }

  lemma By40_0000(q: nat, low: nat)
    requires low < 0x40_0000
    ensures (q * 0x40_0000 + low) / 0x40_0000 == q
  {
  }

  lemma Low1000(q: nat, low: nat)
    requires low < 0x1000
    ensures (q * 0x1000 + low) % 0x1000 == low
  {
  }

  lemma Low800(q: nat, low: nat)
    requires low < 0x800
    ensures (q * 0x800 + low) % 0x800 == low
  {
  }

  lemma MovzBack(rd: nat, imm: nat)
    requires Valid(Movz(rd, imm))
    ensures Decode(Encode(Movz(rd, imm))) == Movz(rd, imm)
  {
    var w := Encode(Movz(rd, imm));
    assert w == 0x694 * 0x20_0000 + (imm * 0x20 + rd);
    By20_0000(0x694, imm * 0x20 + rd);
    assert w == (0x694 * 0x1_0000 + imm) * 0x20 + rd;
    By20(0x694 * 0x1_0000 + imm, rd);
    By1_0000(0x694, imm);
  }

  lemma CallBack(imm: nat)
    requires Valid(Call(imm))
    ensures Decode(Encode(Call(imm))) == Call(imm)
  {
    var w := Encode(Call(imm));
    By20_0000(0x6A0, imm * 0x20 + 1);
    assert w == 0x6A0 * 0x20_0000 + (imm * 0x20 + 1);
    assert w == (0x6A0 * 0x1_0000 + imm) * 0x20 + 1;
    By20(0x6A0 * 0x1_0000 + imm, 1);
    By1_0000(0x6A0, imm);
    By40_0000(0x350, imm * 0x20 + 1);
    By400_0000(0x35, imm * 0x20 + 1);
    By400(0x35_0000 + imm / 0x20, imm % 0x20 * 0x20 + 1);
  }

  lemma By400_0000(q: nat, low: nat)
    requires low < 0x400_0000
    ensures (q * 0x400_0000 + low) / 0x400_0000 == q && (q * 0x400_0000 + low) % 0x400_0000 == low
  {
  }

  lemma MovRegBack(rd: nat, rm: nat)
    requires Valid(MovReg(rd, rm))
    ensures Decode(Encode(MovReg(rd, rm))) == MovReg(rd, rm)
  {
    var w := Encode(MovReg(rd, rm));
    assert w == 0x550 * 0x20_0000 + (rm * 0x1_0000 + 0x3E0 + rd);
    By20_0000(0x550, rm * 0x1_0000 + 0x3E0 + rd);
    assert w == ((0x550 * 0x20 + rm) * 0x800 + 0x1F) * 0x20 + rd;
    By20((0x550 * 0x20 + rm) * 0x800 + 0x1F, rd);
    Low800(0x550 * 0x20 + rm, 0x1F);
    By1_0000(0x550 * 0x20 + rm, 0x3E0 + rd);
    By20(0x550, rm);
  }

  lemma MemoryFields(top: nat, rt: nat, rn: nat, n: nat)
    requires rt < 32 && rn < 32 && n < 0x1000
    ensures var w := top * 0x40_0000 + n * 0x400 + rn * 0x20 + rt;
      && w / 0x40_0000 == top && w % 0x20 == rt && w / 0x20 % 0x20 == rn && w / 0x400 % 0x1000 == n
      && w / 0x20_0000 == 2 * top + n / 0x800
  {
    var w := top * 0x40_0000 + n * 0x400 + rn * 0x20 + rt;
    By40_0000(top, n * 0x400 + rn * 0x20 + rt);
    assert w == ((top * 0x1000 + n) * 0x20 + rn) * 0x20 + rt;
    By20((top * 0x1000 + n) * 0x20 + rn, rt);
    By20(top * 0x1000 + n, rn);
    By400(top * 0x1000 + n, rn * 0x20 + rt);
    Low1000(top, n);
    assert w == (2 * top + n / 0x800) * 0x20_0000 + (n % 0x800 * 0x400 + rn * 0x20 + rt);
    By20_0000(2 * top + n / 0x800, n % 0x800 * 0x400 + rn * 0x20 + rt);
  }

  lemma LdrBack(rt: nat, rn: nat, off: nat)
    requires Valid(Ldr(rt, rn, off))
    ensures Decode(Encode(Ldr(rt, rn, off))) == Ldr(rt, rn, off)
  {
    MemoryFields(0x3E5, rt, rn, off / 8);
    assert Encode(Ldr(rt, rn, off)) == 0x3E5 * 0x40_0000 + off / 8 * 0x400 + rn * 0x20 + rt;
  }

  lemma StrBack(rt: nat, rn: nat, off: nat)
    requires Valid(Str(rt, rn, off))
    ensures Decode(Encode(Str(rt, rn, off))) == Str(rt, rn, off)
  {
    MemoryFields(0x3E4, rt, rn, off / 8);
    assert Encode(Str(rt, rn, off)) == 0x3E4 * 0x40_0000 + off / 8 * 0x400 + rn * 0x20 + rt;
  }

  lemma BrBack(rn: nat)
    requires Valid(Br(rn))
    ensures Decode(Encode(Br(rn))) == Br(rn)
  {
    var w := Encode(Br(rn));
    By400(0x35_87C0, rn * 0x20);
    By20(0x35_87C0 * 0x20 + rn, 0);
    By20(0x35_87C0, rn);
    By20_0000(0x6B0, 0x1F_0000 + rn * 0x20);
    By40_0000(0x358, 0x1F_0000 + rn * 0x20);
    assert w == 0x35_87C0 * 0x400 + rn * 0x20;
  }

  lemma BBack(words: int)
    requires Valid(B(words))
    ensures Decode(Encode(B(words))) == B(words)
  {
    var low := words % 0x400_0000;
    By400_0000(5, low);
    TopOfB(low);
  }

  /** A branch is no other form. */
  lemma TopOfB(low: nat)
    requires low < 0x400_0000
    ensures var w := 0x1400_0000 + low;
      w / 0x20_0000 < 0x550 && w / 0x40_0000 < 0x3E4 && w / 0x400 < 0x35_87C0
  {
  }

  lemma MsrBack(rt: nat)
    requires Valid(MsrTval(rt))
    ensures Decode(Encode(MsrTval(rt))) == MsrTval(rt)
  {
    By20(0x6A8_DF10, rt);
    By20_0000(0x6A8, 0x1B_E200 + rt);
    By40_0000(0x354, 0x1B_E200 + rt);
    By400_0000(0x35, 0x11B_E200 + rt);
    By400(0x35_46F8, 0x200 + rt);
  }

  /** Every form is decoded to what was encoded. */
  lemma DecodeEncode(i: Instr)
    requires Valid(i)
    ensures Decode(Encode(i)) == i
  {
    hide Decode, Encode;
    match i
    case Movz(rd, imm) => MovzBack(rd, imm);
    case MovReg(rd, rm) => MovRegBack(rd, rm);
    case Ldr(rt, rn, off) => LdrBack(rt, rn, off);
    case Str(rt, rn, off) => StrBack(rt, rn, off);
    case Br(rn) => BrBack(rn);
    case B(words) => BBack(words);
    case Call(imm) => CallBack(imm);
    case MsrTval(rt) => MsrBack(rt);
  }
}
