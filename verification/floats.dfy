/** The rows of the instruction table after the integer ones.

    Float, complex and conversion instructions and the debug halt: names, opcodes and formats.
    The assembler emits words for them and the disassembler finds some of them; what they do
    to the processor is not modelled. */
module Floats {
  import opened Options
  import opened Words
  import Isa

  const FLOATS_00: seq<string> := [
    "fadd3", "fsub3", "fdiv3", "fmul3", "fmod3", "fmadd", "fmsub", "fsqrt3", "fhyp", "fnorm", "fabs", "fsign"
  ]
  const FLOATS_0C: seq<string> := [
    "fnabs", "fcos", "fsin", "ftan", "facos", "fatan", "fasin", "fcbrt", "fy0", "fy1", "fj0", "fj1"
  ]
  const FLOATS_18: seq<string> := [
    "fexp", "frsqrt", "frcbrt", "fpow2", "fpow3", "fmax", "fmin", "fclamp", "finv", "fconstpi"
  ]
  const FLOATS_22: seq<string> := [
    "fconste", "fconstpi2", "frad", "fdeg", "fsel", "fsel2", "fgamma", "flgamma", "fround", "ffloor", "fceil"
  ]
  const COMPLEX_30: seq<string> := ["faddcrr", "fsubcrr", "fdivcrr", "fmulcrr", "fsqrtcrr"]
  const COMPLEX_40: seq<string> := ["faddcri", "fsubcri", "fdivcri", "fmulcri", "fsqrtcri"]
  const OTHERS: seq<string> := ["fcvti", "icvtf", "fcvtri", "icvtrf", "halt"]

  /** The rows in table order. */
  const ROWS: seq<string> := FLOATS_00 + FLOATS_0C + FLOATS_18 + FLOATS_22 + COMPLEX_30 + COMPLEX_40 + OTHERS

  const ROW_COUNT: nat := 60
  const FOUR_COUNT: nat := 55

  lemma {:induction false} RowsCounted()
    ensures |ROWS| == ROW_COUNT
  {
  }

  function RowName(i: nat): string
    requires i < ROW_COUNT
  {
    RowsCounted();
    ROWS[i]
  }

  function RowOpcode(i: nat): nat
    requires i < ROW_COUNT
  {
    if i < 45 then i
    else if i < 50 then 0x30 + (i - 45)
    else if i < 55 then 0x40 + (i - 50)
    else if i < 59 then 0x80 + (i - 55)
    else 0x0f
  }

  /** Four float registers; the assembler has no case for the other formats. */
  predicate HasFour(i: nat) {
    i < FOUR_COUNT
  }

  /** The first row, from `i` on, of that name. */
  function FindRow(name: string, i: nat := 0): (r: Option<nat>)
    requires i <= ROW_COUNT
    ensures r.Some? ==> r.value < ROW_COUNT && RowName(r.value) == name
    decreases ROW_COUNT - i
  {
    if i == ROW_COUNT then None else if RowName(i) == name then Some(i) else FindRow(name, i + 1)
  }

  /** The first row, from `i` on, of that opcode. */
  function FindRowOpcode(opcode: nat, i: nat := 0): (r: Option<nat>)
    requires i <= ROW_COUNT
    ensures r.Some? ==> i <= r.value < ROW_COUNT && RowOpcode(r.value) == opcode
    ensures r.None? ==> forall j :: i <= j < ROW_COUNT ==> RowOpcode(j) != opcode
    decreases ROW_COUNT - i
  {
    if i == ROW_COUNT then None else if RowOpcode(i) == opcode then Some(i) else FindRowOpcode(opcode, i + 1)
  }

  // ---------- the names ----------

  predicate Plain(name: string) {
    forall k :: 0 <= k < |name| ==> 'a' <= name[k] <= 'z' || '0' <= name[k] <= '9'
  }

  lemma {:induction false} Plain00()
    ensures forall e :: e in FLOATS_00 ==> Plain(e)
  {
  }

  lemma {:induction false} Plain0C()
    ensures forall e :: e in FLOATS_0C ==> Plain(e)
  {
  }

  lemma {:induction false} Plain18()
    ensures forall e :: e in FLOATS_18 ==> Plain(e)
  {
  }

  lemma {:induction false} Plain22()
    ensures forall e :: e in FLOATS_22 ==> Plain(e)
  {
  }

  lemma {:induction false} PlainComplex()
    ensures forall e :: e in COMPLEX_30 || e in COMPLEX_40 || e in OTHERS ==> Plain(e)
  {
  }

  /** Names are letters and digits. */
  lemma {:induction false} RowNamePlain(i: nat)
    requires i < ROW_COUNT
    ensures Plain(RowName(i))
  {
    hide FLOATS_00, FLOATS_0C, FLOATS_18, FLOATS_22, COMPLEX_30, COMPLEX_40, OTHERS, Plain;
    RowsCounted();
    Plain00();
    Plain0C();
    Plain18();
    Plain22();
    PlainComplex();
    assert RowName(i) in ROWS;
  }

  lemma {:induction false} NoRowNamed(name: string, c: char)
    requires c in name && !('a' <= c <= 'z' || '0' <= c <= '9')
    ensures FindRow(name).None?
  {
    hide RowName;
    if FindRow(name).Some? {
      RowNamePlain(FindRow(name).value);
    }
  }

  // ---------- names and numbers ----------

  /** These rows in names and numbers. */
  ghost function OpcodeNamed(s: string): Option<nat> {
    match s
    case "fadd3" => Some(0x00)
    case "fsub3" => Some(0x01)
    case "fdiv3" => Some(0x02)
    case "fmul3" => Some(0x03)
    case "fmod3" => Some(0x04)
    case "fmadd" => Some(0x05)
    case "fmsub" => Some(0x06)
    case "fsqrt3" => Some(0x07)
    case "fhyp" => Some(0x08)
    case "fnorm" => Some(0x09)
    case "fabs" => Some(0x0a)
    case "fsign" => Some(0x0b)
    case "fnabs" => Some(0x0c)
    case "fcos" => Some(0x0d)
    case "fsin" => Some(0x0e)
    case "ftan" => Some(0x0f)
    case "facos" => Some(0x10)
    case "fatan" => Some(0x11)
    case "fasin" => Some(0x12)
    case "fcbrt" => Some(0x13)
    case "fy0" => Some(0x14)
    case "fy1" => Some(0x15)
    case "fj0" => Some(0x16)
    case "fj1" => Some(0x17)
    case "fexp" => Some(0x18)
    case "frsqrt" => Some(0x19)
    case "frcbrt" => Some(0x1a)
    case "fpow2" => Some(0x1b)
    case "fpow3" => Some(0x1c)
    case "fmax" => Some(0x1d)
    case "fmin" => Some(0x1e)
    case "fclamp" => Some(0x1f)
    case "finv" => Some(0x20)
    case "fconstpi" => Some(0x21)
    case "fconste" => Some(0x22)
    case "fconstpi2" => Some(0x23)
    case "frad" => Some(0x24)
    case "fdeg" => Some(0x25)
    case "fsel" => Some(0x26)
    case "fsel2" => Some(0x27)
    case "fgamma" => Some(0x28)
    case "flgamma" => Some(0x29)
    case "fround" => Some(0x2a)
    case "ffloor" => Some(0x2b)
    case "fceil" => Some(0x2c)
    case "faddcrr" => Some(0x30)
    case "fsubcrr" => Some(0x31)
    case "fdivcrr" => Some(0x32)
    case "fmulcrr" => Some(0x33)
    case "fsqrtcrr" => Some(0x34)
    case "faddcri" => Some(0x40)
    case "fsubcri" => Some(0x41)
    case "fdivcri" => Some(0x42)
    case "fmulcri" => Some(0x43)
    case "fsqrtcri" => Some(0x44)
    case "fcvti" => Some(0x80)
    case "icvtf" => Some(0x81)
    case "fcvtri" => Some(0x82)
    case "icvtrf" => Some(0x83)
    case "halt" => Some(0x0f)
    case _ => None
  }

  lemma {:induction false} Named00(i: nat)
    requires i < |FLOATS_00|
    ensures OpcodeNamed(FLOATS_00[i]) == Some(i)
  {
  }

  lemma {:induction false} Named0C(i: nat)
    requires i < |FLOATS_0C|
    ensures OpcodeNamed(FLOATS_0C[i]) == Some(0x0c + i)
  {
  }

  lemma {:induction false} Named18(i: nat)
    requires i < |FLOATS_18|
    ensures OpcodeNamed(FLOATS_18[i]) == Some(0x18 + i)
  {
  }

  lemma {:induction false} Named22(i: nat)
    requires i < |FLOATS_22|
    ensures OpcodeNamed(FLOATS_22[i]) == Some(0x22 + i)
  {
  }

  lemma {:induction false} Named30(i: nat)
    requires i < |COMPLEX_30|
    ensures OpcodeNamed(COMPLEX_30[i]) == Some(0x30 + i)
  {
  }

  lemma {:induction false} Named40(i: nat)
    requires i < |COMPLEX_40|
    ensures OpcodeNamed(COMPLEX_40[i]) == Some(0x40 + i)
  {
  }

  lemma {:induction false} NamedOthers(i: nat)
    requires i < |OTHERS|
    ensures OpcodeNamed(OTHERS[i]) == Some(if i < 4 then 0x80 + i else 0x0f)
  {
  }

  lemma {:induction false} PartsCounted()
    ensures |FLOATS_00| == 12 && |FLOATS_0C| == 12 && |FLOATS_18| == 10 && |FLOATS_22| == 11
    ensures |COMPLEX_30| == 5 && |COMPLEX_40| == 5 && |OTHERS| == 5
  {
  }

  /** Every row's name and opcode, as listed. */
  lemma {:induction false} NameHasOpcode(i: nat)
    requires i < ROW_COUNT
    ensures OpcodeNamed(RowName(i)) == Some(RowOpcode(i))
  {
    hide FLOATS_00, FLOATS_0C, FLOATS_18, FLOATS_22, COMPLEX_30, COMPLEX_40, OTHERS, OpcodeNamed;
    PartsCounted();
    if i < 12 {
      Named00(i);
    } else if i < 24 {
      Named0C(i - 12);
    } else if i < 34 {
      Named18(i - 24);
    } else if i < 45 {
      Named22(i - 34);
    } else if i < 50 {
      Named30(i - 45);
    } else if i < 55 {
      Named40(i - 50);
    } else {
      NamedOthers(i - 55);
    }
  }

  lemma {:induction false} FloatsStart()
    ensures forall e :: e in FLOATS_00 || e in FLOATS_0C || e in FLOATS_18 ==> Isa.StartsF(e)
  {
  }

  lemma {:induction false} OthersStart()
    ensures forall e :: e in FLOATS_22 || e in COMPLEX_30 || e in COMPLEX_40 ==> Isa.StartsF(e)
  {
  }

  /** The names of the rows that have a word start with an f. */
  lemma {:induction false} FourStart(i: nat)
    requires i < FOUR_COUNT
    ensures Isa.StartsF(RowName(i))
  {
    hide FLOATS_00, FLOATS_0C, FLOATS_18, FLOATS_22, COMPLEX_30, COMPLEX_40, OTHERS, Isa.StartsF;
    PartsCounted();
    FloatsStart();
    OthersStart();
  }

  lemma {:induction false} TanAndHalt()
    ensures RowName(15) != RowName(59)
  {
  }

  /** The search by name finds every row. */
  lemma {:induction false} FindRowRecovers(i: nat, j: nat)
    requires j <= i < ROW_COUNT
    ensures FindRow(RowName(i), j) == Some(i)
    decreases i - j
  {
    hide RowName, OpcodeNamed;
    if j < i {
      NameHasOpcode(i);
      NameHasOpcode(j);
      TanAndHalt();
      FindRowRecovers(i, j + 1);
    }
  }
}
