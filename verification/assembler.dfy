/** The assembler: one emission pass over parsed lines, then label fixups. */
module Assembler {
  import opened Options
  import opened Words
  import opened Isa
  import opened AsmText
  import Floats

  /** The low byte of the value in an operand slot; a label's slot holds its characters. */
  function Low(op: Operand): byte {
    match op
    case Absent => 0
    case LabelOp(name) => if name == "" then 0 else name[0] as int % 256
    case CondOp(bits) => bits % 256
    case _ => op.i % 256
  }

  /** Two four-bit fields in a byte, the first one low. */
  function Nibbles(lo: Operand, hi: Operand): byte {
    Low(lo) % 16 + 16 * (Low(hi) % 16)
  }

  type Ops = s: seq<Operand> | |s| == 4 witness [Absent, Absent, Absent, Absent]

  /** The bytes emitted for an instruction: a word, or nothing for a format left unhandled.
      Operands of the wrong kind are reported, but encoded all the same. */
  function Encode(m: Mnemonic, ops: Ops): (w: seq<byte>)
    ensures |w| == if Emits(m) then 4 else 0
  {
    var op := OpcodeOf(m);
    match FormatOf(m)
    case ImmOrReg =>
      if ops[2].ImmOp? then [0, Nibbles(ops[0], ops[1]), Low(ops[2]), if op < 128 then op + 128 else op]
      else [0, Nibbles(ops[0], ops[1]), Nibbles(ops[2], ops[3]), op]
    case NoOperand => [0, 0, 0, op]
    case Branch => [0, Nibbles(ops[0], ops[2]), Low(ops[1]), op]
    case FourRegs => [0, Nibbles(ops[0], ops[1]), Nibbles(ops[2], ops[3]), op]
    case _ => []
  }

  predicate Emits(m: Mnemonic) {
    !FormatOf(m).Abs16? && !FormatOf(m).Rel16?
  }

  datatype LabelDef = LabelDef(name: string, pc: nat)
  datatype Fixup = Fixup(name: string, pc: nat, offset: nat)

  datatype Asm = Asm(out: seq<byte>, labels: seq<LabelDef>, fixups: seq<Fixup>, pc: nat)

  const EMPTY: Asm := Asm([], [], [], 0)

  /** The bytes emitted for a row after the integer ones. */
  function EncodeFloat(row: nat, ops: Ops): (w: seq<byte>)
    requires row < Floats.ROW_COUNT
    ensures |w| == if Floats.HasFour(row) then 4 else 0
  {
    if Floats.HasFour(row) then [1, Nibbles(ops[0], ops[1]), Nibbles(ops[2], ops[3]), Floats.RowOpcode(row) % 256]
    else []
  }

  /** Emits the instruction of that name; an unknown name is reported and skipped. */
  function FirstPass(st: Asm, name: string, ops: Ops): Asm {
    var m := FindName(name);
    if m.None? then
      var row := Floats.FindRow(name);
      if row.None? then st
      else
        var w := EncodeFloat(row.value, ops);
        st.(out := st.out + w, pc := st.pc + |w|)
    else
      var w := Encode(m.value, ops);
      var fixups := if FormatOf(m.value).Branch? && ops[1].LabelOp?
                    then st.fixups + [Fixup(ops[1].name, st.pc, |st.out|)] else st.fixups;
      Asm(st.out + w, st.labels, fixups, st.pc + |w|)
  }

  predicate LineOk(l: Line) {
    l.Inst? ==> |l.ops| == 4
  }

  function ProcessLine(st: Asm, l: Line): Asm
    requires LineOk(l)
  {
    match l
    case Blank => st
    case Label(name) => st.(labels := st.labels + [LabelDef(name, st.pc)])
    case Inst(name, ops) => FirstPass(st, name, ops)
  }

  predicate LinesOk(ls: seq<Line>) {
    forall i :: 0 <= i < |ls| ==> LineOk(ls[i])
  }

  /** The state after the first `n` lines. */
  function AssembleTo(ls: seq<Line>, n: nat): Asm
    requires LinesOk(ls) && n <= |ls|
  {
    if n == 0 then EMPTY else ProcessLine(AssembleTo(ls, n - 1), ls[n - 1])
  }

  /** The bytes a whole text assembles to, before fixups. */
  function AssembleText(text: string): Option<Asm> {
    var ls := ParseLines(LinesOf(text));
    if ls.None? || !LinesOk(ls.value) then None else Some(AssembleTo(ls.value, |ls.value|))
  }

  /** The first definition of a label, from the `i`-th on. */
  function FindLabel(labels: seq<LabelDef>, name: string, i: nat := 0): (r: Option<nat>)
    requires i <= |labels|
    ensures r.Some? ==> exists j :: i <= j < |labels| && labels[j] == LabelDef(name, r.value)
                          && forall k :: i <= k < j ==> labels[k].name != name
    ensures r.None? ==> forall k :: i <= k < |labels| ==> labels[k].name != name
    decreases |labels| - i
  {
    if i == |labels| then None
    else if labels[i].name == name then Some(labels[i].pc)
    else FindLabel(labels, name, i + 1)
  }

  predicate FixupsFit(fs: seq<Fixup>, out: seq<byte>) {
    forall i :: 0 <= i < |fs| ==> fs[i].offset + 2 < |out|
  }

  /** Patches the first `n` fixups; an undefined label aborts. */
  function FixupTo(out: seq<byte>, labels: seq<LabelDef>, fs: seq<Fixup>, n: nat): (r: Option<seq<byte>>)
    requires n <= |fs| && FixupsFit(fs, out)
    ensures r.Some? ==> |r.value| == |out|
  {
    if n == 0 then Some(out)
    else
      var r, l := FixupTo(out, labels, fs, n - 1), FindLabel(labels, fs[n - 1].name);
      if r.None? || l.None? then None
      else Some(r.value[fs[n - 1].offset + 2 := (l.value - fs[n - 1].pc) % 256])
  }

  predicate LabelsKnown(labels: seq<LabelDef>, fs: seq<Fixup>) {
    forall i :: 0 <= i < |fs| ==> FindLabel(labels, fs[i].name).Some?
  }

  ghost predicate DistinctSites(fs: seq<Fixup>) {
    forall i, j :: 0 <= i < j < |fs| ==> fs[i].offset != fs[j].offset
  }

  /** Fixups write exactly the displacement byte of their site, modulo 256, and nothing else. */
  lemma {:induction false} FixupBytes(out: seq<byte>, labels: seq<LabelDef>, fs: seq<Fixup>, n: nat)
    requires n <= |fs| && FixupsFit(fs, out) && LabelsKnown(labels, fs) && DistinctSites(fs)
    ensures FixupTo(out, labels, fs, n).Some?
    ensures var now := FixupTo(out, labels, fs, n).value;
      && (forall i :: 0 <= i < n ==>
            now[fs[i].offset + 2] == (FindLabel(labels, fs[i].name).value - fs[i].pc) % 256)
      && (forall k :: 0 <= k < |out| && (forall i :: 0 <= i < n ==> fs[i].offset + 2 != k) ==> now[k] == out[k])
  {
    if n > 0 {
      FixupBytes(out, labels, fs, n - 1);
    }
  }

  lemma {:induction false} SameFixups(out: seq<byte>, labels: seq<LabelDef>, fs: seq<Fixup>, gs: seq<Fixup>)
    requires FixupsFit(fs, out) && LabelsKnown(labels, fs) && forall f :: f in gs ==> f in fs
    ensures FixupsFit(gs, out) && LabelsKnown(labels, gs)
  {
    forall i | 0 <= i < |gs|
      ensures gs[i].offset + 2 < |out| && FindLabel(labels, gs[i].name).Some?
    {
      assert gs[i] in fs;
    }
  }

  /** The order of the fixups does not matter. */
  lemma {:induction false} FixupOrder(out: seq<byte>, labels: seq<LabelDef>, fs: seq<Fixup>, gs: seq<Fixup>)
    requires FixupsFit(fs, out) && LabelsKnown(labels, fs) && DistinctSites(fs) && DistinctSites(gs)
    requires forall f :: f in fs <==> f in gs
    ensures FixupsFit(gs, out) && FixupTo(out, labels, gs, |gs|) == FixupTo(out, labels, fs, |fs|)
  {
    hide *;
    SameFixups(out, labels, fs, gs);
    FixupEffect(out, labels, fs);
    FixupEffect(out, labels, gs);
    SameEffect(out, labels, fs, gs, FixupTo(out, labels, fs, |fs|).value, FixupTo(out, labels, gs, |gs|).value);
  }

  /** Two outputs that the same fixups patched, and nothing else changed, are equal. */
  lemma {:induction false} SameEffect(out: seq<byte>, labels: seq<LabelDef>, fs: seq<Fixup>, gs: seq<Fixup>,
      a: seq<byte>, b: seq<byte>)
    requires |a| == |b| == |out| && forall f :: f in fs <==> f in gs
    requires forall f :: f in fs ==> FindLabel(labels, f.name).Some? && f.offset + 2 < |out| && Patched(labels, f, a)
    requires forall f :: f in gs ==> FindLabel(labels, f.name).Some? && f.offset + 2 < |out| && Patched(labels, f, b)
    requires forall k :: 0 <= k < |out| && (forall f :: f in fs ==> f.offset + 2 != k) ==> a[k] == out[k]
    requires forall k :: 0 <= k < |out| && (forall f :: f in gs ==> f.offset + 2 != k) ==> b[k] == out[k]
    ensures a == b
  {
    hide FindLabel;
    forall k | 0 <= k < |out|
      ensures a[k] == b[k]
    {
      if f :| f in fs && f.offset + 2 == k {
        assert Patched(labels, f, a) && Patched(labels, f, b);
      } else {
        assert forall f :: f in gs ==> f.offset + 2 != k;
      }
    }
  }

  ghost predicate Patched(labels: seq<LabelDef>, f: Fixup, now: seq<byte>)
    requires FindLabel(labels, f.name).Some? && f.offset + 2 < |now|
  {
    now[f.offset + 2] == (FindLabel(labels, f.name).value - f.pc) % 256
  }

  lemma {:induction false} FixupEffect(out: seq<byte>, labels: seq<LabelDef>, fs: seq<Fixup>)
    requires FixupsFit(fs, out) && LabelsKnown(labels, fs) && DistinctSites(fs)
    ensures var r := FixupTo(out, labels, fs, |fs|);
      && r.Some?
      && (forall f :: f in fs ==>
              FindLabel(labels, f.name).Some? && f.offset + 2 < |out| && Patched(labels, f, r.value))
      && (forall k :: 0 <= k < |out| && (forall f :: f in fs ==> f.offset + 2 != k) ==> r.value[k] == out[k])
  {
    FixupBytes(out, labels, fs, |fs|);
    hide FixupTo, FindLabel;
    var now := FixupTo(out, labels, fs, |fs|).value;
    forall f | f in fs
      ensures FindLabel(labels, f.name).Some? && f.offset + 2 < |out| && Patched(labels, f, now)
    {
      var i :| 0 <= i < |fs| && fs[i] == f;
      assert now[fs[i].offset + 2] == (FindLabel(labels, fs[i].name).value - fs[i].pc) % 256;
    }
    forall k | 0 <= k < |out| && (forall f :: f in fs ==> f.offset + 2 != k)
      ensures now[k] == out[k]
    {
      assert forall i :: 0 <= i < |fs| ==> fs[i] in fs && fs[i].offset + 2 != k;
    }
  }

  // ---------- the loop invariant ----------

  /** `pc` is the output length, a multiple of four; labels are instruction boundaries; each
      fixup site is a branch word of its own. */
  ghost predicate AsmOk(st: Asm) {
    && st.pc == |st.out| && |st.out| % 4 == 0
    && (forall i :: 0 <= i < |st.labels| ==> st.labels[i].pc <= |st.out| && st.labels[i].pc % 4 == 0)
    && (forall i :: 0 <= i < |st.fixups| ==> FixupOk(st, st.fixups[i]))
    && (forall i, j :: 0 <= i < j < |st.fixups| ==> st.fixups[i].offset < st.fixups[j].offset)
  }

  ghost predicate FixupOk(st: Asm, f: Fixup) {
    && f.pc == f.offset && f.offset % 4 == 0 && f.offset + 4 <= |st.out|
    && st.out[f.offset] == 0 && exists m :: FormatOf(m).Branch? && st.out[f.offset + 3] == OpcodeOf(m)
  }

  lemma {:induction false} AssembleInvariant(ls: seq<Line>, n: nat)
    requires LinesOk(ls) && n <= |ls|
    ensures AsmOk(AssembleTo(ls, n))
  {
    if n > 0 {
      AssembleInvariant(ls, n - 1);
      LineInvariant(AssembleTo(ls, n - 1), ls[n - 1]);
    }
  }

  lemma {:induction false} LineInvariant(st: Asm, l: Line)
    requires AsmOk(st) && LineOk(l)
    ensures AsmOk(ProcessLine(st, l))
  {
    hide FindName, Floats.FindRow, FormatOf, Encode, EncodeFloat, FixupOk;
    match l
    case Blank =>
    case Label(name) =>
      forall i | 0 <= i < |st.fixups|
        ensures FixupOk(ProcessLine(st, l), st.fixups[i])
      {
        FixupKept(st, ProcessLine(st, l), st.fixups[i]);
      }
    case Inst(name, ops) =>
      var m, row := FindName(name), Floats.FindRow(name);
      if m.Some? {
        BranchBytes(m.value, ops);
        WordInvariant(st, Encode(m.value, ops));
        if FormatOf(m.value).Branch? && ops[1].LabelOp? {
          SiteInvariant(st, m.value, Encode(m.value, ops), ops[1].name);
        }
      } else if row.Some? {
        WordInvariant(st, EncodeFloat(row.value, ops));
      }
  }

  lemma {:induction false} BranchBytes(m: Mnemonic, ops: Ops)
    ensures FormatOf(m).Branch? ==> |Encode(m, ops)| == 4 && Encode(m, ops)[0] == 0 && Encode(m, ops)[3] == OpcodeOf(m)
  {
    hide FormatOf, OpcodeOf, Nibbles, Low;
  }

  lemma {:induction false} FixupKept(st: Asm, st': Asm, f: Fixup)
    requires FixupOk(st, f) && st.out <= st'.out
    ensures FixupOk(st', f)
  {
    hide FormatOf, OpcodeOf;
  }

  /** A word, or nothing, after the output. */
  lemma {:induction false} WordInvariant(st: Asm, w: seq<byte>)
    requires AsmOk(st) && (|w| == 0 || |w| == 4)
    ensures AsmOk(Asm(st.out + w, st.labels, st.fixups, st.pc + |w|))
  {
    hide FixupOk;
    var st' := Asm(st.out + w, st.labels, st.fixups, st.pc + |w|);
    forall i | 0 <= i < |st.fixups|
      ensures FixupOk(st', st.fixups[i])
    {
      FixupKept(st, st', st.fixups[i]);
    }
  }

  /** A branch word with the fixup of its label. */
  lemma {:induction false} SiteInvariant(st: Asm, m: Mnemonic, w: seq<byte>, name: string)
    requires AsmOk(st) && |w| == 4 && FormatOf(m).Branch? && w[0] == 0 && w[3] == OpcodeOf(m)
    requires AsmOk(Asm(st.out + w, st.labels, st.fixups, st.pc + 4))
    ensures AsmOk(Asm(st.out + w, st.labels, st.fixups + [Fixup(name, st.pc, |st.out|)], st.pc + 4))
  {
    hide FormatOf, OpcodeOf;
    var st1 := Asm(st.out + w, st.labels, st.fixups, st.pc + 4);
    var st' := st1.(fixups := st.fixups + [Fixup(name, st.pc, |st.out|)]);
    forall i | 0 <= i < |st'.fixups|
      ensures FixupOk(st', st'.fixups[i])
    {
      if i < |st.fixups| {
        FixupKept(st1, st', st.fixups[i]);
      }
    }
    forall i, j | 0 <= i < j < |st'.fixups|
      ensures st'.fixups[i].offset < st'.fixups[j].offset
    {
      assert FixupOk(st, st.fixups[i]);
    }
  }

  /** A taken branch goes to its label exactly when the displacement fits a signed byte,
      whatever the load address. */
  lemma {:induction false} BranchHitsLabelExactly(base: u32, site: nat, target: nat)
    requires site < 0x8000_0000 && target < 0x8000_0000
    ensures Wrap(Wrap(base + site) + Signed8((target - site) % 256)) == Wrap(base + target)
            <==> -128 <= target - site <= 127
  {
    var rela: int := target - site;
    var d: int := Signed8(rela % 256);
    assert Wrap(base + site + d) == Wrap(base + target) <==> (d - rela) % TWO32 == 0;
    assert Wrap(Wrap(base + site) + d) == Wrap(base + site + d);
  }
}
