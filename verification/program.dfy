/** Assembly source as a list of instructions with labels naming positions in it, how the
    assembled bytes lay it out, and an interpreter that never sees a byte. */
module Program {
  import opened Options
  import opened Words
  import opened Isa
  import opened AsmText
  import opened Assembler
  import opened Memory
  import opened Machine
  import Floats

  datatype Instr = Instr(m: Mnemonic, ops: Ops) | FloatInstr(row: nat, ops: Ops)

  /** Instructions that have a word. */
  predicate Emitted(i: Instr) {
    match i
    case Instr(m, _) => Emits(m)
    case FloatInstr(row, _) => row < Floats.ROW_COUNT && Floats.HasFour(row)
  }

  /** The word before fixups. */
  function WordOf(i: Instr): (w: seq<byte>)
    requires Emitted(i)
    ensures |w| == 4
  {
    match i
    case Instr(m, ops) => Encode(m, ops)
    case FloatInstr(row, ops) => EncodeFloat(row, ops)
  }

  /** The instruction an assembly line stands for, if any. */
  function InstrNamed(name: string, ops: Ops): Option<Instr> {
    var m, row := FindName(name), Floats.FindRow(name);
    if m.Some? then (if Emits(m.value) then Some(Instr(m.value, ops)) else None)
    else if row.Some? && Floats.HasFour(row.value) then Some(FloatInstr(row.value, ops))
    else None
  }

  /** A label's `pc` is here the index of the instruction it stands before. */
  datatype Prog = Prog(insts: seq<Instr>, labels: seq<LabelDef>)

  /** The program the first `n` lines describe. */
  function ProgTo(ls: seq<Line>, n: nat): Prog
    requires LinesOk(ls) && n <= |ls|
  {
    if n == 0 then Prog([], [])
    else
      var p := ProgTo(ls, n - 1);
      match ls[n - 1]
      case Blank => p
      case Label(name) => p.(labels := p.labels + [LabelDef(name, |p.insts|)])
      case Inst(name, ops) =>
        var i := InstrNamed(name, ops);
        if i.None? then p else p.(insts := p.insts + [i.value])
  }

  predicate NeedsLabel(i: Instr) {
    i.Instr? && FormatOf(i.m).Branch? && i.ops[1].LabelOp?
  }

  /** The word at position `k` after fixups. */
  function FinalWord(p: Prog, k: nat): (w: seq<byte>)
    requires k < |p.insts| && Emitted(p.insts[k])
    requires NeedsLabel(p.insts[k]) ==> FindLabel(p.labels, p.insts[k].ops[1].name).Some?
    ensures |w| == 4
  {
    var i := p.insts[k];
    if NeedsLabel(i) then
      WordOf(i)[2 := (4 * FindLabel(p.labels, i.ops[1].name).value - 4 * k) % 256]
    else WordOf(i)
  }

  // ---------- layout ----------

  ghost predicate LaidOut(st: Asm, p: Prog) {
    && |st.out| == 4 * |p.insts| && |st.labels| == |p.labels| && st.pc == |st.out|
    && (forall k :: 0 <= k < |p.insts| ==>
            Emitted(p.insts[k]) && WordAt(st.out, k, WordOf(p.insts[k])))
    && (forall i :: 0 <= i < |p.labels| ==>
          st.labels[i] == LabelDef(p.labels[i].name, 4 * p.labels[i].pc) && p.labels[i].pc <= |p.insts|)
    && (forall i :: 0 <= i < |st.fixups| ==> FixesInstr(st.fixups[i], p))
    && (forall k :: 0 <= k < |p.insts| && NeedsLabel(p.insts[k]) ==> FixupFor(p.insts[k], k) in st.fixups)
    && (forall i, j :: 0 <= i < j < |st.fixups| ==> st.fixups[i].offset < st.fixups[j].offset)
  }

  ghost predicate WordAt(out: seq<byte>, k: nat, w: seq<byte>) {
    |w| == 4 && 4 * k + 4 <= |out| && forall j :: 0 <= j < 4 ==> out[4 * k + j] == w[j]
  }

  ghost function FixupFor(i: Instr, k: nat): Fixup
    requires NeedsLabel(i)
  {
    Fixup(i.ops[1].name, 4 * k, 4 * k)
  }

  ghost predicate FixesInstr(f: Fixup, p: Prog) {
    exists k: nat :: k < |p.insts| && NeedsLabel(p.insts[k]) && f == FixupFor(p.insts[k], k)
  }

  lemma {:induction false} Layout(ls: seq<Line>, n: nat)
    requires LinesOk(ls) && n <= |ls|
    ensures LaidOut(AssembleTo(ls, n), ProgTo(ls, n))
  {
    hide LaidOut;
    if n == 0 {
      LayoutEmpty();
    } else {
      Layout(ls, n - 1);
      LayoutLine(AssembleTo(ls, n - 1), ProgTo(ls, n - 1), ls[n - 1]);
    }
  }

  lemma {:induction false} LayoutEmpty()
    ensures LaidOut(EMPTY, Prog([], []))
  {
  }

  lemma {:induction false} LayoutLine(st: Asm, p: Prog, l: Line)
    requires LaidOut(st, p) && LineOk(l)
    ensures l.Blank? ==> LaidOut(ProcessLine(st, l), p)
    ensures l.Label? ==> LaidOut(ProcessLine(st, l), p.(labels := p.labels + [LabelDef(l.name, |p.insts|)]))
    ensures l.Inst? ==>
              var i := InstrNamed(l.name, l.ops);
              LaidOut(ProcessLine(st, l), if i.None? then p else p.(insts := p.insts + [i.value]))
  {
    hide LaidOut, Encode, EncodeFloat, FindName, Floats.FindRow, FormatOf, Emits, InstrNamed;
    match l
    case Blank =>
    case Label(name) => LayoutLabel(st, p, name);
    case Inst(name, ops) =>
      LineEmits(st, name, ops);
      var i := InstrNamed(name, ops);
      if i.Some? {
        LayoutInstr(st, p, i.value);
      }
  }

  /** A line either stands for an instruction, whose word and fixup it adds, or adds nothing. */
  lemma {:induction false} LineEmits(st: Asm, name: string, ops: Ops)
    ensures var i := InstrNamed(name, ops);
      && (i.None? ==> FirstPass(st, name, ops) == st)
      && (i.Some? ==>
            && Emitted(i.value) && i.value.ops == ops
            && FirstPass(st, name, ops)
               == Asm(st.out + WordOf(i.value), st.labels,
                      if NeedsLabel(i.value) then st.fixups + [Fixup(ops[1].name, st.pc, |st.out|)] else st.fixups,
                      st.pc + 4))
  {
    hide FindName, Floats.FindRow, NameOf, OpcodeOf, Nibbles, Low;
    var m := FindName(name);
    if m.Some? && !Emits(m.value) {
      assert Encode(m.value, ops) == [] && !FormatOf(m.value).Branch?;
      assert st.out + [] == st.out;
    } else if m.None? && Floats.FindRow(name).Some? {
      assert st.out + [] == st.out;
    }
  }

  lemma {:induction false} LayoutLabel(st: Asm, p: Prog, name: string)
    requires LaidOut(st, p)
    ensures LaidOut(ProcessLine(st, Label(name)), p.(labels := p.labels + [LabelDef(name, |p.insts|)]))
  {
    hide WordOf, Emitted, FormatOf, FindName, WordAt;
    var p' := p.(labels := p.labels + [LabelDef(name, |p.insts|)]);
    forall f | FixesInstr(f, p)
      ensures FixesInstr(f, p')
    {
    }
  }

  lemma {:induction false} LayoutInstr(st: Asm, p: Prog, i: Instr)
    requires LaidOut(st, p) && Emitted(i)
    ensures var w := WordOf(i);
      LaidOut(Asm(st.out + w, st.labels,
                  if NeedsLabel(i) then st.fixups + [Fixup(i.ops[1].name, st.pc, |st.out|)] else st.fixups,
                  st.pc + 4),
              p.(insts := p.insts + [i]))
  {
    hide WordOf, Emitted, NeedsLabel, FixesInstr, FixupFor, WordAt;
    var w, n := WordOf(i), |p.insts|;
    var p' := p.(insts := p.insts + [i]);
    var fs := if NeedsLabel(i) then st.fixups + [FixupFor(i, n)] else st.fixups;
    LayoutWords(st.out, p.insts, i);
    forall j | 0 <= j < |st.fixups|
      ensures FixesInstr(st.fixups[j], p') && st.fixups[j].offset < 4 * n
    {
      assert FixesInstr(st.fixups[j], p);
      StillFixes(st.fixups[j], p, i);
    }
    if NeedsLabel(i) {
      NewFixup(p, i);
      assert fs[|st.fixups|] == FixupFor(i, n);
    }
    forall k | 0 <= k < |p'.insts| && NeedsLabel(p'.insts[k])
      ensures FixupFor(p'.insts[k], k) in fs
    {
      if k < n {
        assert p'.insts[k] == p.insts[k];
        assert FixupFor(p.insts[k], k) in st.fixups;
      }
    }
  }

  lemma {:induction false} LayoutWords(out: seq<byte>, insts: seq<Instr>, i: Instr)
    requires |out| == 4 * |insts| && Emitted(i)
    requires forall k :: 0 <= k < |insts| ==> Emitted(insts[k]) && WordAt(out, k, WordOf(insts[k]))
    ensures var now := insts + [i];
      forall k :: 0 <= k < |now| ==> Emitted(now[k]) && WordAt(out + WordOf(i), k, WordOf(now[k]))
  {
    hide WordOf, Emitted;
    var now := insts + [i];
    forall k | 0 <= k < |now|
      ensures Emitted(now[k]) && WordAt(out + WordOf(i), k, WordOf(now[k]))
    {
      if k < |insts| {
        assert WordAt(out, k, WordOf(insts[k]));
      }
    }
  }

  /** A site stays one when an instruction is added, and lies before it. */
  lemma {:induction false} StillFixes(f: Fixup, p: Prog, i: Instr)
    requires FixesInstr(f, p)
    ensures FixesInstr(f, p.(insts := p.insts + [i])) && f.offset < 4 * |p.insts|
  {
    hide NeedsLabel;
    var k: nat :| k < |p.insts| && NeedsLabel(p.insts[k]) && f == FixupFor(p.insts[k], k);
    assert (p.insts + [i])[k] == p.insts[k];
  }

  lemma {:induction false} NewFixup(p: Prog, i: Instr)
    requires NeedsLabel(i)
    ensures var n := |p.insts|;
      FixupFor(i, n) == Fixup(i.ops[1].name, 4 * n, 4 * n) && FixesInstr(FixupFor(i, n), p.(insts := p.insts + [i]))
  {
    assert (p.insts + [i])[|p.insts|] == i;
  }

  ghost predicate AllLabelsKnown(p: Prog) {
    forall k :: 0 <= k < |p.insts| && NeedsLabel(p.insts[k]) ==> FindLabel(p.labels, p.insts[k].ops[1].name).Some?
  }

  lemma {:induction false} LabelPositions(st: Asm, p: Prog, name: string, i: nat)
    requires LaidOut(st, p) && i <= |p.labels|
    ensures FindLabel(st.labels, name, i) == match FindLabel(p.labels, name, i)
                                             case None => None
                                             case Some(k) => Some(4 * k)
    decreases |p.labels| - i
  {
    hide WordOf, Emitted, FormatOf, FixesInstr, WordAt, NeedsLabel;
    if i < |p.labels| {
      LabelPositions(st, p, name, i + 1);
    }
  }

  /** The bytes the assembler writes: word `k` is instruction `k`, its label resolved. */
  ghost predicate CodeFor(p: Prog, code: seq<byte>)
    requires AllLabelsKnown(p)
  {
    |code| == 4 * |p.insts|
    && forall k :: 0 <= k < |p.insts| ==> Emitted(p.insts[k]) && WordAt(code, k, FinalWord(p, k))
  }

  /** Assembling and fixing up yields exactly those bytes. */
  lemma {:induction false} AssembledCode(st: Asm, p: Prog)
    requires LaidOut(st, p) && AllLabelsKnown(p)
    ensures FixupsFit(st.fixups, st.out)
    ensures var r := FixupTo(st.out, st.labels, st.fixups, |st.fixups|);
      r.Some? && CodeFor(p, r.value)
  {
    hide WordOf, Emitted, FormatOf, FindName, FixupTo;
    var fs := st.fixups;
    forall i | 0 <= i < |fs|
      ensures fs[i].offset + 2 < |st.out| && FindLabel(st.labels, fs[i].name).Some?
    {
      assert FixesInstr(fs[i], p);
      var k: nat :| k < |p.insts| && NeedsLabel(p.insts[k]) && fs[i] == FixupFor(p.insts[k], k);
      LabelPositions(st, p, fs[i].name, 0);
    }
    FixupEffect(st.out, st.labels, fs);
    var code := FixupTo(st.out, st.labels, fs, |fs|).value;
    forall k | 0 <= k < |p.insts|
      ensures Emitted(p.insts[k]) && WordAt(code, k, FinalWord(p, k))
    {
      FixedWord(st, p, code, k);
    }
  }

  lemma {:induction false} FixedWord(st: Asm, p: Prog, code: seq<byte>, k: nat)
    requires LaidOut(st, p) && AllLabelsKnown(p) && k < |p.insts| && |code| == |st.out|
    requires forall f :: f in st.fixups ==>
               FindLabel(st.labels, f.name).Some? && f.offset + 2 < |code| && Patched(st.labels, f, code)
    requires forall o :: 0 <= o < |st.out| && (forall f :: f in st.fixups ==> f.offset + 2 != o) ==>
            code[o] == st.out[o]
    ensures Emitted(p.insts[k]) && WordAt(code, k, FinalWord(p, k))
  {
    hide WordOf, Emitted, FormatOf, FindName, FindLabel, LaidOut;
    var i := p.insts[k];
    LaidOutAt(st, p, k);
    assert WordAt(st.out, k, WordOf(i));
    forall j: nat | j < 4
      ensures code[4 * k + j] == FinalWord(p, k)[j]
    {
      if f :| f in st.fixups && f.offset + 2 == 4 * k + j {
        OnlySite(st, p, f, k, j);
        LabelPositions(st, p, i.ops[1].name, 0);
        assert Patched(st.labels, f, code);
      } else {
        assert code[4 * k + j] == st.out[4 * k + j];
        if j == 2 && NeedsLabel(i) {
          assert false;
        }
      }
    }
  }

  lemma {:induction false} LaidOutAt(st: Asm, p: Prog, k: nat)
    requires LaidOut(st, p) && k < |p.insts|
    ensures |st.out| == 4 * |p.insts|
    ensures Emitted(p.insts[k]) && WordAt(st.out, k, WordOf(p.insts[k]))
    ensures NeedsLabel(p.insts[k]) ==> FixupFor(p.insts[k], k) in st.fixups
  {
  }

  lemma {:induction false} OnlySite(st: Asm, p: Prog, f: Fixup, k: nat, j: nat)
    requires LaidOut(st, p) && f in st.fixups && k < |p.insts| && j < 4 && f.offset + 2 == 4 * k + j
    ensures j == 2 && NeedsLabel(p.insts[k]) && f == FixupFor(p.insts[k], k)
  {
    hide WordOf, Emitted, FormatOf;
    var a :| 0 <= a < |st.fixups| && st.fixups[a] == f;
    assert FixesInstr(st.fixups[a], p);
  }
}
