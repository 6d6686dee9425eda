/** The assembler as it runs.

    Output, labels, fixups and the program counter change line by line, and the fixups then
    patch the output in place. */
module Assembling {
  import opened Options
  import opened Words
  import opened Isa
  import opened AsmText
  import opened Assembler
  import Floats

  method FindMnemonic(name: string) returns (m: Option<Mnemonic>)
    ensures m == FindName(name)
  {
    hide At, NameOf;
    for i := 0 to TABLE_COUNT
      invariant FindName(name, i) == FindName(name)
    {
      if NameOf(At(i)) == name {
        return Some(At(i));
      }
    }
    return None;
  }

  /** The rest of the same scan. */
  method FindFloatRow(name: string) returns (row: Option<nat>)
    ensures row == Floats.FindRow(name)
  {
    hide Floats.RowName;
    for i := 0 to Floats.ROW_COUNT
      invariant Floats.FindRow(name, i) == Floats.FindRow(name)
    {
      if Floats.RowName(i) == name {
        return Some(i);
      }
    }
    return None;
  }

  class AsmState {
    var out: seq<byte>
    var labels: seq<LabelDef>
    var fixups: seq<Fixup>
    var pc: nat

    ghost function View(): Asm
      reads this
    {
      Asm(out, labels, fixups, pc)
    }

    constructor ()
      ensures View() == EMPTY
    {
      out, labels, fixups, pc := [], [], [], 0;
    }

    /** Emits one instruction and returns its size. */
    method EmitInst(name: string, ops: Ops) returns (size: nat)
      modifies this
      ensures View().(pc := old(pc) + size) == FirstPass(old(View()), name, ops) && pc == old(pc)
    {
      hide FindName, Encode, EncodeFloat, FormatOf, Floats.FindRow;
      var m := FindMnemonic(name);
      if m.None? {
        var row := FindFloatRow(name);
        if row.None? {
          return 0;
        }
        var f := EncodeFloat(row.value, ops);
        out := out + f;
        return |f|;
      }
      if FormatOf(m.value).Branch? && ops[1].LabelOp? {
        fixups := fixups + [Fixup(ops[1].name, pc, |out|)];
      }
      var w := Encode(m.value, ops);
      out := out + w;
      return |w|;
    }

    method Process(line: Line)
      requires LineOk(line)
      modifies this
      ensures View() == ProcessLine(old(View()), line)
    {
      match line {
        case Blank =>
        case Label(name) => labels := labels + [LabelDef(name, pc)];
        case Inst(name, ops) =>
          var size := EmitInst(name, ops);
          pc := pc + size;
      }
    }

    /** The line loop over a text; `false` when a line overruns a fixed buffer. */
    method Assemble(text: string) returns (ok: bool)
      requires View() == EMPTY
      modifies this
      ensures ok <==> AssembleText(text).Some?
      ensures ok ==> View() == AssembleText(text).value
    {
      hide ParseLine, ProcessLine, LinesOf, AssembleTo, LinesOk;
      ghost var all := LinesOf(text);
      ghost var done: seq<Line> := [];
      var rest := text;
      LinesEnd();
      while rest != ""
        invariant |done| <= |all| && LinesOf(rest) == all[|done|..]
        invariant LinesOk(done) && View() == AssembleTo(done, |done|)
        invariant ParseLines(all[..|done|]) == Some(done)
        decreases |rest|
      {
        var head := Until(rest, "\n");
        var line := if |head| == |rest| then rest else rest[..|head| + 1];
        LinesStep(rest);
        assert all[|done|..][0] == line && all[|done|..][1..] == all[|done| + 1..];
        assert LinesOf(rest)[1..] == LinesOf(rest[|line|..]);
        var l := ParseLine(line);
        ParsePrefix(all, |done|);
        if l.None? {
          ParseFails(all, |done|);
          return false;
        }
        AssembleExtend(done, l.value, |done|);
        Process(l.value);
        done := done + [l.value];
        rest := rest[|line|..];
        assert LinesOf(rest) == all[|done|..];
      }
      assert all[..|done|] == all;
      AllParsedOk(all);
      return true;
    }

    method Lookup(name: string) returns (r: Option<nat>)
      ensures r == FindLabel(labels, name)
    {
      for i := 0 to |labels|
        invariant FindLabel(labels, name, i) == FindLabel(labels, name)
      {
        if labels[i].name == name {
          return Some(labels[i].pc);
        }
      }
      return None;
    }

    /** Patches every fixup; `false` is an abort on an unknown label. */
    method ApplyFixups() returns (ok: bool)
      requires FixupsFit(fixups, out)
      modifies this
      ensures var r := FixupTo(old(out), old(labels), old(fixups), |old(fixups)|);
        (ok <==> r.Some?) && (ok ==> View() == old(View()).(out := r.value))
    {
      hide FindLabel;
      ghost var was := out;
      for i := 0 to |fixups|
        invariant labels == old(labels) && fixups == old(fixups) && pc == old(pc)
        invariant FixupTo(was, labels, fixups, i) == Some(out)
      {
        var f := fixups[i];
        var l := Lookup(f.name);
        if l.None? {
          UnknownAborts(was, labels, fixups, i + 1, |fixups|);
          return false;
        }
        out := out[f.offset + 2 := (l.value - f.pc) % 256];
      }
      return true;
    }
  }

  lemma {:induction false} UnknownAborts(out: seq<byte>, labels: seq<LabelDef>, fs: seq<Fixup>, n: nat, m: nat)
    requires n <= m <= |fs| && FixupsFit(fs, out) && FixupTo(out, labels, fs, n).None?
    ensures FixupTo(out, labels, fs, m).None?
    decreases m - n
  {
    hide FindLabel;
    if n < m {
      UnknownAborts(out, labels, fs, n, m - 1);
    }
  }

  lemma {:induction false} ParseAppend(texts: seq<string>, t: string)
    ensures ParseLines(texts + [t]) ==
            if ParseLines(texts).Some? && ParseLine(t).Some?
            then Some(ParseLines(texts).value + [ParseLine(t).value]) else None
  {
    hide ParseLine;
    if texts == [] {
      assert texts + [t] == [t];
      assert [t][1..] == [] && ParseLines([]) == Some([]);
      if ParseLine(t).Some? {
        assert [ParseLine(t).value] + [] == [] + [ParseLine(t).value];
      }
    } else {
      ParseAppend(texts[1..], t);
      assert (texts + [t])[1..] == texts[1..] + [t];
      var h, rest, l := ParseLine(texts[0]), ParseLines(texts[1..]), ParseLine(t);
      if h.Some? && rest.Some? && l.Some? {
        assert [h.value] + (rest.value + [l.value]) == ([h.value] + rest.value) + [l.value];
      }
    }
  }

  lemma {:induction false} ParsePrefix(all: seq<string>, n: nat)
    requires n < |all|
    ensures ParseLines(all[..n + 1]) ==
            if ParseLines(all[..n]).Some? && ParseLine(all[n]).Some?
            then Some(ParseLines(all[..n]).value + [ParseLine(all[n]).value]) else None
  {
    hide ParseLine;
    assert all[..n + 1] == all[..n] + [all[n]];
    ParseAppend(all[..n], all[n]);
  }

  lemma {:induction false} ParseFails(all: seq<string>, n: nat)
    requires n < |all| && ParseLine(all[n]).None?
    ensures ParseLines(all).None?
  {
    hide ParseLine;
    if n > 0 {
      ParseFails(all[1..], n - 1);
    }
  }

  lemma {:induction false} AllParsedOk(all: seq<string>)
    ensures ParseLines(all).Some? ==> LinesOk(ParseLines(all).value)
  {
    hide ParseLine;
    if all != [] {
      AllParsedOk(all[1..]);
    }
  }

  lemma {:induction false} AssembleExtend(ls: seq<Line>, l: Line, n: nat)
    requires LinesOk(ls) && LineOk(l) && n <= |ls|
    ensures LinesOk(ls + [l]) && AssembleTo(ls + [l], n) == AssembleTo(ls, n)
    ensures n == |ls| ==> AssembleTo(ls + [l], n + 1) == ProcessLine(AssembleTo(ls, n), l)
  {
    hide ProcessLine;
    if n > 0 {
      AssembleExtend(ls, l, n - 1);
    }
  }

  /** The first line of a text, and the lines after it. */
  lemma {:induction false} LinesStep(text: string)
    requires text != ""
    ensures var head := Until(text, "\n");
      var line := if |head| == |text| then text else text[..|head| + 1];
      line <= text && line != "" && LinesOf(text) == [line] + LinesOf(text[|line|..])
  {
    hide Until;
    assert [text] + [] == [text];
  }

  lemma {:induction false} LinesEnd()
    ensures LinesOf("") == [] && LinesOk([]) && AssembleTo([], 0) == EMPTY
  {
  }
}
