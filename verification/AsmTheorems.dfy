/** What the filter guarantees about a listing, and about filtering its own output again. */
module AsmTheorems {
  import opened AsmListing
  import opened FilterAsm

  function TypeOf(lines: seq<Line>, i: nat): LineType
    requires i < |lines|
  {
    Classify(lines[i], CurrentLabel(lines[..i]))
  }

  /** The positions that the filter keeps, in order. */
  ghost function KeptIndices(lines: seq<Line>, n: nat): (ks: seq<nat>)
    requires n <= |lines|
    ensures forall j :: 0 <= j < |ks| ==> ks[j] < n
  {
    if n == 0 then []
    else KeptIndices(lines, n - 1) + (if Kept(lines, TypeOf(lines, n - 1)) then [n - 1] else [])
  }

  function NotBlank(lines: seq<Line>): seq<Line> {
    if lines == [] then []
    else
      NotBlank(lines[..|lines| - 1])
      + (if lines[|lines| - 1].BlankLine? then [] else [lines[|lines| - 1]])
  }

  lemma NotBlankSnoc(lines: seq<Line>, line: Line)
    ensures NotBlank(lines + [line]) == NotBlank(lines) + (if line.BlankLine? then [] else [line])
  {
  }

  function Select(lines: seq<Line>, ks: seq<nat>): seq<Line>
    requires forall j :: 0 <= j < |ks| ==> ks[j] < |lines|
  {
    seq(|ks|, j requires 0 <= j < |ks| => lines[ks[j]])
  }

  ghost predicate Rising(ks: seq<nat>) {
    forall j, k :: 0 <= j < k < |ks| ==> ks[j] < ks[k]
  }

  lemma {:induction false} KeptRising(lines: seq<Line>, n: nat)
    requires n <= |lines|
    ensures Rising(KeptIndices(lines, n))
  {
    if n != 0 {
      KeptRising(lines, n - 1);
      var ks := KeptIndices(lines, n - 1);
      assert forall j :: 0 <= j < |ks| ==> ks[j] < n - 1;
      assert Rising(ks + [n - 1]);
      assert Rising(ks + []);
    }
  }

  lemma {:induction false} KeptExactly(lines: seq<Line>, n: nat, i: nat)
    requires i < n <= |lines|
    ensures i in KeptIndices(lines, n) <==> Kept(lines, TypeOf(lines, i))
  {
    var ks := KeptIndices(lines, n - 1);
    assert i == n - 1 ==> i !in ks;
    if i < n - 1 {
      KeptExactly(lines, n - 1, i);
    }
  }

  lemma SelectSnoc(lines: seq<Line>, ks: seq<nat>, k: nat)
    requires k < |lines| && forall j :: 0 <= j < |ks| ==> ks[j] < |lines|
    ensures Select(lines, ks + [k]) == Select(lines, ks) + [lines[k]]
  {
  }

  lemma NotBlankPrinted(out: seq<Line>, line: Line, t: LineType)
    requires !line.BlankLine?
    ensures NotBlank(out + Printed(line, t)) == NotBlank(out) + [line]
  {
    NotBlankSnoc(out, line);
    NotBlankSnoc(out, INSERTED);
    NotBlankSnoc(out + [INSERTED], line);
    assert out + [INSERTED] + [line] == out + [INSERTED, line];
  }

  lemma OutputSelectsOneMore(lines: seq<Line>, k: nat)
    requires k < |lines| && NotBlank(Output(lines, lines[..k])) == Select(lines, KeptIndices(lines, k))
    ensures NotBlank(Output(lines, lines[..k + 1])) == Select(lines, KeptIndices(lines, k + 1))
  {
    var line, t, out, ks := lines[k], TypeOf(lines, k), Output(lines, lines[..k]), KeptIndices(lines, k);
    OutputSnoc(lines, lines[..k], line);
    assert lines[..k + 1] == lines[..k] + [line];
    if Kept(lines, t) {
      NotBlankPrinted(out, line, t);
      SelectSnoc(lines, ks, k);
    } else {
      assert out + [] == out && ks + [] == ks;
    }
  }

  lemma {:induction false} OutputSelects(lines: seq<Line>, n: nat)
    requires n <= |lines|
    ensures NotBlank(Output(lines, lines[..n])) == Select(lines, KeptIndices(lines, n))
  {
    if n != 0 {
      OutputSelects(lines, n - 1);
      OutputSelectsOneMore(lines, n - 1);
    }
  }

  /**
    Apart from the blank lines it inserts, the output is the input's kept lines in their order:
    opcodes, unrecognised lines, and the declarations and data of labels in use.
   */
  lemma OutputIsKeptLines(lines: seq<Line>)
    ensures var ks := KeptIndices(lines, |lines|);
            && Rising(ks)
            && (forall i :: 0 <= i < |lines| ==> (i in ks <==> Kept(lines, TypeOf(lines, i))))
            && NotBlank(Filtered(lines)) == Select(lines, ks)
  {
    KeptRising(lines, |lines|);
    forall i | 0 <= i < |lines|
      ensures i in KeptIndices(lines, |lines|) <==> Kept(lines, TypeOf(lines, i))
    {
      KeptExactly(lines, |lines|, i);
    }
    OutputSelects(lines, |lines|);
    assert lines[..|lines|] == lines;
  }

  lemma {:induction false} MemberFacts(lines: seq<Line>, i: nat)
    requires i < |lines|
    ensures LineOperands(lines[i]) <= Operands(lines)
    ensures LineLabels(lines[i]) <= Labels(lines)
    ensures LineEdges(lines[i], CurrentLabel(lines[..i])) <= Edges(lines)
  {
    if i < |lines| - 1 {
      MemberFacts(lines[..|lines| - 1], i);
      assert lines[..|lines| - 1][..i] == lines[..i];
    }
  }

  /** A declared label that a kept opcode or data line mentions keeps its declaration. */
  lemma ReferencedLabelsStay(lines: seq<Line>, i: nat, j: nat, l: Label)
    requires i < |lines| && j < |lines|
    requires Kept(lines, TypeOf(lines, i))
    requires lines[i].OpcodeLine? || TypeOf(lines, i).Data?
    requires l in if lines[i].OpcodeLine? then lines[i].operands else lines[i].refs
    requires lines[j].LabelLine? && lines[j].declared == l
    ensures Kept(lines, TypeOf(lines, j))
  {
    MemberFacts(lines, i);
    MemberFacts(lines, j);
    if lines[i].OpcodeLine? {
      assert l in LineOperands(lines[i]) && l in LineLabels(lines[j]);
      ReachableStart(Seeds(lines), Edges(lines), l);
    } else {
      var owner := CurrentLabel(lines[..i]);
      assert (owner, l) in LineEdges(lines[i], owner);
      ReachableStep(Seeds(lines), Edges(lines), owner, l);
    }
  }

  lemma Snoc(lines: seq<Line>, line: Line)
    ensures Labels(lines + [line]) == Labels(lines) + LineLabels(line)
    ensures Operands(lines + [line]) == Operands(lines) + LineOperands(line)
    ensures Edges(lines + [line]) == Edges(lines) + LineEdges(line, CurrentLabel(lines))
    ensures CurrentLabel(lines + [line]) == if line.LabelLine? then line.declared else CurrentLabel(lines)
  {
  }

  lemma OutputSnoc(whole: seq<Line>, lines: seq<Line>, line: Line)
    ensures var t := Classify(line, CurrentLabel(lines));
            Output(whole, lines + [line])
            == Output(whole, lines) + (if Kept(whole, t) then Printed(line, t) else [])
  {
  }

  /** Dropping function directives loses only the names they mention. */
  lemma {:induction false} WithoutFunctionsFacts(lines: seq<Line>)
    ensures var w := WithoutFunctions(lines);
            && Labels(w) == Labels(lines)
            && Operands(w) <= Operands(lines)
            && Edges(w) == Edges(lines)
            && CurrentLabel(w) == CurrentLabel(lines)
  {
    if lines != [] {
      var before, line := lines[..|lines| - 1], lines[|lines| - 1];
      WithoutFunctionsFacts(before);
      assert lines == before + [line];
      Snoc(before, line);
      Snoc(WithoutFunctions(before), line);
      assert WithoutFunctions(before) + [] == WithoutFunctions(before);
    }
  }

  /** Kept data keeps its owner: the label in force in the output is the one in the input. */
  ghost predicate SameOwner(lines: seq<Line>, part: seq<Line>) {
    var current, current' := CurrentLabel(part), CurrentLabel(Output(lines, part));
    && (current == "" ==> current' == "")
    && (Used(lines, current) ==> current' == current)
  }

  ghost predicate RestrictedLabels(lines: seq<Line>, part: seq<Line>) {
    Labels(Output(lines, part)) == set l | l in Labels(part) && Used(lines, l)
  }

  ghost predicate RestrictedEdges(lines: seq<Line>, part: seq<Line>) {
    Edges(Output(lines, part)) == Restricted(lines, Edges(part))
  }

  ghost predicate SameOperands(lines: seq<Line>, part: seq<Line>) {
    Operands(Output(lines, part)) == Operands(WithoutFunctions(part))
  }

  lemma PrintedFacts(out: seq<Line>, line: Line, t: LineType)
    ensures var out' := out + Printed(line, t);
            && Labels(out') == Labels(out) + LineLabels(line)
            && Operands(out') == Operands(out) + LineOperands(line)
            && Edges(out') == Edges(out) + LineEdges(line, CurrentLabel(out))
            && CurrentLabel(out') == (if line.LabelLine? then line.declared else CurrentLabel(out))
  {
    Snoc(out, line);
    Snoc(out, INSERTED);
    Snoc(out + [INSERTED], line);
    assert out + [INSERTED] + [line] == out + [INSERTED, line];
  }

  lemma WithoutFunctionsSnoc(before: seq<Line>, line: Line)
    ensures Operands(WithoutFunctions(before + [line]))
         == Operands(WithoutFunctions(before)) + (if line.FunctionLine? then {} else LineOperands(line))
  {
    assert (before + [line])[..|before|] == before;
    Snoc(WithoutFunctions(before), line);
    assert WithoutFunctions(before) + [] == WithoutFunctions(before);
  }

  /** What one more line adds to the output. */
  lemma OneMoreFacts(lines: seq<Line>, before: seq<Line>, line: Line)
    ensures var out, out' := Output(lines, before), Output(lines, before + [line]);
            if Kept(lines, Classify(line, CurrentLabel(before))) then
              && Labels(out') == Labels(out) + LineLabels(line)
              && Operands(out') == Operands(out) + LineOperands(line)
              && Edges(out') == Edges(out) + LineEdges(line, CurrentLabel(out))
              && CurrentLabel(out') == (if line.LabelLine? then line.declared else CurrentLabel(out))
            else out' == out
  {
    OutputSnoc(lines, before, line);
    PrintedFacts(Output(lines, before), line, Classify(line, CurrentLabel(before)));
  }

  lemma SameOwnerStep(lines: seq<Line>, before: seq<Line>, line: Line)
    requires SameOwner(lines, before)
    ensures SameOwner(lines, before + [line])
  {
    Snoc(before, line);
    OneMoreFacts(lines, before, line);
  }

  lemma RestrictedLabelsStep(lines: seq<Line>, before: seq<Line>, line: Line)
    requires RestrictedLabels(lines, before)
    ensures RestrictedLabels(lines, before + [line])
  {
    Snoc(before, line);
    OneMoreFacts(lines, before, line);
  }

  ghost function Restricted(lines: seq<Line>, g: Graph): Graph {
    set e | e in g && Used(lines, e.0)
  }

  lemma RestrictedUnion(lines: seq<Line>, a: Graph, b: Graph)
    ensures Restricted(lines, a + b) == Restricted(lines, a) + Restricted(lines, b)
  {
  }

  lemma RestrictedLine(lines: seq<Line>, line: Line, current: Label)
    ensures Restricted(lines, LineEdges(line, current)) == if Used(lines, current) then LineEdges(line, current) else {}
  {
  }

  lemma RestrictedEdgesStep(lines: seq<Line>, before: seq<Line>, line: Line)
    requires SameOwner(lines, before) && RestrictedEdges(lines, before)
    ensures RestrictedEdges(lines, before + [line])
  {
    Snoc(before, line);
    OneMoreFacts(lines, before, line);
    var current := CurrentLabel(before);
    RestrictedUnion(lines, Edges(before), LineEdges(line, current));
    RestrictedLine(lines, line, current);
  }

  lemma KeptOperands(lines: seq<Line>, line: Line, current: Label)
    ensures (if Kept(lines, Classify(line, current)) then LineOperands(line) else {})
         == (if line.FunctionLine? then {} else LineOperands(line))
  {
  }

  lemma SameOperandsStep(lines: seq<Line>, before: seq<Line>, line: Line)
    requires SameOperands(lines, before)
    ensures SameOperands(lines, before + [line])
  {
    OneMoreFacts(lines, before, line);
    KeptOperands(lines, line, CurrentLabel(before));
    WithoutFunctionsSnoc(before, line);
  }

  /** Labels, operands and edges of the output, in terms of those of the input. */
  lemma {:induction false} RestrictedOutput(lines: seq<Line>, part: seq<Line>)
    ensures SameOwner(lines, part) && SameOperands(lines, part)
    ensures RestrictedLabels(lines, part) && RestrictedEdges(lines, part)
  {
    if part != [] {
      var before, line := part[..|part| - 1], part[|part| - 1];
      RestrictedOutput(lines, before);
      assert part == before + [line];
      SameOwnerStep(lines, before, line);
      SameOperandsStep(lines, before, line);
      RestrictedLabelsStep(lines, before, line);
      RestrictedEdgesStep(lines, before, line);
    }
  }

  lemma {:induction false} PathStaysUsed(lines: seq<Line>, path: seq<Label>)
    requires IsPath(path, Edges(lines)) && path[0] in Seeds(lines)
    ensures forall i :: 0 <= i < |path| ==> Used(lines, path[i])
  {
    forall i | 0 <= i < |path|
      ensures Used(lines, path[i])
    {
      assert IsPath(path[..i + 1], Edges(lines));
    }
  }

  /** The output uses exactly the labels that the listing without its directives uses. */
  lemma SameUse(lines: seq<Line>, l: Label)
    ensures Used(Filtered(lines), l) <==> Used(WithoutFunctions(lines), l)
    ensures Used(Filtered(lines), l) ==> Used(lines, l)
  {
    var f, w := Filtered(lines), WithoutFunctions(lines);
    RestrictedOutput(lines, lines);
    WithoutFunctionsFacts(lines);
    forall s | s in Seeds(lines)
      ensures Used(lines, s)
    {
      ReachableStart(Seeds(lines), Edges(lines), s);
    }
    assert Seeds(f) == Seeds(w);
    assert Edges(f) <= Edges(lines) && Edges(w) == Edges(lines);
    if Used(f, l) {
      var path: seq<Label> :| IsPath(path, Edges(f)) && path[0] in Seeds(f) && path[|path| - 1] == l;
      assert IsPath(path, Edges(w));
      PathStaysUsed(lines, path);
    }
    if Used(w, l) {
      var path: seq<Label> :| IsPath(path, Edges(w)) && path[0] in Seeds(w) && path[|path| - 1] == l;
      PathStaysUsed(lines, path);
      assert IsPath(path, Edges(f));
    }
  }

  function TypeLabel(t: LineType): Label {
    if t.Data? then t.owner else if t.LabelDecl? then t.declared else ""
  }

  /** The second pass sees a kept line as what it was, and keeps it on the same grounds. */
  lemma SecondPassType(lines: seq<Line>, before: seq<Line>, line: Line)
    ensures var t, t' := Classify(line, CurrentLabel(before)), Classify(line, CurrentLabel(Output(lines, before)));
            && (Kept(lines, t) ==> t' == t)
            && (Kept(Filtered(lines), t) <==> Kept(WithoutFunctions(lines), t))
            && (Kept(Filtered(lines), t) ==> Kept(lines, t))
  {
    SameUse(lines, TypeLabel(Classify(line, CurrentLabel(before))));
    RestrictedOutput(lines, before);
  }

  /** What the filter of `whole` prints of a line of class `t`. */
  ghost function Piece(whole: seq<Line>, line: Line, t: LineType): seq<Line> {
    if Kept(whole, t) then Printed(line, t) else []
  }

  lemma OutputPiece(whole: seq<Line>, lines: seq<Line>, line: Line)
    ensures Output(whole, lines + [line])
         == Output(whole, lines) + Piece(whole, line, Classify(line, CurrentLabel(lines)))
  {
    OutputSnoc(whole, lines, line);
  }

  lemma PiecesAgree(lines: seq<Line>, line: Line, t: LineType)
    requires Kept(Filtered(lines), t) <==> Kept(WithoutFunctions(lines), t)
    ensures Piece(Filtered(lines), line, t) == Piece(WithoutFunctions(lines), line, t)
  {
  }

  lemma FilteredLine(f: seq<Line>, lines: seq<Line>, before: seq<Line>, line: Line, t: LineType)
    requires t == Classify(line, CurrentLabel(before))
    requires Kept(lines, t) ==> t == Classify(line, CurrentLabel(Output(lines, before)))
    requires Kept(f, t) ==> Kept(lines, t)
    ensures Output(f, Output(lines, before + [line])) == Output(f, Output(lines, before)) + Piece(f, line, t)
  {
    var out := Output(lines, before);
    OutputSnoc(lines, before, line);
    if Kept(lines, t) {
      SecondPassPrinted(f, out, line, t);
    } else {
      assert out + [] == out && Output(f, out) + [] == Output(f, out);
    }
  }

  lemma StrippedLine(w: seq<Line>, before: seq<Line>, line: Line, t: LineType)
    requires t == Classify(line, CurrentLabel(before))
    ensures Output(w, WithoutFunctions(before + [line])) == Output(w, WithoutFunctions(before)) + Piece(w, line, t)
  {
    var wBefore := WithoutFunctions(before);
    WithoutFunctionsFacts(before);
    assert (before + [line])[..|before|] == before;
    if line.FunctionLine? {
      assert wBefore + [] == wBefore && Output(w, wBefore) + [] == Output(w, wBefore);
    } else {
      OutputSnoc(w, wBefore, line);
    }
  }

  lemma InsertedIsDropped(f: seq<Line>, out: seq<Line>)
    ensures Output(f, out + [INSERTED]) == Output(f, out) && CurrentLabel(out + [INSERTED]) == CurrentLabel(out)
  {
  }

  lemma SecondPassPrinted(f: seq<Line>, out: seq<Line>, line: Line, t: LineType)
    requires t.LabelDecl? <==> line.LabelLine?
    ensures Output(f, out + Printed(line, t)) == Output(f, out) + Piece(f, line, Classify(line, CurrentLabel(out)))
  {
    if t.LabelDecl? {
      var longer := out + [INSERTED];
      InsertedIsDropped(f, out);
      OutputPiece(f, longer, line);
      assert out + Printed(line, t) == longer + [line];
    } else {
      OutputPiece(f, out, line);
    }
  }

  lemma {:induction false} SecondPass(lines: seq<Line>, part: seq<Line>)
    ensures Output(Filtered(lines), Output(lines, part))
         == Output(WithoutFunctions(lines), WithoutFunctions(part))
  {
    if part != [] {
      var before, line := part[..|part| - 1], part[|part| - 1];
      SecondPass(lines, before);
      assert part == before + [line];
      var t := Classify(line, CurrentLabel(before));
      SecondPassType(lines, before, line);
      PiecesAgree(lines, line, t);
      FilteredLine(Filtered(lines), lines, before, line, t);
      StrippedLine(WithoutFunctions(lines), before, line, t);
    }
  }

  /** Filtering twice is filtering once the listing without its function directives. */
  lemma FilterTwice(lines: seq<Line>)
    ensures Filtered(Filtered(lines)) == Filtered(WithoutFunctions(lines))
  {
    SecondPass(lines, lines);
  }

  lemma {:induction false} NoFunctionsToDrop(lines: seq<Line>)
    requires forall i :: 0 <= i < |lines| ==> !lines[i].FunctionLine?
    ensures WithoutFunctions(lines) == lines
  {
    if lines != [] {
      NoFunctionsToDrop(lines[..|lines| - 1]);
    }
  }

  /** On a listing without function directives the filter is idempotent. */
  lemma FilterIdempotent(lines: seq<Line>)
    requires forall i :: 0 <= i < |lines| ==> !lines[i].FunctionLine?
    ensures Filtered(Filtered(lines)) == Filtered(lines)
  {
    FilterTwice(lines);
    NoFunctionsToDrop(lines);
  }

  // ------------------------------------------------------------- exactly when filtering again changes nothing

  /** No declared label is in use only because a function directive names it. */
  ghost predicate UsedAnyway(lines: seq<Line>) {
    forall l :: l in Labels(lines) && Used(lines, l) ==> Used(WithoutFunctions(lines), l)
  }

  /** What the directives keep is used with them, and declared in the output only then. */
  lemma OutputLabels(lines: seq<Line>, l: Label)
    ensures l in Labels(Filtered(lines)) <==> l in Labels(lines) && Used(lines, l)
  {
    RestrictedOutput(lines, lines);
  }

  lemma CurrentIsLabel(lines: seq<Line>)
    ensures CurrentLabel(lines) == "" || CurrentLabel(lines) in Labels(lines)
  {
  }

  lemma {:induction false} LabelsGrow(lines: seq<Line>, n: nat)
    requires n <= |lines|
    ensures Labels(lines[..n]) <= Labels(lines)
  {
    if n < |lines| {
      LabelsGrow(lines[..|lines| - 1], n);
      assert lines[..|lines| - 1][..n] == lines[..n];
    } else {
      assert lines[..n] == lines;
    }
  }

  lemma OwnLabel(line: Line, l: LabelName)
    requires line.LabelLine? && line.declared == l
    ensures l in LineLabels(line)
  {
  }

  lemma TypeLabelIsDeclared(lines: seq<Line>, n: nat)
    requires n < |lines|
    ensures var t := Classify(lines[n], CurrentLabel(lines[..n]));
            t.Data? || t.LabelDecl? ==> TypeLabel(t) in Labels(lines)
  {
    LabelsGrow(lines, n);
    CurrentIsLabel(lines[..n]);
    MemberFacts(lines, n);
    if lines[n].LabelLine? {
      OwnLabel(lines[n], lines[n].declared);
    }
  }

  lemma SameGrounds(lines: seq<Line>, w: seq<Line>, line: Line, t: LineType)
    requires t.Data? || t.LabelDecl? ==> (Used(lines, TypeLabel(t)) <==> Used(w, TypeLabel(t)))
    ensures Piece(lines, line, t) == Piece(w, line, t)
  {
  }

  /** The line at `n` is kept on the same grounds with and without the directives. */
  lemma SamePiece(lines: seq<Line>, n: nat)
    requires UsedAnyway(lines) && n < |lines|
    ensures var t := Classify(lines[n], CurrentLabel(lines[..n]));
            Piece(lines, lines[n], t) == Piece(WithoutFunctions(lines), lines[n], t)
  {
    var t := Classify(lines[n], CurrentLabel(lines[..n]));
    TypeLabelIsDeclared(lines, n);
    SameUse(lines, TypeLabel(t));
    SameGrounds(lines, WithoutFunctions(lines), lines[n], t);
  }

  lemma {:induction false} SameOutput(lines: seq<Line>, n: nat)
    requires UsedAnyway(lines) && n <= |lines|
    ensures Output(lines, lines[..n]) == Output(WithoutFunctions(lines), WithoutFunctions(lines[..n]))
  {
    if n > 0 {
      var w, before, line := WithoutFunctions(lines), lines[..n - 1], lines[n - 1];
      SameOutput(lines, n - 1);
      SamePiece(lines, n - 1);
      assert lines[..n] == before + [line];
      OutputPiece(lines, before, line);
      StrippedLine(w, before, line, Classify(line, CurrentLabel(before)));
    }
  }

  /** Filtering a second time changes nothing exactly when no label lives on function directives alone. */
  lemma FilterIdempotentExactly(lines: seq<Line>)
    ensures Filtered(Filtered(lines)) == Filtered(lines) <==> UsedAnyway(lines)
  {
    var w := WithoutFunctions(lines);
    FilterTwice(lines);
    WithoutFunctionsFacts(lines);
    if UsedAnyway(lines) {
      SameOutput(lines, |lines|);
      assert lines[..|lines|] == lines;
    }
    forall l | l in Labels(lines) && Used(lines, l) && Filtered(w) == Filtered(lines) ensures Used(w, l) {
      OutputLabels(lines, l);
      OutputLabels(w, l);
    }
  }

  lemma WithoutFunctionsOne(directive: Line, main: Line)
    requires directive.FunctionLine? && main.LabelLine?
    ensures WithoutFunctions([directive, main]) == [main] && Seeds([main]) == {}
  {
    StrippedSnoc([], directive);
    StrippedSnoc([directive], main);
    Snoc([], main);
    assert [] + [directive] == [directive] && [directive] + [main] == [directive, main] && [] + [main] == [main];
  }

  lemma StrippedSnoc(before: seq<Line>, line: Line)
    ensures WithoutFunctions(before + [line]) == WithoutFunctions(before) + if line.FunctionLine? then [] else [line]
  {
    assert (before + [line])[..|before|] == before;
  }

  lemma NamedIsSeed(directive: Line, main: Line)
    requires directive.FunctionLine? && main.LabelLine? && directive.symbol == main.declared
    ensures main.declared in Labels([directive, main]) && main.declared in Seeds([directive, main])
  {
    var lines := [directive, main];
    MemberFacts(lines, 0);
    MemberFacts(lines, 1);
    OwnLabel(main, main.declared);
    assert directive.symbol in LineOperands(lines[0]);
  }

  /** A function that only its own `.type` directive mentions is lost the second time. */
  lemma LonelyFunctionIsLost(directive: Line, main: Line)
    requires directive.FunctionLine? && main.LabelLine? && directive.symbol == main.declared
    ensures Filtered(Filtered([directive, main])) != Filtered([directive, main])
  {
    var lines, l := [directive, main], main.declared;
    NamedIsSeed(directive, main);
    WithoutFunctionsOne(directive, main);
    ReachableStart(Seeds(lines), Edges(lines), l);
    assert Used(lines, l) && !Used([main], l);
    FilterIdempotentExactly(lines);
  }
}
