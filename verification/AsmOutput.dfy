/** What is printed of a listing, line by line, and which labels count as used. */
module AsmOutput {
  import opened AsmListing
  import opened AsmTheorems
  import opened FilterAsm

  // ------------------------------------------------------------- the label that a line belongs to

  /** Of the lines before `i`, the one at `j` is the last that declares a label. */
  predicate Owner(lines: seq<Line>, i: int, j: int) {
    && 0 <= j < i <= |lines|
    && lines[j].LabelLine?
    && forall k :: j < k < i ==> !lines[k].LabelLine?
  }

  lemma {:induction false} OwnerIsCurrent(lines: seq<Line>, i: nat, j: nat)
    requires Owner(lines, i, j)
    ensures CurrentLabel(lines[..i]) == lines[j].declared
  {
    var part := lines[..i];
    assert part[..i - 1] == lines[..i - 1];
    if j < i - 1 {
      OwnerIsCurrent(lines, i - 1, j);
    }
  }

  lemma {:induction false} CurrentHasOwner(lines: seq<Line>, i: nat) returns (j: nat)
    requires i <= |lines| && CurrentLabel(lines[..i]) != ""
    ensures Owner(lines, i, j) && CurrentLabel(lines[..i]) == lines[j].declared
  {
    var part := lines[..i];
    assert part[..i - 1] == lines[..i - 1];
    if lines[i - 1].LabelLine? {
      j := i - 1;
    } else {
      j := CurrentHasOwner(lines, i - 1);
    }
  }

  /** A line has no label before it exactly when the current label is empty. */
  lemma NoOwnerExactly(lines: seq<Line>, i: nat)
    requires i <= |lines|
    ensures CurrentLabel(lines[..i]) == "" <==> forall j :: 0 <= j < i ==> !lines[j].LabelLine?
  {
    if CurrentLabel(lines[..i]) != "" {
      var j := CurrentHasOwner(lines, i);
    }
    if k :| 0 <= k < i && lines[k].LabelLine? {
      var j := LastLabel(lines, i, k);
      OwnerIsCurrent(lines, i, j);
    }
  }

  lemma {:induction false} LastLabel(lines: seq<Line>, i: nat, k: nat) returns (j: nat)
    requires k < i <= |lines| && lines[k].LabelLine?
    ensures Owner(lines, i, j)
  {
    if lines[i - 1].LabelLine? {
      j := i - 1;
    } else {
      j := LastLabel(lines, i - 1, k);
    }
  }

  // ------------------------------------------------------------- the lines that are printed

  /**
    The line is an opcode, or unrecognised, also as data that no label precedes; or it declares a label
    in use, or is data below one.
   */
  ghost predicate Prints(lines: seq<Line>, i: nat)
    requires i < |lines|
  {
    match lines[i]
    case OpcodeLine(_, _) => true
    case MiscLine(_) => true
    case LabelLine(_, declared) => Used(lines, declared)
    case DataLine(_, _, fallback) =>
      if forall j :: 0 <= j < i ==> !lines[j].LabelLine? then fallback.AsMisc?
      else exists j :: Owner(lines, i, j) && Used(lines, lines[j].declared)
    case _ => false
  }

  lemma DataIsKept(lines: seq<Line>, i: nat)
    requires i < |lines| && lines[i].DataLine?
    ensures Kept(lines, TypeOf(lines, i)) <==> Prints(lines, i)
  {
    NoOwnerExactly(lines, i);
    if CurrentLabel(lines[..i]) != "" {
      var owner := CurrentHasOwner(lines, i);
      forall j | Owner(lines, i, j) ensures lines[j].declared == CurrentLabel(lines[..i]) {
        OwnerIsCurrent(lines, i, j);
      }
    }
  }

  lemma OthersAreKept(lines: seq<Line>, i: nat)
    requires i < |lines| && !lines[i].DataLine?
    ensures Kept(lines, TypeOf(lines, i)) <==> Prints(lines, i)
    ensures lines[i].DirectiveLine? || lines[i].FunctionLine? || lines[i].BlankLine? ==> !Prints(lines, i)
  {
  }

  lemma KeptMeans(lines: seq<Line>, i: nat)
    requires i < |lines|
    ensures Kept(lines, TypeOf(lines, i)) <==> Prints(lines, i)
    ensures lines[i].DirectiveLine? || lines[i].FunctionLine? || lines[i].BlankLine? ==> !Prints(lines, i)
  {
    if lines[i].DataLine? {
      DataIsKept(lines, i);
    } else {
      OthersAreKept(lines, i);
    }
  }

  /** Exactly these lines are kept: no directive, function directive or blank line of the listing ever is. */
  lemma PrintedExactly(lines: seq<Line>)
    ensures NotBlank(Filtered(lines)) == Select(lines, KeptIndices(lines, |lines|))
    ensures Rising(KeptIndices(lines, |lines|))
    ensures forall i :: 0 <= i < |lines| ==> (i in KeptIndices(lines, |lines|) <==> Prints(lines, i))
    ensures forall i :: 0 <= i < |lines| && (lines[i].DirectiveLine? || lines[i].FunctionLine? || lines[i].BlankLine?)
              ==> i !in KeptIndices(lines, |lines|)
  {
    OutputIsKeptLines(lines);
    forall i | 0 <= i < |lines|
      ensures Kept(lines, TypeOf(lines, i)) <==> Prints(lines, i)
      ensures lines[i].DirectiveLine? || lines[i].FunctionLine? || lines[i].BlankLine? ==> !Prints(lines, i)
    {
      KeptMeans(lines, i);
    }
  }

  // ------------------------------------------------------------- the blank lines

  /** Every blank line is an empty one before a label, and every label has one before it. */
  ghost predicate Spaced(out: seq<Line>) {
    && (forall p :: 0 <= p < |out| && out[p].BlankLine? ==>
          out[p] == BlankLine("") && p + 1 < |out| && out[p + 1].LabelLine?)
    && (forall p :: 0 <= p < |out| && out[p].LabelLine? ==> 0 < p && out[p - 1] == BlankLine(""))
  }

  lemma SpacedOn(out: seq<Line>, line: Line, t: LineType)
    requires Spaced(out) && !line.BlankLine? && (t.LabelDecl? <==> line.LabelLine?)
    ensures Spaced(out + Printed(line, t))
  {
    var longer := out + Printed(line, t);
    assert forall p :: 0 <= p < |out| ==> longer[p] == out[p];
  }

  lemma {:induction false} OutputIsSpaced(whole: seq<Line>, part: seq<Line>)
    ensures Spaced(Output(whole, part))
  {
    if part != [] {
      var before, line := part[..|part| - 1], part[|part| - 1];
      OutputIsSpaced(whole, before);
      var t := Classify(line, CurrentLabel(before));
      if Kept(whole, t) {
        SpacedOn(Output(whole, before), line, t);
      } else {
        assert Output(whole, before) + [] == Output(whole, before);
      }
    }
  }

  /** The filter inserts one empty line before each label that it prints, and nothing else. */
  lemma BlanksExactly(lines: seq<Line>)
    ensures Spaced(Filtered(lines))
  {
    OutputIsSpaced(lines, lines);
  }

  // ------------------------------------------------------------- the labels in use

  predicate Declares(lines: seq<Line>, l: Label) {
    exists j :: 0 <= j < |lines| && lines[j].LabelLine? && lines[j].declared == l
  }

  predicate Names(line: Line, l: Label) {
    (line.OpcodeLine? && l in line.operands) || (line.FunctionLine? && line.symbol == l)
  }

  lemma {:induction false} LabelsExactly(lines: seq<Line>, l: Label)
    ensures l in Labels(lines) <==> Declares(lines, l)
  {
    if lines != [] {
      LabelsExactly(lines[..|lines| - 1], l);
    }
  }

  lemma {:induction false} OperandsExactly(lines: seq<Line>, l: Label)
    ensures l in Operands(lines) <==> exists i :: 0 <= i < |lines| && Names(lines[i], l)
  {
    if lines != [] {
      OperandsExactly(lines[..|lines| - 1], l);
    }
  }

  /** Data at `i`, below the label declared at `j`, mentions `b`. */
  predicate Mentions(lines: seq<Line>, i: int, j: int, b: Label) {
    0 <= i < |lines| && lines[i].DataLine? && b in lines[i].refs && Owner(lines, i, j)
  }

  lemma {:induction false} EdgeIsMentioned(lines: seq<Line>, n: nat, a: Label, b: Label) returns (i: nat, j: nat)
    requires n <= |lines| && (a, b) in Edges(lines[..n])
    ensures Mentions(lines, i, j, b) && lines[j].declared == a
  {
    var before := lines[..n - 1];
    assert lines[..n][..n - 1] == before;
    if (a, b) in Edges(before) {
      i, j := EdgeIsMentioned(lines, n - 1, a, b);
    } else {
      i := n - 1;
      j := CurrentHasOwner(lines, n - 1);
    }
  }

  lemma MentionIsEdge(lines: seq<Line>, i: nat, j: nat, b: Label)
    requires Mentions(lines, i, j, b)
    ensures (lines[j].declared, b) in Edges(lines)
  {
    OwnerIsCurrent(lines, i, j);
    MemberFacts(lines, i);
    assert (lines[j].declared, b) in LineEdges(lines[i], lines[j].declared);
  }

  /** Declared, and named by an opcode or a function directive. */
  predicate IsNamed(lines: seq<Line>, l: Label) {
    Declares(lines, l) && exists i :: 0 <= i < |lines| && Names(lines[i], l)
  }

  /** Data below a label in use mentions it. */
  ghost predicate IsMentioned(lines: seq<Line>, l: Label) {
    exists i, j :: Mentions(lines, i, j, l) && Used(lines, lines[j].declared)
  }

  lemma SeedsExactly(lines: seq<Line>, l: Label)
    ensures l in Seeds(lines) <==> IsNamed(lines, l)
  {
    LabelsExactly(lines, l);
    OperandsExactly(lines, l);
  }

  /** A label is in use exactly when it is declared and named, or data below a label in use mentions it. */
  lemma UsedExactly(lines: seq<Line>, l: Label)
    ensures Used(lines, l) <==> IsNamed(lines, l) || IsMentioned(lines, l)
  {
    SeedsExactly(lines, l);
    if Used(lines, l) {
      var path: seq<Label> :| IsPath(path, Edges(lines)) && path[0] in Seeds(lines) && path[|path| - 1] == l;
      if |path| > 1 {
        LastStep(lines, path);
      }
    }
    if l in Seeds(lines) {
      ReachableStart(Seeds(lines), Edges(lines), l);
    }
    if i, j :| Mentions(lines, i, j, l) && Used(lines, lines[j].declared) {
      MentionIsEdge(lines, i, j, l);
      ReachableStep(Seeds(lines), Edges(lines), lines[j].declared, l);
    }
  }

  lemma LastStep(lines: seq<Line>, path: seq<Label>)
    requires |path| > 1 && IsPath(path, Edges(lines)) && path[0] in Seeds(lines)
    ensures IsMentioned(lines, path[|path| - 1])
  {
    var n := |path| - 2;
    assert (path[n], path[n + 1]) in Edges(lines);
    assert lines[..|lines|] == lines;
    var i, j := EdgeIsMentioned(lines, |lines|, path[n], path[n + 1]);
    assert IsPath(path[..n + 1], Edges(lines));
  }

  /** And the labels in use are the fewest for which that holds. */
  lemma UsedIsLeast(lines: seq<Line>, s: set<Label>, l: Label)
    requires forall n :: IsNamed(lines, n) ==> n in s
    requires forall i, j, b :: Mentions(lines, i, j, b) && lines[j].declared in s ==> b in s
    requires Used(lines, l)
    ensures l in s
  {
    forall n | n in Seeds(lines) ensures n in s {
      SeedsExactly(lines, n);
    }
    assert lines[..|lines|] == lines;
    forall a, b | a in s && (a, b) in Edges(lines) ensures b in s {
      var i, j := EdgeIsMentioned(lines, |lines|, a, b);
    }
    ClosedContains(Edges(lines), Seeds(lines), s, l);
  }
}
