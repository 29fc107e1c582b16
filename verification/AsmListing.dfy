/**
  Assembly listings line by line, and what `filter_asm` should keep of one. A line carries the
  identifiers that the regular expressions capture from it.
 */
module AsmListing {

  type Label = string
  type LabelName = l: string | l != "" witness "l"

  /** Which class a data-like line falls into when no label precedes it. */
  datatype Fallback = AsDirective | AsMisc

  datatype Line =
    | OpcodeLine(text: string, operands: seq<Label>)
    | LabelLine(text: string, declared: LabelName)
    | DataLine(text: string, refs: seq<Label>, fallback: Fallback)
    | FunctionLine(text: string, symbol: Label)
    | DirectiveLine(text: string)
    | BlankLine(text: string)
    | MiscLine(text: string)

  datatype LineType =
    | Opcode
    | LabelDecl(declared: Label)
    | Data(owner: Label)
    | FunctionDecl
    | Directive
    | Blank
    | Misc

  const INSERTED := BlankLine("")

  /** The label that data after these lines belongs to, "" if there is none yet. */
  function CurrentLabel(lines: seq<Line>): Label {
    if lines == [] then ""
    else
      var last := lines[|lines| - 1];
      if last.LabelLine? then last.declared else CurrentLabel(lines[..|lines| - 1])
  }

  function Classify(line: Line, currentLabel: Label): LineType {
    match line
    case OpcodeLine(_, _) => Opcode
    case LabelLine(_, declared) => LabelDecl(declared)
    case DataLine(_, _, fallback) =>
      if currentLabel != "" then Data(currentLabel)
      else if fallback == AsDirective then Directive else Misc
    case FunctionLine(_, _) => FunctionDecl
    case DirectiveLine(_) => Directive
    case BlankLine(_) => Blank
    case MiscLine(_) => Misc
  }

  function Types(lines: seq<Line>): (ts: seq<LineType>)
    ensures |ts| == |lines|
  {
    if lines == [] then []
    else
      var before := lines[..|lines| - 1];
      Types(before) + [Classify(lines[|lines| - 1], CurrentLabel(before))]
  }

  function LineLabels(line: Line): set<Label> {
    if line.LabelLine? then {line.declared} else {}
  }

  function Labels(lines: seq<Line>): set<Label> {
    if lines == [] then {}
    else Labels(lines[..|lines| - 1]) + LineLabels(lines[|lines| - 1])
  }

  function LineOperands(line: Line): set<Label> {
    match line
    case OpcodeLine(_, operands) => set l | l in operands
    case FunctionLine(_, symbol) => {symbol}
    case _ => {}
  }

  function Operands(lines: seq<Line>): set<Label> {
    if lines == [] then {}
    else Operands(lines[..|lines| - 1]) + LineOperands(lines[|lines| - 1])
  }

  type Graph = set<(Label, Label)>

  function LineEdges(line: Line, currentLabel: Label): Graph {
    if line.DataLine? && currentLabel != "" then set l | l in line.refs :: (currentLabel, l) else {}
  }

  /** An edge from every label to each name that its data mentions. */
  function Edges(lines: seq<Line>): Graph {
    if lines == [] then {}
    else
      var before := lines[..|lines| - 1];
      Edges(before) + LineEdges(lines[|lines| - 1], CurrentLabel(before))
  }

  predicate IsPath(path: seq<Label>, g: Graph) {
    && path != []
    && forall i :: 0 <= i < |path| - 1 ==> (path[i], path[i + 1]) in g
  }

  /** `l` can be reached from a label in `from` by following references. */
  ghost predicate Reachable(from: set<Label>, g: Graph, l: Label) {
    exists path: seq<Label> :: IsPath(path, g) && path[0] in from && path[|path| - 1] == l
  }

  /** Declared labels that an opcode operand or a function directive names. */
  function Seeds(lines: seq<Line>): set<Label> {
    Labels(lines) * Operands(lines)
  }

  ghost predicate Used(lines: seq<Line>, l: Label) {
    Reachable(Seeds(lines), Edges(lines), l)
  }

  ghost predicate Kept(lines: seq<Line>, t: LineType) {
    match t
    case Opcode => true
    case Misc => true
    case Data(owner) => Used(lines, owner)
    case LabelDecl(declared) => Used(lines, declared)
    case _ => false
  }

  function Printed(line: Line, t: LineType): seq<Line> {
    if t.LabelDecl? then [INSERTED, line] else [line]
  }

  /** The lines of `part`, a beginning of `whole`, that the filter prints. */
  ghost function Output(whole: seq<Line>, part: seq<Line>): seq<Line> {
    if part == [] then []
    else
      var before, line := part[..|part| - 1], part[|part| - 1];
      var t := Classify(line, CurrentLabel(before));
      Output(whole, before) + (if Kept(whole, t) then Printed(line, t) else [])
  }

  /** What the filter makes of a listing. */
  ghost function Filtered(lines: seq<Line>): seq<Line> {
    Output(lines, lines)
  }

  function WithoutFunctions(lines: seq<Line>): seq<Line> {
    if lines == [] then []
    else
      WithoutFunctions(lines[..|lines| - 1])
      + (if lines[|lines| - 1].FunctionLine? then [] else [lines[|lines| - 1]])
  }
}
