/** `filter_asm` as it runs: one pass to classify, a search of the label graph, one pass to print. */
module FilterAsm {
  import opened AsmListing
  import opened Wrappers

  ghost predicate Closed(g: Graph, from: set<Label>, within: set<Label>) {
    forall a, b :: a in from && (a, b) in g ==> b in within
  }

  /** A set that contains the start and every successor of its members contains all that is reachable. */
  lemma {:induction false} ClosedContainsPath(g: Graph, from: set<Label>, path: seq<Label>)
    requires Closed(g, from, from) && IsPath(path, g) && path[0] in from
    ensures path[|path| - 1] in from
  {
    if |path| > 1 {
      var front := path[..|path| - 1];
      ClosedContainsPath(g, from, front);
      assert (path[|path| - 2], path[|path| - 1]) in g;
    }
  }

  lemma ClosedContains(g: Graph, start: set<Label>, from: set<Label>, l: Label)
    requires Closed(g, from, from) && start <= from && Reachable(start, g, l)
    ensures l in from
  {
    var path: seq<Label> :| IsPath(path, g) && path[0] in start && path[|path| - 1] == l;
    ClosedContainsPath(g, from, path);
  }

  lemma ReachableStart(start: set<Label>, g: Graph, l: Label)
    requires l in start
    ensures Reachable(start, g, l)
  {
    assert IsPath([l], g);
  }

  lemma ReachableStep(start: set<Label>, g: Graph, a: Label, b: Label)
    requires Reachable(start, g, a) && (a, b) in g
    ensures Reachable(start, g, b)
  {
    var path: seq<Label> :| IsPath(path, g) && path[0] in start && path[|path| - 1] == a;
    var longer := path + [b];
    assert IsPath(longer, g) && longer[0] in start && longer[|longer| - 1] == b;
  }

  /** petgraph's depth-first search: a stack of nodes to visit and the nodes discovered so far. */
  class Dfs {
    var stack: seq<Label>
    var discovered: set<Label>

    constructor (start: Label)
      ensures stack == [start] && discovered == {}
    {
      stack, discovered := [start], {};
    }

    /** Only reachable nodes are touched, and no successor of a discovered node is forgotten. */
    ghost predicate Searching(g: Graph, start: Label)
      reads this
    {
      && (forall l :: l in stack || l in discovered ==> Reachable({start}, g, l))
      && (start in stack || start in discovered)
      && (forall a, b :: a in discovered && (a, b) in g ==> b in discovered || b in stack)
    }

    /** Puts the successors that are not discovered on top of the stack. */
    method PushSuccessors(g: Graph, node: Label)
      modifies this`stack
      ensures old(stack) <= stack
      ensures forall l :: l in stack ==> l in old(stack) || (node, l) in g
      ensures forall b :: (node, b) in g ==> b in discovered || b in stack
    {
      var successors := set e | e in g && e.0 == node :: e.1;
      while successors != {}
        invariant old(stack) <= stack
        invariant forall b :: b in successors ==> (node, b) in g
        invariant forall b :: (node, b) in g ==> b in successors || b in discovered || b in stack
        invariant forall l :: l in stack ==> l in old(stack) || (node, l) in g
        decreases |successors|
      {
        var b :| b in successors;
        successors := successors - {b};
        if b !in discovered {
          stack := stack + [b];
        }
      }
    }

    /** As `Searching`, with `top` just taken off the stack. */
    ghost predicate Popped(g: Graph, start: Label, top: Label)
      reads this
    {
      && (forall l :: l in stack || l in discovered || l == top ==> Reachable({start}, g, l))
      && (start in stack || start in discovered || start == top)
      && (forall a, b :: a in discovered && (a, b) in g ==> b in discovered || b in stack || b == top)
    }

    method Discover(g: Graph, ghost start: Label, top: Label)
      requires Popped(g, start, top)
      modifies this
      ensures Searching(g, start)
      ensures discovered == old(discovered) + {top}
    {
      discovered := discovered + {top};
      ghost var rest := stack;
      PushSuccessors(g, top);
      forall l | l in stack
        ensures Reachable({start}, g, l)
      {
        if l !in rest {
          ReachableStep({start}, g, top, l);
        }
      }
    }

    method Next(g: Graph, ghost start: Label) returns (node: Option<Label>)
      requires Searching(g, start)
      modifies this
      ensures Searching(g, start)
      ensures node.None? ==> stack == [] && discovered == old(discovered)
      ensures node.Some? ==> node.value !in old(discovered) && discovered == old(discovered) + {node.value}
    {
      while stack != []
        invariant Searching(g, start)
        invariant discovered == old(discovered)
        decreases |stack|
      {
        var top := stack[|stack| - 1];
        assert stack == stack[..|stack| - 1] + [top];
        stack := stack[..|stack| - 1];
        if top !in discovered {
          Discover(g, start, top);
          return Some(top);
        }
      }
      return None;
    }
  }

  function Nodes(g: Graph): set<Label> {
    (set e | e in g :: e.0) + (set e | e in g :: e.1)
  }

  /** Everything a fresh search from `start` visits: exactly what is reachable from it. */
  method SearchFrom(g: Graph, start: Label) returns (visited: seq<Label>)
    ensures forall l :: l in visited <==> Reachable({start}, g, l)
  {
    visited := [];
    var search := new Dfs(start);
    ghost var all := Nodes(g) + {start};
    ReachableStart({start}, g, start);
    var next := search.Next(g, start);
    ReachableAreNodes(g, start);
    while next.Some?
      invariant fresh(search)
      invariant search.Searching(g, start)
      invariant next.None? ==> search.stack == []
      invariant forall l :: l in search.discovered <==> l in visited || (next.Some? && l == next.value)
      invariant search.discovered <= all
      invariant next.Some? ==> next.value !in visited && next.value in search.discovered
      decreases |all - search.discovered|, next.Some?
    {
      visited := visited + [next.value];
      ghost var before := search.discovered;
      next := search.Next(g, start);
      if next.Some? {
        assert all - search.discovered < all - before;
      }
    }
    AllFound(g, start, search.discovered);
  }

  lemma AllFound(g: Graph, start: Label, found: set<Label>)
    requires start in found && Closed(g, found, found)
    ensures forall l :: Reachable({start}, g, l) ==> l in found
  {
    forall l | Reachable({start}, g, l)
      ensures l in found
    {
      ClosedContains(g, {start}, found, l);
    }
  }

  lemma ReachableAreNodes(g: Graph, start: Label)
    ensures forall l :: Reachable({start}, g, l) ==> l in Nodes(g) + {start}
  {
    EdgesAreBetweenNodes(g);
    AllFound(g, start, Nodes(g) + {start});
  }

  lemma OneMore(lines: seq<Line>, i: nat)
    requires i < |lines|
    ensures var part := lines[..i + 1];
            part[..|part| - 1] == lines[..i] && part[|part| - 1] == lines[i]
  {
  }

  /** The first pass: the class of each line, and what the lines say about labels. */
  method Scan(lines: seq<Line>)
    returns (lineInfo: seq<LineType>, labels: set<Label>, opcodeOperands: set<Label>, labelGraph: Graph)
    ensures lineInfo == Types(lines)
    ensures labels == Labels(lines) && opcodeOperands == Operands(lines) && labelGraph == Edges(lines)
  {
    var currentLabel: Label := "";
    lineInfo, labels, opcodeOperands, labelGraph := [], {}, {}, {};
    for i := 0 to |lines|
      invariant currentLabel == CurrentLabel(lines[..i])
      invariant lineInfo == Types(lines[..i])
      invariant labels == Labels(lines[..i]) && opcodeOperands == Operands(lines[..i])
      invariant labelGraph == Edges(lines[..i])
    {
      OneMore(lines, i);
      match lines[i]
      case OpcodeLine(_, operands) =>
        lineInfo := lineInfo + [Opcode];
        opcodeOperands := opcodeOperands + set l | l in operands;
      case LabelLine(_, declared) =>
        lineInfo := lineInfo + [LabelDecl(declared)];
        labels := labels + {declared};
        currentLabel := declared;
      case DataLine(_, refs, fallback) =>
        if currentLabel != "" {
          lineInfo := lineInfo + [Data(currentLabel)];
          labelGraph := labelGraph + set l | l in refs :: (currentLabel, l);
        } else if fallback == AsDirective {
          lineInfo := lineInfo + [Directive];
        } else {
          lineInfo := lineInfo + [Misc];
        }
      case FunctionLine(_, symbol) =>
        lineInfo := lineInfo + [FunctionDecl];
        opcodeOperands := opcodeOperands + {symbol};
      case DirectiveLine(_) => lineInfo := lineInfo + [Directive];
      case BlankLine(_) => lineInfo := lineInfo + [Blank];
      case MiscLine(_) => lineInfo := lineInfo + [Misc];
    }
    assert lines[..|lines|] == lines;
  }

  /** Labels named directly, and all that their data refers to. */
  method FindUsed(seeds: set<Label>, labelGraph: Graph) returns (usedLabels: set<Label>)
    ensures forall l :: l in usedLabels <==> Reachable(seeds, labelGraph, l)
  {
    var dataLabels: seq<Label> := [];
    var pending := seeds;
    while pending != {}
      invariant pending <= seeds
      invariant forall l :: l in dataLabels ==> Reachable(seeds, labelGraph, l)
      invariant forall s, l :: s in seeds - pending && Reachable({s}, labelGraph, l) ==> l == s || l in dataLabels
      decreases |pending|
    {
      var seed :| seed in pending;
      pending := pending - {seed};
      if seed in Nodes(labelGraph) {
        var visited := SearchFrom(labelGraph, seed);
        forall l | l in visited
          ensures Reachable(seeds, labelGraph, l)
        {
          ReachableFromMore(labelGraph, seed, seeds, l);
        }
        dataLabels := dataLabels + visited;
      } else {
        forall l | Reachable({seed}, labelGraph, l)
          ensures l == seed
        {
          ReachableOutside(labelGraph, seed, l);
        }
      }
    }
    usedLabels := seeds + set l | l in dataLabels;
    forall l
      ensures l in usedLabels <==> Reachable(seeds, labelGraph, l)
    {
      if l in seeds {
        ReachableStart(seeds, labelGraph, l);
      }
      if Reachable(seeds, labelGraph, l) {
        var s := ReachableFromOne(labelGraph, seeds, l);
      }
    }
  }

  lemma ReachableFromMore(g: Graph, start: Label, seeds: set<Label>, l: Label)
    requires start in seeds && Reachable({start}, g, l)
    ensures Reachable(seeds, g, l)
  {
  }

  lemma ReachableFromOne(g: Graph, seeds: set<Label>, l: Label) returns (s: Label)
    requires Reachable(seeds, g, l)
    ensures s in seeds && Reachable({s}, g, l)
  {
    var path: seq<Label> :| IsPath(path, g) && path[0] in seeds && path[|path| - 1] == l;
    s := path[0];
  }

  lemma EdgesAreBetweenNodes(g: Graph)
    ensures forall a, b :: (a, b) in g ==> a in Nodes(g) && b in Nodes(g)
  {
  }

  lemma ReachableOutside(g: Graph, start: Label, l: Label)
    requires start !in Nodes(g) && Reachable({start}, g, l)
    ensures l == start
  {
    EdgesAreBetweenNodes(g);
    ClosedContains(g, {start}, {start}, l);
  }

  method Filter(lines: seq<Line>) returns (filteredAsm: seq<Line>)
    ensures filteredAsm == Filtered(lines)
  {
    var lineInfo, labels, opcodeOperands, labelGraph := Scan(lines);
    var usedLabels := FindUsed(labels * opcodeOperands, labelGraph);

    filteredAsm := [];
    for i := 0 to |lines|
      invariant filteredAsm == Output(lines, lines[..i])
    {
      OneMore(lines, i);
      TypeAt(lines, i);
      match lineInfo[i] {
        case Opcode => filteredAsm := filteredAsm + [lines[i]];
        case Misc => filteredAsm := filteredAsm + [lines[i]];
        case Data(owner) =>
          if owner in usedLabels {
            filteredAsm := filteredAsm + [lines[i]];
          }
        case LabelDecl(declared) =>
          if declared in usedLabels {
            filteredAsm := filteredAsm + [INSERTED] + [lines[i]];
          }
        case _ =>
      }
    }
    assert lines[..|lines|] == lines;
  }

  lemma {:induction false} TypeAt(lines: seq<Line>, i: nat)
    requires i < |lines|
    ensures Types(lines)[i] == Classify(lines[i], CurrentLabel(lines[..i]))
  {
    if i < |lines| - 1 {
      TypeAt(lines[..|lines| - 1], i);
      assert lines[..|lines| - 1][..i] == lines[..i];
    }
  }
}
