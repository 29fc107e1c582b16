/**
  Putting a request's files in place: the deletes, the writes and the rewritten Cargo.toml all run at
  once, so they happen in any order, in a directory that earlier requests have used.
 */
module ProjectSetup {
  import opened Paths
  import opened Wrappers

  type Content = string

  /** A path from the root of the file system, one component at a time. */
  type Location = Parts

  datatype Directory = Directory(files: map<Location, Content>, dirs: set<Location>)

  datatype Op = Delete(path: Location) | Write(path: Location, content: Content)

  predicate ProperPrefix(a: Location, b: Location) {
    |a| < |b| && b[..|a|] == a
  }

  function ProperPrefixes(p: Location): set<Location> {
    set i | 0 <= i < |p| :: p[..i]
  }

  ghost predicate Sound(d: Directory) {
    && [] in d.dirs
    && (forall p :: p in d.files ==> p !in d.dirs && ProperPrefixes(p) <= d.dirs)
    && (forall p :: p in d.dirs ==> ProperPrefixes(p) <= d.dirs)
  }

  /** The path is a directory, or lies below a file. */
  predicate Blocked(d: Directory, p: Location) {
    p in d.dirs || exists i :: 0 <= i < |p| && p[..i] in d.files
  }

  /** Deleting a file that is not there is fine; writing makes the directories on the way. */
  function Perform(d: Directory, op: Op): Option<Directory> {
    if Blocked(d, op.path) then None
    else
      match op
      case Delete(p) => Some(d.(files := d.files - {p}))
      case Write(p, content) => Some(Directory(d.files[p := content], d.dirs + ProperPrefixes(p)))
  }

  /**
    An operation succeeds exactly if its path is no directory and no file is on the way to it. Then the
    file there is as written, or gone; no other changes, and no directory goes.
   */
  lemma PerformExactly(d: Directory, op: Op, p: Location)
    ensures Perform(d, op).Some? <==> op.path !in d.dirs && forall q :: ProperPrefix(q, op.path) ==> q !in d.files
    ensures Perform(d, op).Some? ==>
              var e := Perform(d, op).value;
              && (p in e.files <==> if p == op.path then op.Write? else p in d.files)
              && (p in e.files ==> e.files[p] == if p == op.path then op.content else d.files[p])
              && (p in e.dirs <==> p in d.dirs || (op.Write? && ProperPrefix(p, op.path)))
  {
    assert forall q :: ProperPrefix(q, op.path) ==> op.path[..|q|] == q;
  }

  function PerformAll(d: Directory, ops: seq<Op>): Option<Directory>
    decreases |ops|
  {
    if ops == [] then Some(d)
    else
      match Perform(d, ops[0])
      case None => None
      case Some(e) => PerformAll(e, ops[1..])
  }

  lemma PrefixesNest(p: Location)
    ensures p != [] ==> [] in ProperPrefixes(p)
    ensures forall q :: q in ProperPrefixes(p) ==> ProperPrefixes(q) <= ProperPrefixes(p)
    ensures p !in ProperPrefixes(p)
  {
    if p != [] {
      assert p[..0] == [];
    }
    forall q, x | q in ProperPrefixes(p) && x in ProperPrefixes(q) ensures x in ProperPrefixes(p) {
      var i :| 0 <= i < |q| && x == q[..i];
      assert x == p[..i];
    }
  }

  lemma PerformSound(d: Directory, op: Op)
    requires Sound(d) && Perform(d, op).Some?
    ensures Sound(Perform(d, op).value)
  {
    if op.Write? {
      PrefixesNest(op.path);
      var e := Perform(d, op).value;
      forall p | p in e.files ensures p !in e.dirs && ProperPrefixes(p) <= e.dirs {
        assert p in d.files ==> forall i :: 0 <= i < |op.path| ==> p != op.path[..i];
      }
    }
  }

  // ------------------------------------------------------------- which operations commute

  predicate StrictlyComparable(a: Location, b: Location) {
    ProperPrefix(a, b) || ProperPrefix(b, a)
  }

  /** From some directory, the order of the two matters. */
  predicate Clash(a: Op, b: Op) {
    && a.path != [] && b.path != []
    && if a.Write? && b.Write? then a.path == b.path && a.content != b.content
       else if a.Delete? && b.Delete? then StrictlyComparable(a.path, b.path)
       else a.path == b.path || StrictlyComparable(a.path, b.path)
  }

  lemma BlockedAfter(d: Directory, op: Op, q: Location)
    requires Perform(d, op).Some?
    ensures op.path != q && !StrictlyComparable(op.path, q) ==>
              (Blocked(Perform(d, op).value, q) <==> Blocked(d, q))
    ensures op.Write? && StrictlyComparable(op.path, q) ==> Blocked(Perform(d, op).value, q)
    ensures op.path == q ==> !Blocked(Perform(d, op).value, q)
  {
  }

  lemma RootIsBlocked(d: Directory)
    requires Sound(d)
    ensures Blocked(d, [])
  {
  }

  function Both(d: Directory, a: Op, b: Op): Option<Directory> {
    match Perform(d, a)
    case None => None
    case Some(e) => Perform(e, b)
  }

  lemma ApartCommute(d: Directory, a: Op, b: Op)
    requires a.path != b.path && !StrictlyComparable(a.path, b.path)
    requires Perform(d, a).Some? && Perform(d, b).Some?
    ensures Both(d, a, b).Some? && Both(d, a, b) == Both(d, b, a)
  {
    BlockedAfter(d, a, b.path);
    BlockedAfter(d, b, a.path);
    var x, y := Both(d, a, b).value, Both(d, b, a).value;
    assert x.files == y.files;
    assert x.dirs == y.dirs;
  }

  lemma PairCommutes(d: Directory, a: Op, b: Op)
    requires Sound(d) && !Clash(a, b)
    ensures Both(d, a, b) == Both(d, b, a)
  {
    RootIsBlocked(d);
    if a != b && a.path != [] && b.path != [] {
      if a.path != b.path && !StrictlyComparable(a.path, b.path) {
        if Perform(d, a).Some? && Perform(d, b).Some? {
          ApartCommute(d, a, b);
        } else if Perform(d, a).Some? {
          BlockedAfter(d, a, b.path);
        } else if Perform(d, b).Some? {
          BlockedAfter(d, b, a.path);
        }
      } else {
        if Perform(d, a).Some? {
          BlockedAfter(d, a, b.path);
        }
        if Perform(d, b).Some? {
          BlockedAfter(d, b, a.path);
        }
      }
    } else if a != b {
      if Perform(d, a).Some? {
        PerformSound(d, a);
        RootIsBlocked(Perform(d, a).value);
      }
      if Perform(d, b).Some? {
        PerformSound(d, b);
        RootIsBlocked(Perform(d, b).value);
      }
    }
  }

  /** A directory in which the order of two clashing operations shows. */
  function Witness(a: Op, b: Op): Directory {
    if a.Delete? && b.Delete? then
      var file := if ProperPrefix(a.path, b.path) then a.path else b.path;
      Directory(map[file := ""], ProperPrefixes(file))
    else Directory(map[], {[]})
  }

  lemma ClashShows(a: Op, b: Op)
    requires Clash(a, b)
    ensures Sound(Witness(a, b)) && Both(Witness(a, b), a, b) != Both(Witness(a, b), b, a)
  {
    if a.Delete? && b.Delete? {
      if ProperPrefix(a.path, b.path) {
        DeletesShow(a.path, b.path);
      } else {
        DeletesShow(b.path, a.path);
      }
    } else if a.Write? {
      WriteShows(a, b);
    } else {
      WriteShows(b, a);
    }
  }

  /** What is written last stays; what is deleted last does not, and what is in the way fails. */
  lemma WriteShows(w: Op, q: Op)
    requires Clash(w, q) && w.Write?
    ensures var d := Directory(map[], {[]});
            && Sound(d)
            && Both(d, q, w).Some? && w.path in Both(d, q, w).value.files
            && Both(d, q, w).value.files[w.path] == w.content
            && (Both(d, w, q).Some? && w.path in Both(d, w, q).value.files ==>
                  Both(d, w, q).value.files[w.path] != w.content)
  {
  }

  /** While the file is there, what is below it cannot be deleted. */
  lemma DeletesShow(file: Location, below: Location)
    requires file != [] && ProperPrefix(file, below)
    ensures var d := Directory(map[file := ""], ProperPrefixes(file));
            && Sound(d)
            && Both(d, Delete(file), Delete(below)).Some?
            && Both(d, Delete(below), Delete(file)) == None
  {
    var d := Directory(map[file := ""], ProperPrefixes(file));
    PrefixesNest(file);
    assert below[..|file|] in d.files;
    assert Perform(d, Delete(file)) == Some(Directory(map[], ProperPrefixes(file)));
  }

  /** Two operations can be swapped in every directory exactly when they do not clash. */
  lemma PairsCommuteExactly(a: Op, b: Op)
    ensures (forall d :: Sound(d) ==> Both(d, a, b) == Both(d, b, a)) <==> !Clash(a, b)
  {
    if Clash(a, b) {
      ClashShows(a, b);
    } else {
      forall d | Sound(d) ensures Both(d, a, b) == Both(d, b, a) {
        PairCommutes(d, a, b);
      }
    }
  }

  // ------------------------------------------------------------- any order

  ghost predicate NoClash(ops: multiset<Op>) {
    forall a, b :: a in ops && b in ops ==> !Clash(a, b)
  }

  lemma TwoFirst(d: Directory, a: Op, b: Op, rest: seq<Op>)
    ensures PerformAll(d, [a, b] + rest)
         == match Both(d, a, b) case None => None case Some(e) => PerformAll(e, rest)
  {
  }

  lemma SwapFirst(d: Directory, x: Op, y: Op, others: seq<Op>)
    requires Sound(d) && !Clash(x, y)
    ensures PerformAll(d, [x] + ([y] + others)) == PerformAll(d, [y] + ([x] + others))
  {
    assert [x] + ([y] + others) == [x, y] + others && [y] + ([x] + others) == [y, x] + others;
    TwoFirst(d, x, y, others);
    TwoFirst(d, y, x, others);
    PairCommutes(d, x, y);
  }

  lemma PerformFirst(d: Directory, x: Op, rest: seq<Op>)
    ensures PerformAll(d, [x] + rest) == match Perform(d, x) case None => None case Some(e) => PerformAll(e, rest)
  {
  }

  /** Any operation might as well come first. */
  lemma {:induction false} BubbleToFront(d: Directory, before: seq<Op>, y: Op, after: seq<Op>)
    requires Sound(d) && forall x :: x in before ==> !Clash(x, y)
    ensures PerformAll(d, before + [y] + after) == PerformAll(d, [y] + (before + after))
    decreases |before|
  {
    if before == [] {
      assert before + [y] + after == [y] + (before + after);
    } else {
      var x, rest := before[0], before[1..];
      assert before + [y] + after == [x] + (rest + [y] + after);
      assert before + after == [x] + (rest + after);
      PerformFirst(d, x, rest + [y] + after);
      PerformFirst(d, x, [y] + (rest + after));
      if Perform(d, x).Some? {
        PerformSound(d, x);
        BubbleToFront(Perform(d, x).value, rest, y, after);
      }
      SwapFirst(d, x, y, rest + after);
    }
  }

  lemma WithoutOne(ys: seq<Op>, j: nat)
    requires j < |ys|
    ensures multiset(ys[..j] + ys[j + 1..]) == multiset(ys) - multiset{ys[j]}
  {
    assert ys == ys[..j] + [ys[j]] + ys[j + 1..];
  }

  lemma TakeOut(d: Directory, ys: seq<Op>, x: Op) returns (others: seq<Op>)
    requires Sound(d) && NoClash(multiset(ys)) && x in ys
    ensures multiset(others) == multiset(ys) - multiset{x}
    ensures PerformAll(d, ys) == PerformAll(d, [x] + others)
  {
    var j :| 0 <= j < |ys| && ys[j] == x;
    others := ys[..j] + ys[j + 1..];
    WithoutOne(ys, j);
    assert ys == ys[..j] + [x] + ys[j + 1..];
    assert x in multiset(ys) && forall y :: y in ys[..j] ==> y in multiset(ys);
    BubbleToFront(d, ys[..j], x, ys[j + 1..]);
  }

  /** The same operations in another order succeed or fail alike, and leave the same directory. */
  lemma {:induction false} AnyOrder(d: Directory, xs: seq<Op>, ys: seq<Op>)
    requires Sound(d) && NoClash(multiset(xs)) && multiset(xs) == multiset(ys)
    ensures PerformAll(d, xs) == PerformAll(d, ys)
    decreases |xs|
  {
    assert |multiset(xs)| == |multiset(ys)|;
    if xs != [] {
      var x, rest := xs[0], xs[1..];
      assert xs == [x] + rest;
      assert x in multiset(xs);
      var others := TakeOut(d, ys, x);
      PerformFirst(d, x, rest);
      PerformFirst(d, x, others);
      if Perform(d, x).Some? {
        PerformSound(d, x);
        AnyOrder(Perform(d, x).value, rest, others);
      }
    }
  }

  function At(d: Directory, p: Location): Option<Content> {
    if p in d.files then Some(d.files[p]) else None
  }

  /** What an operation leaves at its path. */
  function EffectOf(op: Op): Option<Content> {
    if op.Write? then Some(op.content) else None
  }

  lemma PerformAt(d: Directory, op: Op, p: Location)
    requires Perform(d, op).Some?
    ensures At(Perform(d, op).value, p) == if op.path == p then EffectOf(op) else At(d, p)
  {
  }

  /** When all operations on a path do the same there, that is what is there in the end. */
  lemma {:induction false} AllAgree(d: Directory, ops: seq<Op>, p: Location, effect: Option<Content>)
    requires PerformAll(d, ops).Some?
    requires forall op :: op in ops && op.path == p ==> EffectOf(op) == effect
    requires At(d, p) == effect || exists op :: op in ops && op.path == p
    ensures At(PerformAll(d, ops).value, p) == effect
    decreases |ops|
  {
    if ops != [] {
      var op, rest := ops[0], ops[1..];
      assert ops == [op] + rest;
      PerformAt(d, op, p);
      AllAgree(Perform(d, op).value, rest, p, effect);
    }
  }

  /** Every operation on the path agrees with what is there. */
  ghost predicate Settled(d: Directory, e: Directory, ops: seq<Op>, p: Location) {
    && (forall op :: op in ops && op.path == p ==> At(e, p) == EffectOf(op))
    && ((forall op :: op in ops ==> op.path != p) ==> At(e, p) == At(d, p))
  }

  lemma SettledFirst(d: Directory, f: Directory, e: Directory, op: Op, rest: seq<Op>, p: Location)
    requires Perform(d, op) == Some(f) && Settled(f, e, rest, p)
    requires op.path == p ==> forall other :: other in rest && other.path == p ==> other == op
    ensures Settled(d, e, [op] + rest, p)
  {
  }

  lemma SamePathSameOp(a: Op, b: Op)
    requires !Clash(a, b) && a.path == b.path != []
    ensures a == b
  {
  }

  /** What each file is afterwards: written, or deleted, or as it was. */
  lemma {:induction false} Outcome(d: Directory, ops: seq<Op>, p: Location)
    requires Sound(d) && NoClash(multiset(ops)) && PerformAll(d, ops).Some?
    ensures Settled(d, PerformAll(d, ops).value, ops, p)
    decreases |ops|
  {
    if ops != [] {
      var op, rest := ops[0], ops[1..];
      assert ops == [op] + rest;
      PerformFirst(d, op, rest);
      RootIsBlocked(d);
      var f := Perform(d, op).value;
      PerformSound(d, op);
      assert op in multiset(ops) && multiset(rest) <= multiset(ops);
      Outcome(f, rest, p);
      forall other | other in rest && other.path == p && op.path == p ensures other == op {
        assert other in multiset(ops);
        SamePathSameOp(op, other);
      }
      SettledFirst(d, f, PerformAll(d, ops).value, op, rest, p);
    }
  }

  /** No two operations are on the same path or on a file and what should be its directory. */
  ghost predicate Apart(ops: multiset<Op>) {
    forall a, b :: a in ops && b in ops && a != b ==> a.path != b.path && !StrictlyComparable(a.path, b.path)
  }

  /** Then the setup succeeds exactly when nothing was in the way before it. */
  lemma {:induction false} SucceedsExactly(d: Directory, ops: seq<Op>)
    requires Sound(d) && Apart(multiset(ops))
    ensures PerformAll(d, ops).Some? <==> forall op :: op in ops ==> !Blocked(d, op.path)
    decreases |ops|
  {
    if ops != [] {
      var op, rest := ops[0], ops[1..];
      assert ops == [op] + rest;
      assert op in multiset(ops) && multiset(rest) <= multiset(ops);
      if Perform(d, op).Some? {
        var e := Perform(d, op).value;
        PerformSound(d, op);
        SucceedsExactly(e, rest);
        forall other | other in rest ensures Blocked(e, other.path) <==> Blocked(d, other.path) {
          assert other in multiset(ops);
          BlockedAfter(d, op, other.path);
        }
      }
    }
  }
}
