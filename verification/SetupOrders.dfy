/** When the order of a set of file operations matters: exactly. */
module SetupOrders {
  import opened ProjectSetup
  import opened Wrappers

  /** No delete is of a file that another delete needs as a directory. */
  ghost predicate DeletesApart(ops: multiset<Op>) {
    forall a, b :: a in ops && b in ops && a.Delete? && b.Delete? ==> !StrictlyComparable(a.path, b.path)
  }

  /** The operations can never all succeed: one is on the root, or one file is to hold another. */
  ghost predicate Doomed(ops: multiset<Op>) {
    || (exists a :: a in ops && a.path == [])
    || (exists a, b :: a in ops && b in ops && a.Write? && b.Write? && ProperPrefix(a.path, b.path)
          && Delete(a.path) !in ops)
  }

  /** From every directory, every order of the operations fails alike or leaves the same directory. */
  ghost predicate Confluent(ops: multiset<Op>) {
    forall d, xs, ys :: Sound(d) && multiset(xs) == ops && multiset(ys) == ops ==>
      PerformAll(d, xs) == PerformAll(d, ys)
  }

  /** The directory and the orders show that the order matters. */
  ghost predicate OrdersDiffer(ops: multiset<Op>, d: Directory, xs: seq<Op>, ys: seq<Op>) {
    && Sound(d)
    && multiset(xs) == ops && multiset(ys) == ops
    && PerformAll(d, xs) != PerformAll(d, ys)
  }

  const EMPTY := Directory(map[], {[]})

  /** Nothing is in the way of any of the operations. */
  ghost predicate Open(d: Directory, ops: multiset<Op>) {
    Sound(d) && forall op :: op in ops ==> !Blocked(d, op.path)
  }

  lemma EmptyIsOpen(ops: multiset<Op>)
    requires forall op :: op in ops ==> op.path != []
    ensures Open(EMPTY, ops)
  {
  }

  // ------------------------------------------------------------- doomed operations

  lemma {:induction false} RootFails(d: Directory, xs: seq<Op>, op: Op)
    requires Sound(d) && op in xs && op.path == []
    ensures PerformAll(d, xs) == None
    decreases |xs|
  {
    RootIsBlocked(d);
    if xs[0].path != [] && Perform(d, xs[0]).Some? {
      assert xs == [xs[0]] + xs[1..];
      PerformSound(d, xs[0]);
      RootFails(Perform(d, xs[0]).value, xs[1..], op);
    }
  }

  /** Directories stay, so that a file operation on one fails whenever it comes. */
  lemma {:induction false} DirectoryStays(d: Directory, xs: seq<Op>, op: Op)
    requires op in xs && op.path in d.dirs
    ensures PerformAll(d, xs) == None
    decreases |xs|
  {
    if xs[0] != op && Perform(d, xs[0]).Some? {
      assert xs == [xs[0]] + xs[1..];
      DirectoryStays(Perform(d, xs[0]).value, xs[1..], op);
    }
  }

  /** A file that nobody deletes stays in the way of what is to lie below it. */
  lemma {:induction false} FileStays(d: Directory, xs: seq<Op>, p: Location, op: Op)
    requires op in xs && p in d.files && ProperPrefix(p, op.path) && Delete(p) !in xs
    ensures PerformAll(d, xs) == None
    decreases |xs|
  {
    assert op.path[..|p|] == p;
    if xs[0] != op && Perform(d, xs[0]).Some? {
      assert xs == [xs[0]] + xs[1..];
      FileStays(Perform(d, xs[0]).value, xs[1..], p, op);
    }
  }

  lemma WriteMakesDirectories(d: Directory, op: Op, p: Location)
    requires op.Write? && Perform(d, op).Some? && ProperPrefix(p, op.path)
    ensures p in Perform(d, op).value.dirs
  {
    assert op.path[..|p|] == p;
  }

  lemma {:induction false} HoldingFails(d: Directory, xs: seq<Op>, a: Op, b: Op)
    requires a in xs && b in xs && a.Write? && b.Write? && ProperPrefix(a.path, b.path) && Delete(a.path) !in xs
    ensures PerformAll(d, xs) == None
    decreases |xs|
  {
    if Perform(d, xs[0]).Some? {
      var e, rest := Perform(d, xs[0]).value, xs[1..];
      assert xs == [xs[0]] + rest;
      if xs[0] == a {
        FileStays(e, rest, a.path, b);
      } else if xs[0] == b {
        WriteMakesDirectories(d, b, a.path);
        DirectoryStays(e, rest, a);
      } else {
        HoldingFails(e, rest, a, b);
      }
    }
  }

  /** Doomed operations fail in every order, from every directory. */
  lemma DoomedFails(d: Directory, xs: seq<Op>)
    requires Sound(d) && Doomed(multiset(xs))
    ensures PerformAll(d, xs) == None
  {
    if a :| a in multiset(xs) && a.path == [] {
      RootFails(d, xs, a);
    } else {
      var a, b :| a in multiset(xs) && b in multiset(xs) && a.Write? && b.Write? && ProperPrefix(a.path, b.path)
        && Delete(a.path) !in multiset(xs);
      HoldingFails(d, xs, a, b);
    }
  }

  // ------------------------------------------------------------- an order that succeeds

  lemma {:induction false} PerformBoth(d: Directory, xs: seq<Op>, ys: seq<Op>)
    ensures PerformAll(d, xs + ys)
         == match PerformAll(d, xs) case None => None case Some(e) => PerformAll(e, ys)
    decreases |xs|
  {
    if xs == [] {
      assert xs + ys == ys;
    } else {
      assert (xs + ys)[1..] == xs[1..] + ys;
      if Perform(d, xs[0]).Some? {
        PerformBoth(Perform(d, xs[0]).value, xs[1..], ys);
      }
    }
  }

  ghost predicate AllDeletes(xs: seq<Op>) {
    forall op :: op in xs ==> op.Delete?
  }

  ghost predicate AllWrites(xs: seq<Op>) {
    forall op :: op in xs ==> op.Write?
  }

  ghost predicate Free(d: Directory, xs: seq<Op>) {
    forall op :: op in xs ==> !Blocked(d, op.path)
  }

  /** Deletes that nothing blocks succeed, and take just their own files away. */
  lemma {:induction false} DeletesSucceed(d: Directory, xs: seq<Op>)
    requires AllDeletes(xs) && Free(d, xs)
    ensures PerformAll(d, xs).Some?
    ensures var e := PerformAll(d, xs).value;
            && e.dirs == d.dirs
            && forall p :: p in e.files <==> p in d.files && Delete(p) !in xs
    decreases |xs|
  {
    if xs != [] {
      assert xs == [xs[0]] + xs[1..];
      DeletesSucceed(Perform(d, xs[0]).value, xs[1..]);
    }
  }

  ghost predicate NoneHolds(xs: seq<Op>) {
    forall a, b :: a in xs && b in xs ==> !StrictlyComparable(a.path, b.path)
  }

  /** Writes that nothing blocks and none of which holds another succeed, and add just their own files. */
  lemma {:induction false} WritesSucceed(d: Directory, xs: seq<Op>)
    requires AllWrites(xs) && Free(d, xs) && NoneHolds(xs)
    ensures PerformAll(d, xs).Some?
    ensures var e := PerformAll(d, xs).value;
            && (forall p :: p in e.files ==> p in d.files || exists op :: op in xs && op.path == p)
            && (forall p :: p in e.dirs ==> p in d.dirs || exists op :: op in xs && ProperPrefix(p, op.path))
    decreases |xs|
  {
    if xs != [] {
      var op, rest := xs[0], xs[1..];
      assert xs == [op] + rest;
      assert op in xs;
      var e := Perform(d, op).value;
      forall other | other in rest ensures !Blocked(e, other.path) {
        assert other in xs;
        BlockedAfter(d, op, other.path);
      }
      WritesSucceed(e, rest);
    }
  }

  function Pick(xs: seq<Op>, test: Op -> bool): seq<Op> {
    if xs == [] then [] else (if test(xs[0]) then [xs[0]] else []) + Pick(xs[1..], test)
  }

  lemma {:induction false} PickExactly(xs: seq<Op>, test: Op -> bool, op: Op)
    ensures op in Pick(xs, test) <==> op in xs && test(op)
  {
    if xs != [] {
      assert xs == [xs[0]] + xs[1..];
      PickExactly(xs[1..], test, op);
    }
  }

  lemma PickFirst(xs: seq<Op>, test: Op -> bool)
    requires xs != []
    ensures multiset(Pick(xs, test)) == (if test(xs[0]) then multiset{xs[0]} else multiset{})
                                        + multiset(Pick(xs[1..], test))
  {
  }

  lemma {:induction false} PickSplits(xs: seq<Op>, test: Op -> bool, others: Op -> bool)
    requires forall op :: op in xs ==> others(op) == !test(op)
    ensures multiset(Pick(xs, test)) + multiset(Pick(xs, others)) == multiset(xs)
  {
    if xs != [] {
      assert xs == [xs[0]] + xs[1..];
      PickSplits(xs[1..], test, others);
      PickFirst(xs, test);
      PickFirst(xs, others);
    }
  }

  lemma {:induction false} Listing(ops: multiset<Op>) returns (xs: seq<Op>)
    ensures multiset(xs) == ops
    decreases |ops|
  {
    if |ops| == 0 {
      xs := [];
    } else {
      var op :| op in ops;
      var rest := Listing(ops - multiset{op});
      xs := [op] + rest;
    }
  }

  predicate IsDelete(op: Op) {
    op.Delete?
  }

  predicate IsWrite(op: Op) {
    op.Write?
  }

  lemma DeletesAndWrites(xs: seq<Op>) returns (ds: seq<Op>, ws: seq<Op>)
    ensures multiset(ds + ws) == multiset(xs)
    ensures forall op :: op in ds <==> op in xs && op.Delete?
    ensures forall op :: op in ws <==> op in xs && op.Write?
  {
    ds, ws := Pick(xs, IsDelete), Pick(xs, IsWrite);
    PickSplits(xs, IsDelete, IsWrite);
    forall op ensures op in ds <==> op in xs && op.Delete? {
      PickExactly(xs, IsDelete, op);
    }
    forall op ensures op in ws <==> op in xs && op.Write? {
      PickExactly(xs, IsWrite, op);
    }
  }

  /** Nothing is on the root, and no file is to hold another. */
  ghost predicate Feasible(ops: multiset<Op>) {
    && (forall op :: op in ops ==> op.path != [])
    && (forall a, b :: a in ops && b in ops && a.Write? && b.Write? ==> !StrictlyComparable(a.path, b.path))
  }

  /** Where nothing is in the way: deletes before writes. */
  lemma DeletesThenWrites(d: Directory, ds: seq<Op>, ws: seq<Op>)
    requires AllDeletes(ds) && AllWrites(ws) && Feasible(multiset(ds + ws)) && Open(d, multiset(ds + ws))
    ensures PerformAll(d, ds + ws).Some?
    ensures var e := PerformAll(d, ds + ws).value;
            && (forall p :: p in e.files ==> p in d.files || exists op :: op in ws && op.path == p)
            && (forall p :: p in e.dirs ==> p in d.dirs || exists op :: op in ws && ProperPrefix(p, op.path))
  {
    assert forall op :: op in ds || op in ws ==> op in multiset(ds + ws);
    DeletesSucceed(d, ds);
    var e := PerformAll(d, ds).value;
    WritesSucceed(e, ws);
    PerformBoth(d, ds, ws);
  }

  lemma LastOp(d: Directory, xs: seq<Op>, op: Op)
    ensures PerformAll(d, xs + [op]) == match PerformAll(d, xs) case None => None case Some(e) => Perform(e, op)
  {
    PerformBoth(d, xs, [op]);
    if PerformAll(d, xs).Some? {
      PerformFirst(PerformAll(d, xs).value, op, []);
      assert [op] + [] == [op];
    }
  }

  lemma WriteLast(d: Directory, xs: seq<Op>, op: Op)
    requires op.Write? && PerformAll(d, xs + [op]).Some?
    ensures At(PerformAll(d, xs + [op]).value, op.path) == Some(op.content)
  {
    LastOp(d, xs, op);
  }

  /** Orders of some operations: one of them last, and then the other. */
  lemma TwoLast(xs: seq<Op>, a: Op, b: Op, rest: seq<Op>)
    requires multiset(xs) == multiset(rest)
    ensures multiset(xs + [a] + [b]) == multiset(rest + [a, b])
    ensures multiset(xs + [b] + [a]) == multiset(rest + [a, b])
  {
  }

  lemma FirstAndLast(xs: seq<Op>, a: Op, b: Op, rest: seq<Op>)
    requires multiset(xs) == multiset(rest)
    ensures multiset([b] + xs + [a]) == multiset(rest + [a, b])
  {
  }

  lemma WriteThenWrite(d: Directory, ds: seq<Op>, ws: seq<Op>, a: Op, b: Op)
    requires AllDeletes(ds) && AllWrites(ws) && a.Write? && b.Write?
    requires Feasible(multiset(ds + ws + [a] + [b])) && Open(d, multiset(ds + ws + [a] + [b]))
    ensures PerformAll(d, ds + ws + [a] + [b]).Some?
    ensures At(PerformAll(d, ds + ws + [a] + [b]).value, b.path) == Some(b.content)
  {
    assert ds + ws + [a] + [b] == ds + (ws + [a, b]);
    DeletesThenWrites(d, ds, ws + [a, b]);
    WriteLast(d, ds + ws + [a], b);
  }

  /** Two writes of different contents to one path. */
  lemma WritesClash(d: Directory, rest: seq<Op>, a: Op, b: Op) returns (xs: seq<Op>, ys: seq<Op>)
    requires Feasible(multiset(rest + [a, b])) && Open(d, multiset(rest + [a, b]))
    requires a.Write? && b.Write? && a.path == b.path && a.content != b.content
    ensures OrdersDiffer(multiset(rest + [a, b]), d, xs, ys)
  {
    var ds, ws := DeletesAndWrites(rest);
    TwoLast(ds + ws, a, b, rest);
    WriteThenWrite(d, ds, ws, a, b);
    WriteThenWrite(d, ds, ws, b, a);
    xs, ys := ds + ws + [a] + [b], ds + ws + [b] + [a];
  }

  lemma DeleteThenWrite(d: Directory, ds: seq<Op>, ws: seq<Op>, w: Op, q: Op)
    requires AllDeletes(ds) && AllWrites(ws) && w.Write? && q.Delete?
    requires Feasible(multiset([q] + ds + ws + [w])) && Open(d, multiset([q] + ds + ws + [w]))
    ensures PerformAll(d, [q] + ds + ws + [w]).Some?
    ensures At(PerformAll(d, [q] + ds + ws + [w]).value, w.path) == Some(w.content)
  {
    assert [q] + ds + ws + [w] == ([q] + ds) + (ws + [w]);
    DeletesThenWrites(d, [q] + ds, ws + [w]);
    WriteLast(d, [q] + ds + ws, w);
  }

  lemma WriteThenDelete(d: Directory, xs: seq<Op>, w: Op, q: Op)
    requires w.Write? && q.Delete? && (w.path == q.path || StrictlyComparable(w.path, q.path))
    ensures PerformAll(d, xs + [w] + [q]).Some? ==> At(PerformAll(d, xs + [w] + [q]).value, w.path) == None
  {
    LastOp(d, xs + [w], q);
    LastOp(d, xs, w);
    if PerformAll(d, xs + [w]).Some? {
      BlockedAfter(PerformAll(d, xs).value, w, q.path);
    }
  }

  /** A write, and a delete of its path, of a directory of it or of something below it. */
  lemma DeleteClashes(d: Directory, rest: seq<Op>, w: Op, q: Op) returns (xs: seq<Op>, ys: seq<Op>)
    requires Feasible(multiset(rest + [w, q])) && Open(d, multiset(rest + [w, q]))
    requires w.Write? && q.Delete? && (w.path == q.path || StrictlyComparable(w.path, q.path))
    ensures OrdersDiffer(multiset(rest + [w, q]), d, xs, ys)
  {
    var ds, ws := DeletesAndWrites(rest);
    TwoLast(ds + ws, w, q, rest);
    FirstAndLast(ds + ws, w, q, rest);
    assert [q] + ds + ws + [w] == [q] + (ds + ws) + [w];
    DeleteThenWrite(d, ds, ws, w, q);
    WriteThenDelete(d, ds + ws, w, q);
    xs, ys := [q] + ds + ws + [w], ds + ws + [w] + [q];
  }

  // ------------------------------------------------------------- files that are to hold others

  /** The write's file is to hold another of the writes. */
  predicate Holds(xs: seq<Op>, a: Op) {
    a.Write? && exists i :: 0 <= i < |xs| && xs[i].Write? && ProperPrefix(a.path, xs[i].path)
  }

  predicate HoldsNone(xs: seq<Op>, a: Op) {
    a.Write? && !Holds(xs, a)
  }

  /** Each file that is to hold another is deleted: first those, then the deletes, then the other writes. */
  lemma UpperFirst(d: Directory, all: seq<Op>, us: seq<Op>, ds: seq<Op>, ws: seq<Op>)
    requires DeletesApart(multiset(all)) && !Doomed(multiset(all)) && Free(d, all)
    requires forall op :: op in us <==> op in all && Holds(all, op)
    requires forall op :: op in ds <==> op in all && op.Delete?
    requires forall op :: op in ws <==> op in all && HoldsNone(all, op)
    ensures PerformAll(d, us + ds + ws).Some?
  {
    UpperAreDeleted(all, us);
    UpperAreApart(all, us);
    WritesSucceed(d, us);
    var e := PerformAll(d, us).value;
    DeletesAreFree(d, all, us, ds, e);
    DeletesSucceed(e, ds);
    var f := PerformAll(e, ds).value;
    assert forall p :: p in f.files ==> p in d.files;
    OthersAreFree(d, all, us, ws, f);
    WritesSucceed(f, ws);
    PerformBoth(d, us, ds);
    PerformBoth(d, us + ds, ws);
  }

  lemma UpperAreDeleted(all: seq<Op>, us: seq<Op>)
    requires !Doomed(multiset(all)) && forall op :: op in us ==> op in all && Holds(all, op)
    ensures forall op :: op in us ==> op.path != [] && op.Write? && Delete(op.path) in all
  {
    forall op | op in us ensures op.path != [] && op.Write? && Delete(op.path) in all {
      var i :| 0 <= i < |all| && all[i].Write? && ProperPrefix(op.path, all[i].path);
      assert op in multiset(all) && all[i] in multiset(all);
    }
  }

  lemma UpperAreApart(all: seq<Op>, us: seq<Op>)
    requires DeletesApart(multiset(all)) && forall op :: op in us ==> Delete(op.path) in all
    ensures NoneHolds(us)
  {
    forall a, b | a in us && b in us ensures !StrictlyComparable(a.path, b.path) {
      assert Delete(a.path) in multiset(all) && Delete(b.path) in multiset(all);
    }
  }

  lemma DeletesAreFree(d: Directory, all: seq<Op>, us: seq<Op>, ds: seq<Op>, e: Directory)
    requires DeletesApart(multiset(all)) && Free(d, all)
    requires forall op :: op in us ==> Delete(op.path) in all
    requires forall op :: op in ds ==> op in all && op.Delete?
    requires forall p :: p in e.files ==> p in d.files || exists op :: op in us && op.path == p
    requires forall p :: p in e.dirs ==> p in d.dirs || exists op :: op in us && ProperPrefix(p, op.path)
    ensures Free(e, ds)
  {
    forall op | op in ds ensures !Blocked(e, op.path) {
      assert op in multiset(all);
      forall u | u in us ensures !StrictlyComparable(op.path, u.path) {
        assert Delete(u.path) in multiset(all);
      }
      forall i | 0 <= i < |op.path| ensures op.path[..i] !in e.files {
        assert forall u :: u in us && u.path == op.path[..i] ==> ProperPrefix(u.path, op.path);
      }
    }
  }

  lemma OthersAreFree(d: Directory, all: seq<Op>, us: seq<Op>, ws: seq<Op>, f: Directory)
    requires Free(d, all)
    requires forall op :: op in us <==> op in all && Holds(all, op)
    requires forall op :: op in ws <==> op in all && HoldsNone(all, op)
    requires forall p :: p in f.files ==> p in d.files
    requires forall p :: p in f.dirs ==> p in d.dirs || exists op :: op in us && ProperPrefix(p, op.path)
    ensures Free(f, ws) && NoneHolds(ws)
  {
    forall op | op in ws ensures op.path !in f.dirs {
      assert op in all;
      forall u | u in us ensures !ProperPrefix(op.path, u.path) {
        assert u in all;
        var i :| 0 <= i < |all| && all[i] == u;
      }
    }
    forall a, b | a in ws && b in ws ensures !ProperPrefix(a.path, b.path) {
      assert b in all;
      var i :| 0 <= i < |all| && all[i] == b;
    }
  }

  lemma UpperDeletesLower(all: seq<Op>) returns (us: seq<Op>, ds: seq<Op>, ws: seq<Op>)
    ensures multiset(us + ds + ws) == multiset(all)
    ensures forall op :: op in us <==> op in all && Holds(all, op)
    ensures forall op :: op in ds <==> op in all && op.Delete?
    ensures forall op :: op in ws <==> op in all && HoldsNone(all, op)
  {
    var upper := (op: Op) => Holds(all, op);
    var lower := (op: Op) => HoldsNone(all, op);
    var deletes, writes := DeletesAndWrites(all);
    us, ds, ws := Pick(writes, upper), deletes, Pick(writes, lower);
    forall op ensures op in us <==> op in writes && Holds(all, op) {
      PickExactly(writes, upper, op);
    }
    forall op ensures op in ws <==> op in writes && HoldsNone(all, op) {
      PickExactly(writes, lower, op);
    }
    PickSplits(writes, upper, lower);
  }

  /** Operations that are not doomed succeed in some order, wherever nothing is in their way. */
  lemma SomeOrderSucceeds(d: Directory, ops: multiset<Op>) returns (xs: seq<Op>)
    requires DeletesApart(ops) && !Doomed(ops) && Open(d, ops)
    ensures multiset(xs) == ops && PerformAll(d, xs).Some?
  {
    var all := Listing(ops);
    var us, ds, ws := UpperDeletesLower(all);
    assert forall op :: op in all ==> op in multiset(all);
    UpperFirst(d, all, us, ds, ws);
    xs := us + ds + ws;
  }

  /** A file that is to hold another, written after it, fails. */
  lemma LowerFirstFails(d: Directory, rest: seq<Op>, a: Op, b: Op)
    requires a.Write? && b.Write? && ProperPrefix(a.path, b.path)
    ensures PerformAll(d, [b, a] + rest) == None
  {
    TwoFirst(d, b, a, rest);
    if Perform(d, b).Some? {
      WriteMakesDirectories(d, b, a.path);
    }
  }

  // ------------------------------------------------------------- exactly when the order matters

  lemma WithoutTwo(ops: multiset<Op>, a: Op, b: Op) returns (rest: seq<Op>)
    requires a in ops && b in ops && a != b
    ensures multiset(rest + [a, b]) == ops == multiset([b, a] + rest)
  {
    rest := Listing(ops - multiset{a, b});
  }

  lemma AllButOne(ops: multiset<Op>, op: Op) returns (rest: seq<Op>)
    requires op in ops
    ensures multiset(rest + [op]) == ops
  {
    rest := Listing(ops - multiset{op});
  }

  /** Any of the writes can come last. */
  lemma WriteComesLast(d: Directory, ops: multiset<Op>, w: Op) returns (xs: seq<Op>)
    requires Feasible(ops) && Open(d, ops) && w in ops && w.Write?
    ensures multiset(xs) == ops && PerformAll(d, xs).Some?
    ensures At(PerformAll(d, xs).value, w.path) == Some(w.content)
  {
    var rest := AllButOne(ops, w);
    var ds, ws := DeletesAndWrites(rest);
    xs := ds + ws + [w];
    assert xs == ds + (ws + [w]);
    DeletesThenWrites(d, ds, ws + [w]);
    WriteLast(d, ds + ws, w);
  }

  lemma FeasibleClashShows(d: Directory, ops: multiset<Op>, a: Op, b: Op) returns (xs: seq<Op>, ys: seq<Op>)
    requires Feasible(ops) && Open(d, ops) && a in ops && b in ops && a.Write? && Clash(a, b)
    ensures OrdersDiffer(ops, d, xs, ys)
  {
    var rest := WithoutTwo(ops, a, b);
    if b.Write? {
      xs, ys := WritesClash(d, rest, a, b);
    } else {
      xs, ys := DeleteClashes(d, rest, a, b);
    }
  }

  lemma HoldingShows(d: Directory, ops: multiset<Op>, a: Op, b: Op) returns (xs: seq<Op>, ys: seq<Op>)
    requires DeletesApart(ops) && !Doomed(ops) && Open(d, ops) && a in ops && b in ops
    requires a.Write? && b.Write? && ProperPrefix(a.path, b.path)
    ensures OrdersDiffer(ops, d, xs, ys)
  {
    var rest := WithoutTwo(ops, a, b);
    LowerFirstFails(d, rest, a, b);
    xs := SomeOrderSucceeds(d, ops);
    ys := [b, a] + rest;
  }

  lemma WriteThatClashes(ops: multiset<Op>) returns (a: Op, b: Op)
    requires DeletesApart(ops) && !NoClash(ops)
    ensures a in ops && b in ops && a.Write? && Clash(a, b)
  {
    a, b :| a in ops && b in ops && Clash(a, b);
    if a.Delete? {
      a, b := b, a;
    }
  }

  lemma FileThatHolds(ops: multiset<Op>) returns (a: Op, b: Op)
    requires !Feasible(ops) && !Doomed(ops)
    ensures a in ops && b in ops && a.Write? && b.Write? && ProperPrefix(a.path, b.path)
  {
    assert forall op :: op in ops ==> op.path != [];
    a, b :| a in ops && b in ops && a.Write? && b.Write? && ProperPrefix(a.path, b.path);
  }

  /** Operations that clash and are not doomed: wherever nothing is in their way, some orders differ. */
  lemma ClashShowsInOrders(d: Directory, ops: multiset<Op>) returns (xs: seq<Op>, ys: seq<Op>)
    requires DeletesApart(ops) && !NoClash(ops) && !Doomed(ops) && Open(d, ops)
    ensures OrdersDiffer(ops, d, xs, ys)
  {
    if Feasible(ops) {
      var a, b := WriteThatClashes(ops);
      xs, ys := FeasibleClashShows(d, ops, a, b);
    } else {
      var a, b := FileThatHolds(ops);
      xs, ys := HoldingShows(d, ops, a, b);
    }
  }

  /** The order of operations never matters exactly when none clash, or they can never all succeed. */
  lemma ConfluentExactly(ops: multiset<Op>)
    requires DeletesApart(ops)
    ensures Confluent(ops) <==> NoClash(ops) || Doomed(ops)
  {
    forall d, xs, ys | Sound(d) && multiset(xs) == ops && multiset(ys) == ops && (NoClash(ops) || Doomed(ops))
      ensures PerformAll(d, xs) == PerformAll(d, ys)
    {
      if NoClash(ops) {
        AnyOrder(d, xs, ys);
      } else {
        DoomedFails(d, xs);
        DoomedFails(d, ys);
      }
    }
    if !NoClash(ops) && !Doomed(ops) {
      EmptyIsOpen(ops);
      var xs, ys := ClashShowsInOrders(EMPTY, ops);
    }
  }
}
