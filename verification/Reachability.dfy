/** Being led from one state to another by any number of steps. */
module Reachability {
  ghost predicate IsPath<S(!new)>(step: (S, S) -> bool, path: seq<S>) {
    && path != []
    && forall i :: 0 <= i < |path| - 1 ==> step(path[i], path[i + 1])
  }

  lemma {:induction false} PathKeeps<S(!new)>(step: (S, S) -> bool, path: seq<S>, kept: S -> bool, n: nat)
    requires IsPath(step, path) && n < |path| && kept(path[0])
    requires forall v, w :: kept(v) && step(v, w) ==> kept(w)
    ensures kept(path[n])
  {
    if n > 0 {
      PathKeeps(step, path, kept, n - 1);
      assert step(path[n - 1], path[n - 1 + 1]);
    }
  }

  ghost predicate Reaches<S(!new)>(step: (S, S) -> bool, v: S, w: S) {
    exists path :: IsPath(step, path) && path[0] == v && path[|path| - 1] == w
  }

  lemma ReachesItself<S(!new)>(step: (S, S) -> bool, v: S)
    ensures Reaches(step, v, v)
  {
    assert IsPath(step, [v]);
  }

  lemma ReachesNext<S(!new)>(step: (S, S) -> bool, v: S, w: S)
    requires step(v, w)
    ensures Reaches(step, v, w)
  {
    assert IsPath(step, [v, w]);
  }

  lemma ReachesOn<S(!new)>(step: (S, S) -> bool, u: S, v: S, w: S)
    requires Reaches(step, u, v) && Reaches(step, v, w)
    ensures Reaches(step, u, w)
  {
    var a :| IsPath(step, a) && a[0] == u && a[|a| - 1] == v;
    var b :| IsPath(step, b) && b[0] == v && b[|b| - 1] == w;
    var path := a + b[1..];
    assert forall i :: 0 <= i < |path| ==> path[i] == if i < |a| then a[i] else b[i - |a| + 1];
    assert IsPath(step, path);
  }
}
