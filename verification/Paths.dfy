/** Names split at slashes, and directories as prefixes of them. */
module Paths {
  type Parts = seq<string>

  function Split(s: string): (parts: Parts)
    ensures parts != []
  {
    if s == "" then [""]
    else
      var rest := Split(s[1..]);
      if s[0] == '/' then [""] + rest else [[s[0]] + rest[0]] + rest[1..]
  }

  function Join(parts: Parts): string {
    if parts == [] then ""
    else if |parts| == 1 then parts[0]
    else parts[0] + "/" + Join(parts[1..])
  }

  predicate NoSlash(parts: Parts) {
    forall i :: 0 <= i < |parts| ==> '/' !in parts[i]
  }

  lemma {:induction false} SplitHasNoSlash(s: string)
    ensures NoSlash(Split(s))
  {
    if s != "" {
      SplitHasNoSlash(s[1..]);
    }
  }

  lemma JoinSlash(parts: Parts)
    requires parts != []
    ensures Join([""] + parts) == "/" + Join(parts)
  {
    assert ([""] + parts)[1..] == parts;
  }

  lemma JoinLetter(c: char, first: string, rest: Parts)
    ensures Join([[c] + first] + rest) == [c] + Join([first] + rest)
  {
    assert ([[c] + first] + rest)[1..] == rest == ([first] + rest)[1..];
    if rest != [] {
      assert ([c] + first) + "/" + Join(rest) == [c] + (first + "/" + Join(rest));
    }
  }

  lemma {:induction false} JoinSplit(s: string)
    ensures Join(Split(s)) == s
  {
    if s != "" {
      JoinSplit(s[1..]);
      var parts := Split(s[1..]);
      if s[0] == '/' {
        JoinSlash(parts);
      } else {
        assert parts == [parts[0]] + parts[1..];
        JoinLetter(s[0], parts[0], parts[1..]);
      }
    }
  }

  lemma {:induction false} SplitOne(a: string)
    requires '/' !in a
    ensures Split(a) == [a]
  {
    if a != "" {
      SplitOne(a[1..]);
      assert a[0] != '/';
      assert [a[0]] + a[1..] == a;
    }
  }

  lemma {:induction false} SplitAt(a: string, s: string)
    requires '/' !in a
    ensures Split(a + "/" + s) == [a] + Split(s)
  {
    if a == "" {
      assert (a + "/" + s)[1..] == s;
    } else {
      SplitAt(a[1..], s);
      assert (a + "/" + s)[1..] == a[1..] + "/" + s;
      assert (a + "/" + s)[0] == a[0] != '/';
      assert [a[0]] + a[1..] == a;
    }
  }

  /** Splitting is the exact inverse of joining parts that hold no slash. */
  lemma {:induction false} SplitJoin(parts: Parts)
    requires parts != [] && NoSlash(parts)
    ensures Split(Join(parts)) == parts
  {
    if |parts| == 1 {
      SplitOne(parts[0]);
    } else {
      SplitJoin(parts[1..]);
      SplitAt(parts[0], Join(parts[1..]));
    }
  }

  lemma SplitIsInjective(a: string, b: string)
    requires Split(a) == Split(b)
    ensures a == b
  {
    JoinSplit(a);
    JoinSplit(b);
  }

  predicate IsPrefix(a: Parts, b: Parts) {
    |a| <= |b| && b[..|a|] == a
  }

  /** One of the two is a file where the other needs a directory, or they are the same. */
  predicate Comparable(a: Parts, b: Parts) {
    IsPrefix(a, b) || IsPrefix(b, a)
  }

  method ArrayIsPrefix(needle: Parts, haystack: Parts) returns (yes: bool)
    ensures yes <==> IsPrefix(needle, haystack)
  {
    if |haystack| < |needle| {
      return false;
    }
    for i := 0 to |needle|
      invariant needle[..i] == haystack[..i]
    {
      if needle[i] != haystack[i] {
        return false;
      }
    }
    return true;
  }

  function Parents(parts: Parts): Parts
    requires parts != []
  {
    parts[..|parts| - 1]
  }

  /** The name lies in the directory, however deep. */
  predicate Under(dir: string, name: string) {
    IsPrefix(Split(dir), Parents(Split(name)))
  }

  /** Both lie below the same directory exactly as they lie below one another without it. */
  lemma CommonDirectory(dir: Parts, a: Parts, b: Parts)
    ensures IsPrefix(dir + a, dir + b) <==> IsPrefix(a, b)
  {
    if IsPrefix(a, b) {
      assert (dir + b)[..|dir + a|] == dir + b[..|a|];
    }
    if IsPrefix(dir + a, dir + b) {
      assert b[..|a|] == (dir + b)[|dir|..|dir + a|];
      assert a == (dir + a)[|dir|..];
    }
  }

  lemma SplitCons(c: char, s: string)
    ensures Split([c] + s) == if c == '/' then [""] + Split(s) else [[c] + Split(s)[0]] + Split(s)[1..]
  {
    assert ([c] + s)[1..] == s;
  }

  lemma ConsBoth(c: char, a: Parts, b: Parts)
    requires a != []
    ensures [[c] + (a + b)[0]] + (a + b)[1..] == ([[c] + a[0]] + a[1..]) + b
    ensures [""] + (a + b) == ([""] + a) + b
  {
  }

  /** Joined at a slash, two names have the parts of both. */
  lemma {:induction false} SplitBoth(a: string, b: string)
    ensures Split(a + "/" + b) == Split(a) + Split(b)
  {
    if a == "" {
      SplitCons('/', b);
      assert a + "/" + b == ['/'] + b;
    } else {
      var c, rest := a[0], a[1..];
      SplitBoth(rest, b);
      assert a == [c] + rest && a + "/" + b == [c] + (rest + "/" + b);
      SplitCons(c, rest + "/" + b);
      SplitCons(c, rest);
      ConsBoth(c, Split(rest), Split(b));
    }
  }

  lemma PrefixIsDirectory(dir: string, name: string)
    requires IsPrefix(Split(dir), Split(name)) && |Split(dir)| < |Split(name)|
    ensures name == dir + "/" + Join(Split(name)[|Split(dir)|..])
  {
    var rest := Split(name)[|Split(dir)|..];
    SplitHasNoSlash(name);
    SplitJoin(rest);
    SplitBoth(dir, Join(rest));
    assert Split(name) == Split(dir) + rest;
    SplitIsInjective(name, dir + "/" + Join(rest));
  }

  /** The name is the directory's, a slash, and something more. */
  ghost predicate GoesOn(dir: string, name: string) {
    exists rest :: name == dir + "/" + rest
  }

  lemma UnderExactly(dir: string, name: string)
    ensures Under(dir, name) <==> GoesOn(dir, name)
  {
    if Under(dir, name) {
      assert Split(name)[..|Split(dir)|] == Parents(Split(name))[..|Split(dir)|];
      PrefixIsDirectory(dir, name);
    }
    if rest :| name == dir + "/" + rest {
      SplitBoth(dir, rest);
      assert Parents(Split(dir) + Split(rest))[..|Split(dir)|] == Split(dir);
    }
  }

  /** Two names are comparable exactly if they are the same or one lies below the other. */
  lemma ComparableExactly(a: string, b: string)
    ensures Comparable(Split(a), Split(b)) <==>
            a == b || GoesOn(a, b) || GoesOn(b, a)
  {
    UnderExactly(a, b);
    UnderExactly(b, a);
    PrefixOrUnder(a, b);
    PrefixOrUnder(b, a);
  }

  lemma PrefixOrUnder(a: string, b: string)
    ensures IsPrefix(Split(a), Split(b)) <==> a == b || Under(a, b)
  {
    if IsPrefix(Split(a), Split(b)) {
      if |Split(a)| == |Split(b)| {
        SplitIsInjective(a, b);
      } else {
        assert Parents(Split(b))[..|Split(a)|] == Split(b)[..|Split(a)|];
      }
    }
    if Under(a, b) {
      assert Parents(Split(b))[..|Split(a)|] == Split(b)[..|Split(a)|];
    }
  }
}
