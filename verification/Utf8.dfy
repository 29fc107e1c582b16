/**
  Well-formed UTF-8 as section 4 of RFC 3629 defines it, and the greedy scan that
  `str::from_utf8` performs. The definition by concatenated characters is the
  reference; the scan is proved to find its longest well-formed prefix.
 */
module Utf8 {
  import opened Sequences

  newtype Byte = b: int | 0 <= b < 256
  type Bytes = seq<Byte>

  predicate IsTail(b: Byte) {
    0x80 <= b <= 0xBF
  }

  /** `s` is the encoding of exactly one character: the UTF8-1 to UTF8-4 rules. */
  predicate IsCharacter(s: Bytes) {
    match |s|
    case 1 => s[0] <= 0x7F
    case 2 => 0xC2 <= s[0] <= 0xDF && IsTail(s[1])
    case 3 =>
      && IsTail(s[2])
      && (|| (s[0] == 0xE0 && 0xA0 <= s[1] <= 0xBF)
          || (0xE1 <= s[0] <= 0xEC && IsTail(s[1]))
          || (s[0] == 0xED && 0x80 <= s[1] <= 0x9F)
          || (0xEE <= s[0] <= 0xEF && IsTail(s[1])))
    case 4 =>
      && IsTail(s[2])
      && IsTail(s[3])
      && (|| (s[0] == 0xF0 && 0x90 <= s[1] <= 0xBF)
          || (0xF1 <= s[0] <= 0xF3 && IsTail(s[1]))
          || (s[0] == 0xF4 && 0x80 <= s[1] <= 0x8F))
    case _ => false
  }

  ghost predicate Characters(cs: seq<Bytes>) {
    forall i :: 0 <= i < |cs| ==> IsCharacter(cs[i])
  }

  ghost predicate WellFormed(s: Bytes) {
    exists cs: seq<Bytes> :: Characters(cs) && Flatten(cs) == s
  }

  /** The length of the character that `s` starts with, or 0 if no complete character starts it. */
  function CharacterLength(s: Bytes): (n: nat)
    ensures n <= 4 && n <= |s|
    ensures n != 0 ==> IsCharacter(s[..n])
  {
    if 1 <= |s| && IsCharacter(s[..1]) then 1
    else if 2 <= |s| && IsCharacter(s[..2]) then 2
    else if 3 <= |s| && IsCharacter(s[..3]) then 3
    else if 4 <= |s| && IsCharacter(s[..4]) then 4
    else 0
  }

  /** How many bytes the scan accepts before it stops: `Utf8Error::valid_up_to`, or everything. */
  function ValidUpTo(s: Bytes): (n: nat)
    ensures n <= |s|
  {
    var k := CharacterLength(s);
    if k == 0 then 0 else k + ValidUpTo(s[k..])
  }

  /** The first byte fixes a character's length, so no character is a proper prefix of another. */
  lemma CharacterFound(c: Bytes, t: Bytes)
    requires IsCharacter(c)
    ensures CharacterLength(c + t) == |c|
  {
  }

  /** Four bytes are enough to see whether a character starts a sequence. */
  lemma FourBytesDecide(s: Bytes, t: Bytes)
    requires 4 <= |s|
    ensures CharacterLength(s + t) == CharacterLength(s)
  {
  }

  lemma {:induction false} ScanPastCharacters(cs: seq<Bytes>, t: Bytes)
    requires Characters(cs)
    ensures ValidUpTo(Flatten(cs) + t) == |Flatten(cs)| + ValidUpTo(t)
  {
    if cs == [] {
      assert Flatten(cs) + t == t;
    } else {
      var rest := Flatten(cs[1..]) + t;
      assert Flatten(cs) + t == cs[0] + rest;
      CharacterFound(cs[0], rest);
      assert (cs[0] + rest)[|cs[0]|..] == rest;
      ScanPastCharacters(cs[1..], t);
    }
  }

  lemma OneMoreCharacter(c: Bytes, rest: seq<Bytes>) returns (cs: seq<Bytes>)
    requires IsCharacter(c) && Characters(rest)
    ensures Characters(cs) && Flatten(cs) == c + Flatten(rest)
  {
    cs := [c] + rest;
    assert cs[1..] == rest;
  }

  lemma PrefixInTwo(s: Bytes, k: nat, n: nat)
    requires k + n <= |s|
    ensures s[..k + n] == s[..k] + s[k..][..n]
  {
  }

  lemma {:induction false} ScanFindsCharacters(s: Bytes) returns (cs: seq<Bytes>)
    ensures Characters(cs) && Flatten(cs) == s[..ValidUpTo(s)]
  {
    var k := CharacterLength(s);
    if k == 0 {
      cs := [];
    } else {
      var rest := ScanFindsCharacters(s[k..]);
      cs := OneMoreCharacter(s[..k], rest);
      PrefixInTwo(s, k, ValidUpTo(s[k..]));
    }
  }

  /** Where the scan stops, no character begins. */
  lemma {:induction false} ScanStops(s: Bytes)
    ensures ValidUpTo(s[ValidUpTo(s)..]) == 0
  {
    var k := CharacterLength(s);
    if k != 0 {
      ScanStops(s[k..]);
      assert s[k..][ValidUpTo(s[k..])..] == s[ValidUpTo(s)..];
    } else {
      assert s[0..] == s;
    }
  }

  /** A well-formed prefix does not change how the rest is scanned. */
  lemma ScanPastWellFormed(p: Bytes, t: Bytes)
    requires WellFormed(p)
    ensures ValidUpTo(p + t) == |p| + ValidUpTo(t)
  {
    var cs: seq<Bytes> :| Characters(cs) && Flatten(cs) == p;
    ScanPastCharacters(cs, t);
  }

  lemma ScanSplit(p: Bytes, t: Bytes)
    requires WellFormed(p)
    ensures (p + t)[..ValidUpTo(p + t)] == p + t[..ValidUpTo(t)]
    ensures |p + t| - ValidUpTo(p + t) == |t| - ValidUpTo(t)
  {
    ScanPastWellFormed(p, t);
  }

  lemma ScannedIsWellFormed(s: Bytes)
    ensures WellFormed(s[..ValidUpTo(s)])
  {
    var cs := ScanFindsCharacters(s);
  }

  lemma WellFormedIsScanned(p: Bytes, t: Bytes)
    requires WellFormed(p)
    ensures |p| <= ValidUpTo(p + t)
  {
    ScanPastWellFormed(p, t);
  }

  /** The scan stops exactly at the end of the longest well-formed prefix. */
  lemma LongestWellFormedPrefix(s: Bytes, n: nat)
    requires n <= |s|
    ensures WellFormed(s[..ValidUpTo(s)])
    ensures WellFormed(s[..n]) ==> n <= ValidUpTo(s)
  {
    ScannedIsWellFormed(s);
    assert s == s[..n] + s[n..];
    if WellFormed(s[..n]) {
      WellFormedIsScanned(s[..n], s[n..]);
    }
  }

  lemma WellFormedScan(s: Bytes)
    ensures WellFormed(s) <==> ValidUpTo(s) == |s|
  {
    LongestWellFormedPrefix(s, |s|);
    assert s[..|s|] == s;
  }

  lemma WellFormedAppend(a: Bytes, b: Bytes)
    requires WellFormed(a) && WellFormed(b)
    ensures WellFormed(a + b)
  {
    ScanPastWellFormed(a, b);
    WellFormedScan(b);
    WellFormedScan(a + b);
  }
}
