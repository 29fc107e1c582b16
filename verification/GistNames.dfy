/**
  File names in gists: slashes and bytes beyond ASCII are percent-encoded (section 2.1 of RFC 3986)
  and percent signs are not, so decoding does not always undo encoding.
 */
module GistNames {
  import opened Sequences
  import opened Utf8

  const PERCENT: Byte := 0x25
  const SLASH: Byte := 0x2F

  /** U+FFFD in UTF-8. */
  const REPLACEMENT: Bytes := [0xEF, 0xBF, 0xBD]

  predicate IsHex(b: Byte) {
    0x30 <= b <= 0x39 || 0x41 <= b <= 0x46 || 0x61 <= b <= 0x66
  }

  function HexValue(b: Byte): (v: Byte)
    requires IsHex(b)
    ensures v < 16
  {
    if b <= 0x39 then b - 0x30 else if b <= 0x46 then b - 0x41 + 10 else b - 0x61 + 10
  }

  function HexDigit(v: Byte): (b: Byte)
    requires v < 16
    ensures IsHex(b) && HexValue(b) == v
  {
    if v < 10 then v + 0x30 else v - 10 + 0x41
  }

  predicate Encoded(b: Byte) {
    b == SLASH || 0x80 <= b
  }

  function EncodeByte(b: Byte): Bytes {
    if Encoded(b) then [PERCENT, HexDigit(b / 16), HexDigit(b % 16)] else [b]
  }

  function EncodeFilename(name: Bytes): Bytes {
    if name == [] then [] else EncodeByte(name[0]) + EncodeFilename(name[1..])
  }

  /** A percent sign and two hexadecimal digits. */
  predicate IsEscape(s: Bytes) {
    3 <= |s| && s[0] == PERCENT && IsHex(s[1]) && IsHex(s[2])
  }

  function PercentDecode(s: Bytes): Bytes {
    if s == [] then []
    else if IsEscape(s) then [16 * HexValue(s[1]) + HexValue(s[2])] + PercentDecode(s[3..])
    else [s[0]] + PercentDecode(s[1..])
  }

  /** Some character begins with these bytes. */
  ghost predicate Begins(s: Bytes) {
    exists t :: IsCharacter(s + t)
  }

  /** How much of an ill-formed sequence one replacement character stands for. */
  ghost function BrokenLength(s: Bytes): (n: nat)
    requires s != [] && CharacterLength(s) == 0
    ensures 1 <= n <= |s|
  {
    if 3 <= |s| && Begins(s[..3]) then 3 else if 2 <= |s| && Begins(s[..2]) then 2 else 1
  }

  /** What the decoder makes of the beginning of the bytes, and how many it takes for it. */
  ghost function LossyFirst(s: Bytes): (first: (Bytes, nat))
    requires s != []
    ensures 1 <= first.1 <= |s|
  {
    var k := CharacterLength(s);
    if k > 0 then (s[..k], k) else (REPLACEMENT, BrokenLength(s))
  }

  /** `from_utf8_lossy`. */
  ghost function Lossy(s: Bytes): Bytes {
    if s == [] then [] else LossyFirst(s).0 + Lossy(s[LossyFirst(s).1..])
  }

  ghost function DecodeFilename(name: Bytes): Bytes {
    Lossy(PercentDecode(name))
  }

  /** Somewhere in the name there is what looks like an escape. */
  ghost predicate HasEscape(s: Bytes) {
    exists i :: 0 <= i < |s| && IsEscape(s[i..])
  }

  // ------------------------------------------------------------- decoding the encoding

  lemma EncodeFirst(s: Bytes)
    requires s != []
    ensures EncodeFilename(s) == EncodeByte(s[0]) + EncodeFilename(s[1..])
  {
  }

  lemma EncodeFirstThree(s: Bytes)
    requires 3 <= |s|
    ensures EncodeFilename(s)
         == EncodeByte(s[0]) + (EncodeByte(s[1]) + (EncodeByte(s[2]) + EncodeFilename(s[3..])))
  {
    EncodeFirst(s);
    EncodeFirst(s[1..]);
    EncodeFirst(s[2..]);
    assert s[1..][1..] == s[2..] && s[2..][1..] == s[3..];
  }

  /** The second byte is not part of an escape, in the name or in its encoding. */
  lemma NoEscapeHere(s: Bytes)
    requires s != [] && !Encoded(s[0]) && (|s| < 3 || Encoded(s[1]) || Encoded(s[2]))
    ensures !IsEscape(EncodeFilename(s)) && !IsEscape(s)
  {
    EncodeFirst(s);
    if 2 <= |s| {
      EncodeFirst(s[1..]);
      if |s| == 3 || 3 < |s| {
        EncodeFirstThree(s);
      }
    }
  }

  lemma EscapeInEncoding(s: Bytes)
    requires s != [] && !Encoded(s[0])
    ensures IsEscape(EncodeFilename(s)) <==> IsEscape(s)
    ensures IsEscape(s) ==> EncodeFilename(s) == s[..3] + EncodeFilename(s[3..])
  {
    if |s| < 3 || Encoded(s[1]) || Encoded(s[2]) {
      NoEscapeHere(s);
    } else {
      EncodeFirstThree(s);
    }
  }

  lemma DecodeEncoded(b: Byte, rest: Bytes)
    requires Encoded(b)
    ensures PercentDecode(EncodeByte(b) + rest) == [b] + PercentDecode(rest)
  {
    assert (EncodeByte(b) + rest)[3..] == rest;
    assert 16 * (b / 16) + b % 16 == b;
  }

  lemma DecodeEscape(escape: Bytes, rest: Bytes)
    requires |escape| == 3 && IsEscape(escape)
    ensures PercentDecode(escape + rest) == [16 * HexValue(escape[1]) + HexValue(escape[2])] + PercentDecode(rest)
  {
    assert (escape + rest)[3..] == rest;
  }

  lemma DecodeOther(b: Byte, rest: Bytes)
    requires !IsEscape([b] + rest)
    ensures PercentDecode([b] + rest) == [b] + PercentDecode(rest)
  {
    assert ([b] + rest)[1..] == rest;
  }

  /** Whatever is encoded decodes to itself; what looked like an escape before still does. */
  lemma {:induction false} DecodeSkipsEncoding(s: Bytes)
    ensures PercentDecode(EncodeFilename(s)) == PercentDecode(s)
    decreases |s|
  {
    if s != [] {
      if Encoded(s[0]) {
        DecodeSkipsEncoding(s[1..]);
        DecodeEncoded(s[0], EncodeFilename(s[1..]));
      } else {
        EscapeInEncoding(s);
        if IsEscape(s) {
          DecodeSkipsEncoding(s[3..]);
          DecodeEscape(s[..3], EncodeFilename(s[3..]));
        } else {
          DecodeSkipsEncoding(s[1..]);
          DecodeOther(s[0], EncodeFilename(s[1..]));
        }
      }
    }
  }

  // ------------------------------------------------------------- counting ASCII

  function Ascii(s: Bytes): nat {
    if s == [] then 0 else (if s[0] < 0x80 then 1 else 0) + Ascii(s[1..])
  }

  lemma {:induction false} AsciiAppend(a: Bytes, b: Bytes)
    ensures Ascii(a + b) == Ascii(a) + Ascii(b)
  {
    if a == [] {
      assert a + b == b;
    } else {
      AsciiAppend(a[1..], b);
      assert (a + b)[1..] == a[1..] + b;
    }
  }

  lemma EscapeIsAscii(s: Bytes)
    requires IsEscape(s)
    ensures Ascii(s) == 3 + Ascii(s[3..])
  {
    assert s[1..][1..] == s[2..] && s[2..][1..] == s[3..];
    assert Ascii(s[1..]) == 1 + Ascii(s[2..]) && Ascii(s[2..]) == 1 + Ascii(s[3..]);
  }

  lemma EscapeLater(s: Bytes)
    requires s != []
    ensures HasEscape(s) <==> IsEscape(s) || HasEscape(s[1..])
  {
    if HasEscape(s) {
      var i :| 0 <= i < |s| && IsEscape(s[i..]);
      assert i > 0 ==> s[1..][i - 1..] == s[i..];
      assert i == 0 ==> s[i..] == s;
    }
    if HasEscape(s[1..]) {
      var i :| 0 <= i < |s[1..]| && IsEscape(s[1..][i..]);
      assert s[1..][i..] == s[i + 1..];
    }
    if IsEscape(s) {
      assert s[0..] == s;
    }
  }

  /** Without an escape nothing changes; with one, ASCII bytes are lost. */
  lemma {:induction false} DecodeExactly(s: Bytes)
    ensures Ascii(PercentDecode(s)) <= Ascii(s)
    ensures if HasEscape(s) then Ascii(PercentDecode(s)) < Ascii(s) else PercentDecode(s) == s
    decreases |s|
  {
    if s != [] {
      EscapeLater(s);
      if IsEscape(s) {
        EscapeIsAscii(s);
        DecodeExactly(s[3..]);
        assert PercentDecode(s)[1..] == PercentDecode(s[3..]);
      } else {
        DecodeExactly(s[1..]);
        assert PercentDecode(s)[1..] == PercentDecode(s[1..]);
      }
    }
  }

  lemma {:induction false} NoAscii(s: Bytes)
    requires forall i :: 0 <= i < |s| ==> 0x80 <= s[i]
    ensures Ascii(s) == 0
  {
    if s != [] {
      NoAscii(s[1..]);
    }
  }

  lemma BrokenHasNoAscii(s: Bytes)
    requires s != [] && CharacterLength(s) == 0
    ensures forall i :: 0 <= i < BrokenLength(s) ==> 0x80 <= s[i]
  {
  }

  lemma ReplacedAscii(s: Bytes)
    requires s != [] && CharacterLength(s) == 0
    ensures Ascii(s[..BrokenLength(s)]) == Ascii(REPLACEMENT)
  {
    BrokenHasNoAscii(s);
    NoAscii(s[..BrokenLength(s)]);
    NoAscii(REPLACEMENT);
  }

  /** Replacing ill-formed sequences neither adds nor removes ASCII. */
  lemma {:induction false} LossyKeepsAscii(s: Bytes)
    ensures Ascii(Lossy(s)) == Ascii(s)
    decreases |s|
  {
    if s != [] {
      var (out, n) := LossyFirst(s);
      if CharacterLength(s) == 0 {
        ReplacedAscii(s);
      }
      assert Ascii(out) == Ascii(s[..n]);
      LossyKeepsAscii(s[n..]);
      assert s == s[..n] + s[n..];
      AsciiAppend(s[..n], s[n..]);
      AsciiAppend(out, Lossy(s[n..]));
    }
  }

  lemma {:induction false} LossyKeepsWellFormed(s: Bytes)
    requires ValidUpTo(s) == |s|
    ensures Lossy(s) == s
    decreases |s|
  {
    if s != [] {
      var k := CharacterLength(s);
      assert k > 0 && ValidUpTo(s[k..]) == |s[k..]|;
      LossyKeepsWellFormed(s[k..]);
      assert Lossy(s) == s[..k] + s[k..];
    }
  }

  /** One replacement character stands for the longest beginning that some character could have. */
  lemma BrokenIsMaximal(s: Bytes, m: nat)
    requires s != [] && CharacterLength(s) == 0
    ensures BrokenLength(s) == 1 || Begins(s[..BrokenLength(s)])
    ensures BrokenLength(s) < m <= |s| ==> !Begins(s[..m])
  {
  }

  /** What decoding gives is well-formed, whatever was encoded. */
  lemma {:induction false} LossyIsWellFormed(s: Bytes)
    ensures WellFormed(Lossy(s))
    decreases |s|
  {
    if s == [] {
      WellFormedScan([]);
    } else {
      var (out, n) := LossyFirst(s);
      assert IsCharacter(out);
      CharacterIsWellFormed(out);
      LossyIsWellFormed(s[n..]);
      WellFormedAppend(out, Lossy(s[n..]));
    }
  }

  // ------------------------------------------------------------- the round trip

  /** A name survives encoding and decoding exactly when nothing in it looks like an escape. */
  lemma RoundTripExactly(name: Bytes)
    requires WellFormed(name)
    ensures DecodeFilename(EncodeFilename(name)) == name <==> !HasEscape(name)
  {
    DecodeSkipsEncoding(name);
    DecodeExactly(name);
    LossyKeepsAscii(PercentDecode(name));
    if !HasEscape(name) {
      WellFormedScan(name);
      LossyKeepsWellFormed(name);
    }
  }

  /** What is sent to the gist is ASCII without slashes. */
  lemma {:induction false} EncodingIsPlain(name: Bytes)
    ensures forall i :: 0 <= i < |EncodeFilename(name)| ==> !Encoded(EncodeFilename(name)[i])
  {
    if name != [] {
      EncodingIsPlain(name[1..]);
    }
  }

  /** Files of different names stay different files. */
  lemma EncodingIsInjective(a: Bytes, b: Bytes)
    requires WellFormed(a) && WellFormed(b) && !HasEscape(a) && !HasEscape(b)
    requires EncodeFilename(a) == EncodeFilename(b)
    ensures a == b
  {
    RoundTripExactly(a);
    RoundTripExactly(b);
  }

  // ------------------------------------------------------------- names that share an encoding

  /** Nothing in the name is changed by encoding it. */
  predicate Plain(s: Bytes) {
    forall i :: 0 <= i < |s| ==> !Encoded(s[i])
  }

  /** The name contains, spelled out, the encoding of a slash or of a character beyond ASCII. */
  ghost predicate Spells(s: Bytes) {
    exists l, c, m :: IsCharacter(c) && Encoded(c[0]) && s == l + EncodeFilename(c) + m
  }

  lemma Regroup(a: Bytes, b: Bytes, c: Bytes)
    ensures a + (b + c) == a + b + c
  {
  }

  lemma {:induction false} EncodeAppend(a: Bytes, b: Bytes)
    ensures EncodeFilename(a + b) == EncodeFilename(a) + EncodeFilename(b)
  {
    if a == [] {
      assert a + b == b;
    } else {
      assert (a + b)[0] == a[0] && (a + b)[1..] == a[1..] + b;
      EncodeFirst(a + b);
      EncodeFirst(a);
      EncodeAppend(a[1..], b);
      Regroup(EncodeByte(a[0]), EncodeFilename(a[1..]), EncodeFilename(b));
    }
  }

  lemma EncodeParts(l: Bytes, c: Bytes, m: Bytes)
    ensures EncodeFilename(l + c + m) == EncodeFilename(l) + EncodeFilename(c) + EncodeFilename(m)
  {
    EncodeAppend(l + c, m);
    EncodeAppend(l, c);
  }

  lemma {:induction false} PlainStays(s: Bytes)
    requires Plain(s)
    ensures EncodeFilename(s) == s
  {
    if s != [] {
      PlainStays(s[1..]);
    }
  }

  lemma {:induction false} PlainIsWellFormed(s: Bytes)
    requires Plain(s)
    ensures WellFormed(s)
  {
    if s == [] {
      WellFormedScan(s);
    } else {
      PlainIsWellFormed(s[1..]);
      CharacterIsWellFormed([s[0]]);
      WellFormedAppend([s[0]], s[1..]);
      assert [s[0]] + s[1..] == s;
    }
  }

  lemma CharacterIsWellFormed(c: Bytes)
    requires IsCharacter(c)
    ensures WellFormed(c)
  {
    CharacterFound(c, []);
    assert c + [] == c && c[|c|..] == [];
    WellFormedScan(c);
  }

  lemma {:induction false} EncodingIsLonger(s: Bytes)
    ensures |EncodeFilename(s)| >= |s|
    ensures s != [] && Encoded(s[0]) ==> |EncodeFilename(s)| > |s|
  {
    if s != [] {
      EncodingIsLonger(s[1..]);
    }
  }

  lemma {:induction false} PlainCharacters(cs: seq<Bytes>)
    requires Characters(cs) && forall i :: 0 <= i < |cs| ==> !Encoded(cs[i][0])
    ensures Plain(Flatten(cs))
  {
    if cs != [] {
      PlainCharacters(cs[1..]);
      assert |cs[0]| == 1;
    }
  }

  lemma FlattenBetween(before: seq<Bytes>, c: Bytes, after: seq<Bytes>)
    ensures Flatten(before + [c] + after) == Flatten(before) + c + Flatten(after)
  {
    FlattenSnoc(before, c);
    FlattenAppend(before + [c], after);
  }

  lemma Around(cs: seq<Bytes>, i: nat)
    requires i < |cs|
    ensures cs == cs[..i] + [cs[i]] + cs[i + 1..]
  {
  }

  lemma FlattenAround(cs: seq<Bytes>, i: nat)
    requires i < |cs|
    ensures Flatten(cs) == Flatten(cs[..i]) + cs[i] + Flatten(cs[i + 1..])
  {
    Around(cs, i);
    FlattenBetween(cs[..i], cs[i], cs[i + 1..]);
  }

  lemma FindEncoded(s: Bytes) returns (l: Bytes, c: Bytes, m: Bytes)
    requires WellFormed(s) && !Plain(s)
    ensures s == l + c + m && IsCharacter(c) && Encoded(c[0])
    ensures WellFormed(l) && WellFormed(m)
  {
    var cs: seq<Bytes> :| Characters(cs) && Flatten(cs) == s;
    if i :| 0 <= i < |cs| && Encoded(cs[i][0]) {
      FlattenAround(cs, i);
      l, c, m := Flatten(cs[..i]), cs[i], Flatten(cs[i + 1..]);
      assert Characters(cs[..i]) && Characters(cs[i + 1..]);
    } else {
      PlainCharacters(cs);
    }
  }

  /** An encoded character and its encoding, spelled out, can be exchanged. */
  lemma Exchange(l: Bytes, c: Bytes, m: Bytes)
    requires IsCharacter(c) && Encoded(c[0]) && WellFormed(l) && WellFormed(m)
    ensures WellFormed(l + c + m) && WellFormed(l + EncodeFilename(c) + m)
    ensures EncodeFilename(l + c + m) == EncodeFilename(l + EncodeFilename(c) + m)
    ensures l + c + m != l + EncodeFilename(c) + m
  {
    EncodingIsPlain(c);
    PlainIsWellFormed(EncodeFilename(c));
    CharacterIsWellFormed(c);
    WellFormedAppend(l, c);
    WellFormedAppend(l + c, m);
    WellFormedAppend(l, EncodeFilename(c));
    WellFormedAppend(l + EncodeFilename(c), m);
    PlainStays(EncodeFilename(c));
    EncodeParts(l, c, m);
    EncodeParts(l, EncodeFilename(c), m);
    EncodingIsLonger(c);
  }

  lemma SomeoneShares(a: Bytes) returns (b: Bytes)
    requires WellFormed(a) && (!Plain(a) || Spells(a))
    ensures WellFormed(b) && EncodeFilename(b) == EncodeFilename(a) && b != a
  {
    if !Plain(a) {
      var l, c, m := FindEncoded(a);
      Exchange(l, c, m);
      b := l + EncodeFilename(c) + m;
    } else {
      var l, c, m :| IsCharacter(c) && Encoded(c[0]) && a == l + EncodeFilename(c) + m;
      assert forall i :: 0 <= i < |l| ==> l[i] == a[i];
      assert forall i :: 0 <= i < |m| ==> m[i] == a[|l + EncodeFilename(c)| + i];
      PlainIsWellFormed(l);
      PlainIsWellFormed(m);
      Exchange(l, c, m);
      b := l + c + m;
    }
  }

  lemma EncodingSpells(l: Bytes, c: Bytes, m: Bytes)
    requires IsCharacter(c) && Encoded(c[0])
    ensures Spells(EncodeFilename(l + c + m))
  {
    EncodeParts(l, c, m);
  }

  lemma NobodyShares(a: Bytes, b: Bytes)
    requires Plain(a) && !Spells(a) && WellFormed(b) && EncodeFilename(b) == EncodeFilename(a)
    ensures b == a
  {
    PlainStays(a);
    if Plain(b) {
      PlainStays(b);
    } else {
      var l, c, m := FindEncoded(b);
      EncodingSpells(l, c, m);
    }
  }

  /**
    No other name is saved as the same file exactly when the name is ASCII without slashes and does
    not spell out the encoding of a character that is encoded.
   */
  lemma SavedAloneExactly(a: Bytes)
    requires WellFormed(a)
    ensures (forall b :: WellFormed(b) && EncodeFilename(b) == EncodeFilename(a) ==> b == a) <==>
            Plain(a) && !Spells(a)
  {
    if Plain(a) && !Spells(a) {
      forall b | WellFormed(b) && EncodeFilename(b) == EncodeFilename(a) ensures b == a {
        NobodyShares(a, b);
      }
    } else {
      var b := SomeoneShares(a);
    }
  }

  /** Escapes are undone in either case of their letters. */
  lemma EitherCaseDecodes(b: Byte, rest: Bytes)
    ensures PercentDecode([PERCENT, HexDigit(b / 16), HexDigit(b % 16)] + rest) == [b] + PercentDecode(rest)
    ensures PercentDecode([PERCENT, Lower(HexDigit(b / 16)), Lower(HexDigit(b % 16))] + rest)
         == [b] + PercentDecode(rest)
  {
    var upper := [PERCENT, HexDigit(b / 16), HexDigit(b % 16)];
    var lower := [PERCENT, Lower(HexDigit(b / 16)), Lower(HexDigit(b % 16))];
    assert 16 * (b / 16) + b % 16 == b;
    DecodeEscape(upper, rest);
    DecodeEscape(lower, rest);
  }

  /** ASCII lower case. */
  function Lower(b: Byte): Byte {
    if 0x41 <= b <= 0x5A then b + 0x20 else b
  }

  /** A slash and the three characters of its escape are saved as the same file. */
  lemma EscapedSlashCollides(name: Bytes, rest: Bytes)
    requires name == [PERCENT, 0x32, 0x46] + rest
    ensures EncodeFilename(name) == EncodeFilename([SLASH] + rest)
  {
    EscapeInEncoding(name);
    assert name[3..] == rest && ([SLASH] + rest)[1..] == rest;
  }
}
