/**
  What one call to `Utf8BufReader::next` may return, and what follows for every
  sequence of calls, however the operating system splits the child's output into reads.
 */
module Utf8Reading {
  import opened Utf8

  const DEFAULT_CAPACITY: nat := 32 * 1024

  datatype ReadResult =
    | Chunk(text: Bytes)
    | End
    | RanOutOfInput
    | InvalidUtf8
    | ReaderFailed

  /**
    With `todo` still to be returned (kept incomplete bytes, then unread input), a call may
    return `r` and leave `todo'`. What an error leaves behind is of no interest.
   */
  ghost predicate Reads(todo: Bytes, r: ReadResult, todo': Bytes) {
    match r
    case Chunk(text) =>
      && 1 <= |text| <= DEFAULT_CAPACITY
      && WellFormed(text)
      && todo == text + todo'
    case End => todo == todo' == []
    case RanOutOfInput => 1 <= |todo| <= 3 && ValidUpTo(todo) == 0
    case InvalidUtf8 => 4 <= |todo| && ValidUpTo(todo) == 0
    case ReaderFailed => true
  }

  /** `rs` are the results of calling until the first one that is not a string. */
  ghost predicate Drains(input: Bytes, rs: seq<ReadResult>) {
    && rs != []
    && if rs[0].Chunk? then
         && rs[0].text <= input
         && Reads(input, rs[0], input[|rs[0].text|..])
         && Drains(input[|rs[0].text|..], rs[1..])
       else
         && |rs| == 1
         && Reads(input, rs[0], [])
  }

  function Returned(rs: seq<ReadResult>): Bytes {
    if rs == [] then []
    else (if rs[0].Chunk? then rs[0].text else []) + Returned(rs[1..])
  }

  function Outcome(leftover: nat): ReadResult {
    if leftover == 0 then End else if leftover <= 3 then RanOutOfInput else InvalidUtf8
  }

  lemma FinalResult(input: Bytes, r: ReadResult)
    requires Reads(input, r, []) && !r.Chunk? && !r.ReaderFailed?
    ensures ValidUpTo(input) == 0 && r == Outcome(|input|)
  {
  }

  lemma FirstChunk(input: Bytes, rs: seq<ReadResult>)
    requires Drains(input, rs) && rs[0].Chunk?
    ensures WellFormed(rs[0].text) && rs[0].text <= input && input == rs[0].text + input[|rs[0].text|..]
    ensures Drains(input[|rs[0].text|..], rs[1..]) && Returned(rs) == rs[0].text + Returned(rs[1..])
    ensures |rs| > 1 && rs[1..][|rs[1..]| - 1] == rs[|rs| - 1]
  {
  }

  lemma OneResult(input: Bytes, r: ReadResult)
    requires Reads(input, r, []) && !r.Chunk?
    ensures Returned([r]) == []
    ensures r != ReaderFailed ==> ValidUpTo(input) == 0 && r == Outcome(|input|)
  {
  }

  /** The strings are the beginning that they should be, and all of it unless the reader failed. */
  ghost predicate Exhausts(input: Bytes, returned: Bytes, last: ReadResult) {
    && returned <= input[..ValidUpTo(input)]
    && (last != ReaderFailed ==>
          && returned == input[..ValidUpTo(input)]
          && last == Outcome(|input| - ValidUpTo(input)))
  }

  lemma PrefixShift(text: Bytes, a: Bytes, b: Bytes)
    requires a <= b
    ensures text + a <= text + b
  {
  }

  lemma ThenTheRest(text: Bytes, rest: Bytes, more: Bytes, last: ReadResult)
    requires WellFormed(text) && Exhausts(rest, more, last)
    ensures Exhausts(text + rest, text + more, last)
  {
    ScanSplit(text, rest);
    PrefixShift(text, more, rest[..ValidUpTo(rest)]);
  }

  /**
    Chunk independence: unless the underlying reader fails, the strings make up the longest
    well-formed prefix of the input, and the last result is decided by how many bytes remain.
   */
  lemma {:induction false} DrainReturnsLongestPrefix(input: Bytes, rs: seq<ReadResult>)
    requires Drains(input, rs)
    ensures Exhausts(input, Returned(rs), rs[|rs| - 1])
  {
    if rs[0].Chunk? {
      var text, rest := rs[0].text, input[|rs[0].text|..];
      FirstChunk(input, rs);
      DrainReturnsLongestPrefix(rest, rs[1..]);
      ThenTheRest(text, rest, Returned(rs[1..]), rs[|rs| - 1]);
    } else {
      OneResult(input, rs[0]);
      assert rs == [rs[0]];
    }
  }

  /** Two ways of splitting the same input cannot be told apart by what is returned. */
  lemma SplitsAgree(input: Bytes, rs: seq<ReadResult>, rs': seq<ReadResult>)
    requires Drains(input, rs) && rs[|rs| - 1] != ReaderFailed
    requires Drains(input, rs') && rs'[|rs'| - 1] != ReaderFailed
    ensures Returned(rs) == Returned(rs') && rs[|rs| - 1] == rs'[|rs'| - 1]
  {
    DrainReturnsLongestPrefix(input, rs);
    DrainReturnsLongestPrefix(input, rs');
  }
}

/** The reader itself, over a fixed buffer that it overwrites. */
module Utf8BufReader {
  import opened Utf8
  import opened Utf8Reading
  import opened Wrappers

  /** A child's output pipe. Each read may return any non-empty part of what is left, or fail. */
  class ByteSource {
    var pending: Bytes
    ghost var failures: nat  // how many reads have failed

    constructor (bytes: Bytes)
      ensures pending == bytes && failures == 0
    {
      pending, failures := bytes, 0;
    }

    /** Fills `buffer` from `start` on; `None` is an I/O error. */
    method Read(buffer: array<Byte>, start: nat) returns (n: Option<nat>)
      requires start <= buffer.Length
      modifies this, buffer
      ensures failures == old(failures) + if n.None? then 1 else 0
      ensures n.None? ==> pending == old(pending)
      ensures n.Some? ==>
                && n.value <= |old(pending)|
                && start + n.value <= buffer.Length
                && pending == old(pending)[n.value..]
                && buffer[start..start + n.value] == old(pending)[..n.value]
                && (n.value == 0 <==> old(pending) == [] || start == buffer.Length)
      ensures buffer[..start] == old(buffer[..start])
    {
      if * {
        failures := failures + 1;
        return None;
      }
      var room := buffer.Length - start;
      var most := if |pending| <= room then |pending| else room;
      var k: nat :| k <= most && (k == 0 ==> most == 0);
      forall i | 0 <= i < k {
        buffer[start + i] := pending[i];
      }
      assert buffer[start..start + k] == pending[..k];
      pending := pending[k..];
      return Some(k);
    }
  }

  /** `slice::copy_within(from..to, 0)`. */
  method CopyWithin(buffer: array<Byte>, from: nat, to: nat)
    requires from <= to <= buffer.Length
    modifies buffer
    ensures buffer[..to - from] == old(buffer[from..to])
  {
    for i := 0 to to - from
      invariant forall k :: 0 <= k < i ==> buffer[k] == old(buffer[from + k])
      invariant forall k :: i <= k < buffer.Length ==> buffer[k] == old(buffer[k])
    {
      buffer[i] := buffer[from + i];
    }
  }

  lemma ChunkIsRead(text: Bytes, n: nat, unread: Bytes)
    requires 0 < n <= |text| <= DEFAULT_CAPACITY && WellFormed(text[..n])
    ensures Reads(text + unread, Chunk(text[..n]), text[n..] + unread)
  {
    assert text + unread == text[..n] + (text[n..] + unread);
  }

  lemma NoCharacterBegins(text: Bytes, unread: Bytes)
    requires ValidUpTo(text) == 0 && 4 <= |text|
    ensures Reads(text + unread, InvalidUtf8, [])
  {
    FourBytesDecide(text, unread);
  }

  lemma InputIsShort(text: Bytes)
    requires ValidUpTo(text) == 0 && 1 <= |text| <= 3
    ensures Reads(text + [], RanOutOfInput, [])
  {
    assert text + [] == text;
  }

  /** How many of the bytes in the buffer a call can return, with `unread` still to come after them. */
  method ValidBytes(text: Bytes, ghost unread: Bytes) returns (n: nat)
    requires |text| <= DEFAULT_CAPACITY
    ensures n <= |text|
    ensures n > 0 ==> Reads(text + unread, Chunk(text[..n]), text[n..] + unread)
    ensures n == 0 && 4 <= |text| ==> Reads(text + unread, InvalidUtf8, [])
    ensures n == 0 && 1 <= |text| <= 3 && unread == [] ==> Reads(text + unread, RanOutOfInput, [])
    ensures ValidUpTo(text[n..]) == 0
  {
    n := ValidUpTo(text);
    ScanStops(text);
    if n > 0 {
      ScannedIsWellFormed(text);
      ChunkIsRead(text, n, unread);
    } else if 4 <= |text| {
      NoCharacterBegins(text, unread);
    } else if text != [] && unread == [] {
      InputIsShort(text);
    }
  }

  class Utf8BufReader {
    const reader: ByteSource
    const buffer: array<Byte>
    var nIncomplete: nat

    /** The slice handed to each read is never empty, so a read of zero bytes means end of input. */
    ghost predicate Valid()
      reads this
    {
      buffer.Length == DEFAULT_CAPACITY && nIncomplete < buffer.Length
    }

    /** What has not been returned yet. */
    ghost function Todo(): Bytes
      requires Valid()
      reads this, buffer, reader
    {
      buffer[..nIncomplete] + reader.pending
    }

    constructor (reader: ByteSource)
      ensures Valid() && fresh(buffer) && this.reader == reader
      ensures Todo() == reader.pending
    {
      this.reader := reader;
      buffer := new Byte[DEFAULT_CAPACITY];
      nIncomplete := 0;
    }

    /** Moves the bytes not returned yet to the front. */
    method KeepFrom(from: nat, to: nat)
      requires buffer.Length == DEFAULT_CAPACITY && from <= to <= buffer.Length && to - from < buffer.Length
      modifies this`nIncomplete, buffer
      ensures nIncomplete == to - from && buffer[..nIncomplete] == old(buffer[from..to])
      ensures Valid() && Todo() == old(buffer[from..to]) + reader.pending
    {
      CopyWithin(buffer, from, to);
      nIncomplete := to - from;
    }

    /** Reads once, into the slice after the incomplete bytes. */
    method Fill() returns (n: Option<nat>)
      requires Valid()
      modifies buffer, reader
      ensures Valid() && nIncomplete == old(nIncomplete)
      ensures n.Some? ==> nIncomplete + n.value <= buffer.Length
      ensures n.Some? ==> buffer[..nIncomplete + n.value] + reader.pending == old(Todo())
      ensures n == Some(0) ==> reader.pending == []
      ensures reader.failures == old(reader.failures) + if n.None? then 1 else 0
    {
      ghost var kept, pending := buffer[..nIncomplete], reader.pending;
      n := reader.Read(buffer, nIncomplete);
      if n.Some? {
        assert buffer[..nIncomplete + n.value] == kept + pending[..n.value];
        assert pending == pending[..n.value] + pending[n.value..];
        assert kept + pending[..n.value] + pending[n.value..] == kept + pending;
      }
    }

    /**
      Returns the next string, which is all that can be returned of what has been read; `nReads` counts
      the reads it took. It reports a failed reader exactly when a read has failed.
     */
    method Next() returns (r: ReadResult, ghost nReads: nat)
      requires Valid()
      modifies this, buffer, reader
      ensures Valid()
      ensures Reads(old(Todo()), r, if r.Chunk? || r.End? then Todo() else [])
      ensures reader.failures == old(reader.failures) + if r.ReaderFailed? then 1 else 0
      ensures r.Chunk? ==> ValidUpTo(buffer[..nIncomplete]) == 0
      ensures 1 <= nReads <= 4
    {
      nReads := 0;
      while true
        invariant Valid()
        invariant Todo() == old(Todo()) && reader.failures == old(reader.failures)
        invariant nReads != 0 ==> nReads <= nIncomplete <= 3
        decreases buffer.Length - nIncomplete
      {
        var n := Fill();
        nReads := nReads + 1;
        if n.None? {
          return ReaderFailed, nReads;
        }
        var nRead := n.value;
        var nValid := nIncomplete + nRead;

        if nRead == 0 && nIncomplete == 0 {
          return End, nReads;
        }

        var text := buffer[..nValid];
        assert text + reader.pending == old(Todo());
        var nValidUtf8 := ValidBytes(text, reader.pending);

        if nValidUtf8 == 0 {
          if 4 <= nValid {
            return InvalidUtf8, nReads;
          }
          if nRead == 0 {
            return RanOutOfInput, nReads;
          }
        }

        var s := text[..nValidUtf8];
        assert buffer[nValidUtf8..nValid] == text[nValidUtf8..];
        KeepFrom(nValidUtf8, nValid);

        if s != [] {
          return Chunk(s), nReads;
        }
        assert text[0..] == text;
      }
    }
  }

  predicate Fails(rs: seq<ReadResult>) {
    rs != [] && rs[|rs| - 1].ReaderFailed?
  }

  lemma DrainsOn(todo: Bytes, r: ReadResult, todo': Bytes, rest: seq<ReadResult>)
    requires r.Chunk? && Reads(todo, r, todo') && rest != [] && Drains(todo', rest)
    ensures Drains(todo, [r] + rest) && Fails([r] + rest) == Fails(rest)
  {
    assert todo[|r.text|..] == todo' && ([r] + rest)[1..] == rest;
  }

  /** Calls until the first result that is not a string. */
  method ReadAll(buf: Utf8BufReader) returns (rs: seq<ReadResult>)
    requires buf.Valid()
    modifies buf, buf.buffer, buf.reader
    ensures rs != [] && Drains(old(buf.Todo()), rs)
    ensures buf.reader.failures == old(buf.reader.failures) + if Fails(rs) then 1 else 0
    decreases |buf.Todo()|
  {
    var r, _ := buf.Next();
    if r.Chunk? {
      ghost var todo := buf.Todo();
      var rest := ReadAll(buf);
      rs := [r] + rest;
      DrainsOn(old(buf.Todo()), r, todo, rest);
    } else {
      rs := [r];
    }
  }

  /**
    Reads a child's output to its end, however the operating system splits it. If no read fails, the
    strings make up the longest well-formed beginning, and the last result says what follows it.
   */
  method ReadChild(output: ByteSource) returns (rs: seq<ReadResult>)
    modifies output
    ensures rs != [] && Exhausts(old(output.pending), Returned(rs), rs[|rs| - 1])
    ensures output.failures == old(output.failures) + if Fails(rs) then 1 else 0
  {
    ghost var input := output.pending;
    var buf := new Utf8BufReader(output);
    rs := ReadAll(buf);
    DrainReturnsLongestPrefix(input, rs);
  }
}
