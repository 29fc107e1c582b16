/** The task that copies one of the child's output streams into packets for the coordinator. */
module OutputCopy {
  import opened Sequences
  import opened Utf8
  import opened Utf8Reading
  import opened Utf8BufReader
  import opened Wrappers

  const OUTPUT_BYTE_LIMIT: nat := 640 * 1024
  const USIZE_MAX: nat := 0xFFFF_FFFF_FFFF_FFFF

  function SaturatingAdd(a: nat, b: nat): nat {
    if a + b <= USIZE_MAX then a + b else USIZE_MAX
  }

  datatype CopyResult =
    | Done
    | UnableToRead(error: ReadResult)
    | UnableToSend
    | TooManyBytes(nTotalBytes: nat)

  /** The sending half of the channel to the coordinator; sending fails once nobody listens. */
  class PacketSender {
    var sent: seq<Bytes>
    ghost var failures: nat  // how many packets could not be sent

    method Send(packet: Bytes) returns (ok: bool)
      modifies this
      ensures sent == if ok then old(sent) + [packet] else old(sent)
      ensures failures == old(failures) + if ok then 0 else 1
    {
      if * {
        failures := failures + 1;
        return false;
      }
      sent := sent + [packet];
      return true;
    }
  }

  /** All that a finished copy of `input` may have forwarded, and what its result then says. */
  ghost predicate CopyOutcome(input: Bytes, packets: seq<Bytes>, r: CopyResult) {
    var good := input[..ValidUpTo(input)];
    var out := Flatten(packets);
    && out <= good
    && |out| <= OUTPUT_BYTE_LIMIT + DEFAULT_CAPACITY
    && match r
       case Done => out == good == input && |out| <= OUTPUT_BYTE_LIMIT
       case TooManyBytes(n) => n == |out| > OUTPUT_BYTE_LIMIT
       case UnableToSend => |out| <= OUTPUT_BYTE_LIMIT
       case UnableToRead(e) =>
         && |out| <= OUTPUT_BYTE_LIMIT
         && (e.ReaderFailed?
             || (out == good && |good| < |input| && e == Outcome(|input| - |good|)))
  }

  /** The pipe and the channel worked; any failure is about the bytes themselves. */
  predicate NothingBroke(r: CopyResult) {
    r != UnableToSend && r != UnableToRead(ReaderFailed)
  }

  /** Success means well-formed output within the limit, all of it forwarded; too many bytes, more than it. */
  ghost predicate DecidedByInput(input: Bytes, packets: seq<Bytes>, r: CopyResult) {
    && (r.Done? <==> WellFormed(input) && |input| <= OUTPUT_BYTE_LIMIT)
    && (r.Done? ==> Flatten(packets) == input)
    && (r.TooManyBytes? <==> ValidUpTo(input) > OUTPUT_BYTE_LIMIT)
  }

  /** A copy succeeds exactly for well-formed output within the limit, and then forwards all of it. */
  lemma CopySucceedsExactly(input: Bytes, packets: seq<Bytes>, r: CopyResult)
    requires CopyOutcome(input, packets, r) && NothingBroke(r)
    ensures DecidedByInput(input, packets, r)
  {
    WellFormedScan(input);
    assert input[..|input|] == input;
  }

  /** The packets sent so far and what is still to be read make up the input. */
  ghost predicate Copying(input: Bytes, packets: seq<Bytes>, todo: Bytes) {
    && WellFormed(Flatten(packets))
    && input == Flatten(packets) + todo
  }

  lemma CopyStarts(input: Bytes)
    ensures Copying(input, [], input)
  {
  }

  lemma CopyContinues(input: Bytes, packets: seq<Bytes>, todo: Bytes, next: ReadResult, todo': Bytes)
    requires Copying(input, packets, todo)
    requires Reads(todo, next, todo') && next.Chunk?
    ensures Copying(input, packets + [next.text], todo')
    ensures Flatten(packets + [next.text]) <= input[..ValidUpTo(input)]
    ensures Flatten(packets + [next.text]) == Flatten(packets) + next.text
    ensures 1 <= |next.text| <= DEFAULT_CAPACITY && |todo'| < |todo|
  {
    var out := Flatten(packets);
    FlattenSnoc(packets, next.text);
    assert input == (out + next.text) + todo';
    WellFormedAppend(out, next.text);
    ScanPastWellFormed(out + next.text, todo');
  }

  lemma CopyStops(input: Bytes, packets: seq<Bytes>, todo: Bytes, next: ReadResult)
    requires Copying(input, packets, todo) && |Flatten(packets)| <= OUTPUT_BYTE_LIMIT
    requires Reads(todo, next, []) && !next.Chunk?
    ensures var r := if next.End? then Done else UnableToRead(next);
            CopyOutcome(input, packets, r) && (next.ReaderFailed? || DecidedByInput(input, packets, r))
  {
    ScanPastWellFormed(Flatten(packets), todo);
    if !next.ReaderFailed? {
      FinalResult(todo, next);
      CopySucceedsExactly(input, packets, if next.End? then Done else UnableToRead(next));
    }
  }

  lemma CopyExceeds(input: Bytes, packets: seq<Bytes>)
    requires Flatten(packets) <= input[..ValidUpTo(input)]
    requires OUTPUT_BYTE_LIMIT < |Flatten(packets)| <= OUTPUT_BYTE_LIMIT + DEFAULT_CAPACITY
    ensures CopyOutcome(input, packets, TooManyBytes(|Flatten(packets)|))
    ensures DecidedByInput(input, packets, TooManyBytes(|Flatten(packets)|))
  {
    CopySucceedsExactly(input, packets, TooManyBytes(|Flatten(packets)|));
  }

  lemma CopyUnsent(input: Bytes, packets: seq<Bytes>, todo: Bytes)
    requires Copying(input, packets, todo) && |Flatten(packets)| <= OUTPUT_BYTE_LIMIT
    ensures CopyOutcome(input, packets, UnableToSend)
  {
    ScanPastWellFormed(Flatten(packets), todo);
  }

  /** Sends one more packet and counts its bytes; `stop` is how the copy ends, if it does. */
  method Forward(coordinatorTx: PacketSender, packet: Bytes, nTotalBytes: nat, ghost input: Bytes,
                 ghost before: seq<Bytes>, ghost packets: seq<Bytes>)
      returns (stop: Option<CopyResult>, n: nat, ghost forwarded: seq<Bytes>)
    requires coordinatorTx.sent == before + packets
    requires CopyOutcome(input, packets, UnableToSend) && nTotalBytes == |Flatten(packets)|
    requires |packet| <= DEFAULT_CAPACITY && Flatten(packets + [packet]) == Flatten(packets) + packet
    requires Flatten(packets + [packet]) <= input[..ValidUpTo(input)]
    modifies coordinatorTx
    ensures forwarded == if stop == Some(UnableToSend) then packets else packets + [packet]
    ensures coordinatorTx.sent == before + forwarded
    ensures coordinatorTx.failures == old(coordinatorTx.failures) + if stop == Some(UnableToSend) then 1 else 0
    ensures stop.None? ==> n == |Flatten(forwarded)| <= OUTPUT_BYTE_LIMIT
    ensures stop.Some? ==> CopyOutcome(input, forwarded, stop.value) && !stop.value.UnableToRead?
    ensures stop.Some? && !stop.value.UnableToSend? ==> DecidedByInput(input, forwarded, stop.value)
  {
    var ok := coordinatorTx.Send(packet);
    if !ok {
      return Some(UnableToSend), nTotalBytes, packets;
    }
    forwarded := packets + [packet];
    n := SaturatingAdd(nTotalBytes, |packet|);
    if n > OUTPUT_BYTE_LIMIT {
      CopyExceeds(input, forwarded);
      return Some(TooManyBytes(n)), n, forwarded;
    }
    stop := None;
  }

  method CopyChildOutput(output: ByteSource, coordinatorTx: PacketSender)
    returns (r: CopyResult, ghost packets: seq<Bytes>)
    modifies output, coordinatorTx
    ensures coordinatorTx.sent == old(coordinatorTx.sent) + packets
    ensures CopyOutcome(old(output.pending), packets, r)
    ensures output.failures == old(output.failures) + if r == UnableToRead(ReaderFailed) then 1 else 0
    ensures coordinatorTx.failures == old(coordinatorTx.failures) + if r.UnableToSend? then 1 else 0
    ensures output.failures == old(output.failures) && coordinatorTx.failures == old(coordinatorTx.failures) ==>
              DecidedByInput(old(output.pending), packets, r)
  {
    ghost var input, before := output.pending, coordinatorTx.sent;
    var buf := new Utf8BufReader(output);
    var nTotalBytes: nat := 0;
    packets := [];
    CopyStarts(input);

    while true
      invariant buf.Valid() && buf.reader == output && fresh(buf) && fresh(buf.buffer)
      invariant coordinatorTx.sent == before + packets
      invariant output.failures == old(output.failures) && coordinatorTx.failures == old(coordinatorTx.failures)
      invariant Copying(input, packets, buf.Todo())
      invariant nTotalBytes == |Flatten(packets)| <= OUTPUT_BYTE_LIMIT
      decreases |buf.Todo()|
    {
      ghost var todo := buf.Todo();
      var next, _ := buf.Next();
      if !next.Chunk? {
        CopyStops(input, packets, todo, next);
        r := if next.End? then Done else UnableToRead(next);
        return;
      }
      CopyContinues(input, packets, todo, next, buf.Todo());
      CopyUnsent(input, packets, todo);
      var stop;
      stop, nTotalBytes, packets := Forward(coordinatorTx, next.text, nTotalBytes, input, before, packets);
      if stop.Some? {
        r := stop.value;
        return;
      }
    }
  }
}
