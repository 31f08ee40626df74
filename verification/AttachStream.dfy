/** The attach client's output path: cursor verification, frame batching and credits. */
module AttachStream {
  import opened Bytes

  const MAX_BATCHED_FRAME_BYTES: nat := 1024 * 1024
  const MAX_FRAME_DATA_BYTES: nat := 1024 * 1024  // cap of an output frame, less its offset field
  const ACK_STRIDE_BYTES: nat := 1024 * 1024
  const U64_MAX: nat := U64_LIMIT - 1

  datatype StreamError =
    | CursorMismatch(expected: nat, offset: nat)
    | Unaccounted(finalOffset: nat)
    | Reported
    | ReadFailed

  /** Tracks the next expected stream offset for one attach session. */
  class StreamCursor {
    var expected: nat

    constructor (snapshotEnd: nat)
      ensures expected == snapshotEnd
    {
      expected := snapshotEnd;
    }

    /** Applies a chunk only at exactly the expected offset; the cursor saturates at the u64 maximum. */
    method Accept(offset: nat, len: nat) returns (r: Option<StreamError>)
      modifies this
      ensures r == if offset == old(expected) then None else Some(CursorMismatch(old(expected), offset))
      ensures expected == if r.None? then Min(offset + len, U64_MAX) else old(expected)
    {
      if offset != expected {
        return Some(CursorMismatch(expected, offset));
      }
      expected := Min(offset + len, U64_MAX);
      r := None;
    }

    /** A final offset of zero means that the sender did not know it. */
    method Finish(finalOffset: nat) returns (r: Option<StreamError>)
      ensures r == if finalOffset == 0 || finalOffset == expected then None else Some(Unaccounted(finalOffset))
    {
      if finalOffset != 0 && finalOffset != expected {
        return Some(Unaccounted(finalOffset));
      }
      r := None;
    }
  }

  /** What the reader task queues for the render loop. */
  datatype Incoming =
    | Output(offset: nat, data: seq<byte>)
    | Done(finalOffset: nat)
    | ErrorNotice
    | OtherNotice  // mode and resize notices: no effect on the output path
    | Broken       // the reader failed; nothing follows

  /** An output frame carries the slice of the canonical stream that its offset names. */
  predicate Genuine(stream: seq<byte>, frame: Incoming) {
    frame.Output? ==>
      && |frame.data| <= MAX_FRAME_DATA_BYTES
      && frame.offset + |frame.data| <= |stream|
      && frame.data == stream[frame.offset..frame.offset + |frame.data|]
  }

  predicate AllGenuine(stream: seq<byte>, queue: seq<Incoming>) {
    forall i :: 0 <= i < |queue| ==> Genuine(stream, queue[i])
  }

  /** Output bytes carried by a run of frames. */
  function DataBytes(frames: seq<Incoming>): (n: nat) {
    if frames == [] then 0
    else
      var last := frames[|frames| - 1];
      DataBytes(frames[..|frames| - 1]) + (if last.Output? then |last.data| else 0)
  }

  lemma {:induction false} DataBytesConcat(a: seq<Incoming>, b: seq<Incoming>, whole: seq<Incoming>)
    requires whole == a + b
    ensures DataBytes(whole) == DataBytes(a) + DataBytes(b)
    decreases |b|
  {
    if b == [] {
      assert whole == a;
    } else {
      var k := |b| - 1;
      DataBytesConcat(a, b[..k], whole[..|whole| - 1]);
    }
  }

  /** A frame that a fault-free daemon sends when the stream stands at `at`. */
  predicate Expected(frame: Incoming, at: nat) {
    match frame
    case Output(offset, _) => offset == at
    case Done(finalOffset) => finalOffset == 0 || finalOffset == at
    case ErrorNotice => false
    case OtherNotice => true
    case Broken => false
  }

  /** What is reported when a frame is not the one expected. */
  function ErrorOf(frame: Incoming, at: nat): (e: StreamError) {
    match frame
    case Output(offset, _) => CursorMismatch(at, offset)
    case Done(finalOffset) => Unaccounted(finalOffset)
    case Broken => ReadFailed
    case _ => Reported
  }

  /** No gap, no repetition and no failure among the frames. */
  predicate InOrder(frames: seq<Incoming>, at: nat) {
    frames != [] ==>
      var k := |frames| - 1;
      InOrder(frames[..k], at) && Expected(frames[k], at + DataBytes(frames[..k]))
  }

  /** Frames in order: every output begins where the one before has ended, and nothing reports a failure. */
  lemma {:induction false} InOrderMeans(frames: seq<Incoming>, at: nat, i: nat)
    requires InOrder(frames, at) && i < |frames|
    ensures frames[i].Output? ==> frames[i].offset == at + DataBytes(frames[..i])
    ensures frames[i].Done? && frames[i].finalOffset != 0 ==> frames[i].finalOffset == at + DataBytes(frames[..i])
    ensures !frames[i].ErrorNotice? && !frames[i].Broken?
    decreases |frames|
  {
    hide DataBytes;
    var front := frames[..|frames| - 1];
    if i < |front| {
      InOrderMeans(front, at, i);
      assert front[..i] == frames[..i];
    }
  }

  lemma InOrderSnoc(queue: seq<Incoming>, n: nat, at: nat)
    requires n < |queue|
    ensures InOrder(queue[..n + 1], at) <==> InOrder(queue[..n], at) && Expected(queue[n], at + DataBytes(queue[..n]))
    ensures DataBytes(queue[..n + 1]) == DataBytes(queue[..n]) + (if queue[n].Output? then |queue[n].data| else 0)
  {
    assert queue[..n + 1][..n] == queue[..n];
  }

  lemma {:induction false} InOrderConcat(a: seq<Incoming>, b: seq<Incoming>, whole: seq<Incoming>, at: nat)
    requires whole == a + b
    ensures InOrder(whole, at) <==> InOrder(a, at) && InOrder(b, at + DataBytes(a))
    decreases |b|
  {
    if b == [] {
      assert whole == a;
    } else {
      var k := |b| - 1;
      var front := whole[..|whole| - 1];
      InOrderConcat(a, b[..k], front, at);
      DataBytesConcat(a, b[..k], front);
    }
  }

  class AttachClient {
    const cursor: StreamCursor
    const snapshotEnd: nat
    var written: seq<byte>               // output sent to the terminal after the snapshot
    var lastAcked: nat
    var credits: seq<nat>                // applied-cursor credits sent to the daemon
    var running: bool                    // the render loop goes on
    var streamError: Option<StreamError>

    /** Everything applied so far has been written, and it is the stream from the snapshot on. */
    ghost predicate Synced(stream: seq<byte>)
      reads this, cursor
    {
      && snapshotEnd <= cursor.expected <= |stream|
      && written == stream[snapshotEnd..cursor.expected]
    }

    ghost predicate Valid(stream: seq<byte>)
      reads this, cursor
    {
      && Synced(stream)
      && |stream| + ACK_STRIDE_BYTES <= U64_MAX
      && CreditsOk(credits, snapshotEnd + |written|, written != []) && lastAcked == LastCredit(credits)
      && (running ==> streamError.None?)
    }

    constructor (ghost stream: seq<byte>, snapshotEnd: nat)
      requires snapshotEnd <= |stream| && |stream| + ACK_STRIDE_BYTES <= U64_MAX
      ensures Valid(stream) && fresh(cursor) && running
      ensures this.snapshotEnd == snapshotEnd && written == []
    {
      cursor := new StreamCursor(snapshotEnd);
      this.snapshotEnd := snapshotEnd;
      written, lastAcked, credits, running, streamError := [], 0, [], true, None;
    }

    method MaybeSendAck()
      modifies this`lastAcked, this`credits
      ensures if cursor.expected >= old(lastAcked) + ACK_STRIDE_BYTES
              then lastAcked == cursor.expected && credits == old(credits) + [cursor.expected]
              else unchanged(`lastAcked) && unchanged(`credits)
    {
      if cursor.expected >= lastAcked + ACK_STRIDE_BYTES {
        credits := credits + [cursor.expected];
        lastAcked := cursor.expected;
      }
    }

    /** Drain queued frames into one batch while they are available and the batch is small. */
    method Drain(queue: seq<Incoming>, available: nat, ghost stream: seq<byte>)
      returns (batch: seq<byte>, taken: nat)
      requires AllGenuine(stream, queue) && cursor.expected <= |stream| <= U64_MAX
      requires running && streamError.None? && 1 <= available <= |queue|
      modifies this`running, this`streamError, cursor
      ensures 1 <= taken <= available
      ensures old(cursor.expected) <= cursor.expected <= |stream|
      ensures batch == stream[old(cursor.expected)..cursor.expected]
      ensures |batch| < 2 * MAX_BATCHED_FRAME_BYTES
      ensures |batch| == DataBytes(Applied(queue, taken, streamError))
      // it goes on while there is something and room
      ensures running && taken < available ==> |batch| >= MAX_BATCHED_FRAME_BYTES
      ensures Stopped(queue, taken, old(cursor.expected), running, streamError)
    {
      hide DataBytes, InOrder, AllGenuine, Stopped;
      batch := [];
      ghost var base := cursor.expected;
      taken := 0;
      var more := true;
      Idle(queue, base);
      while more
        invariant taken <= available
        invariant if more then taken < available && running && |batch| < MAX_BATCHED_FRAME_BYTES else 1 <= taken
        invariant base <= cursor.expected <= |stream| && batch == stream[base..cursor.expected]
        invariant |batch| < 2 * MAX_BATCHED_FRAME_BYTES
        invariant more || !running || taken == available || |batch| >= MAX_BATCHED_FRAME_BYTES
        invariant running ==> streamError.None?
        invariant streamError.Some? ==> taken > 0
        invariant Stopped(queue, taken, base, running, streamError)
        invariant |batch| == DataBytes(Applied(queue, taken, streamError))
        decreases more, available - taken
      {
        var frame := queue[taken];
        GenuineAt(stream, queue, taken);
        taken := taken + 1;
        match frame {
          case Output(offset, data) =>
            streamError := cursor.Accept(offset, |data|);
            if streamError.Some? {
              running := false;
            } else {
              batch := batch + data;
              SliceGrows(stream, base, offset, cursor.expected);
            }
          case Done(final) =>
            streamError := cursor.Finish(final);
            running := false;
          case ErrorNotice =>
            streamError, running := Some(Reported), false;
          case OtherNotice =>
          case Broken =>
            streamError, running := Some(ReadFailed), false;
        }
        StopStep(queue, taken - 1, base, running, streamError);
        if !running || |batch| >= MAX_BATCHED_FRAME_BYTES || taken == available {
          more := false;
        }
      }
    }

    /** One turn of the render loop: drain a batch, write it at once, then report the cursor. */
    method HandleFrames(queue: seq<Incoming>, available: nat, ghost stream: seq<byte>) returns (taken: nat)
      requires Valid(stream) && AllGenuine(stream, queue)
      requires running && 1 <= available <= |queue|
      modifies this, cursor
      ensures Valid(stream)
      ensures 1 <= taken <= available
      ensures |written| - |old(written)| < 2 * MAX_BATCHED_FRAME_BYTES
      // no byte of a frame that was applied is missing, and the turn ends as its frames demand
      ensures |written| == |old(written)| + DataBytes(Applied(queue, taken, streamError))
      ensures running && taken < available ==> |written| - |old(written)| >= MAX_BATCHED_FRAME_BYTES
      ensures Stopped(queue, taken, old(cursor.expected), running, streamError)
    {
      hide DataBytes, InOrder, Expected, AllGenuine, CreditsOk;
      ghost var base := cursor.expected;
      Idle(queue, base);
      if queue[0].Broken? {
        streamError, running := Some(ReadFailed), false;
        BrokenFirst(queue, base, streamError);
        return 1;
      }
      var batch;
      batch, taken := Drain(queue, available, stream);
      SliceGrows(stream, snapshotEnd, base, cursor.expected);
      if batch != [] {
        ghost var earlier := credits;
        written := written + batch;
        MaybeSendAck();
        CreditsAdvance(earlier, snapshotEnd + |old(written)|, old(written) != [], credits, cursor.expected);
      }
    }
  }

  /** The frames whose effect was applied: all that were taken, but not one that was in error. */
  function Applied(queue: seq<Incoming>, taken: nat, error: Option<StreamError>): (r: seq<Incoming>)
    requires taken <= |queue| && (error.Some? ==> taken > 0)
  {
    if error.None? then queue[..taken] else queue[..taken - 1]
  }

  /**
    * Why the loop stands where it does. It is in error exactly when the last frame taken is out of
    * place or reports a failure, and the error says which; otherwise it has stopped exactly when that
    * frame completes the stream, and a final offset that it names is where the stream stands.
    */
  ghost predicate Stopped(queue: seq<Incoming>, taken: nat, at: nat, running: bool, error: Option<StreamError>) {
    && taken <= |queue| && (error.Some? ==> taken > 0 && !running)
    && InOrder(Applied(queue, taken, error), at)
    && (error.Some? ==>
          && !Expected(queue[taken - 1], at + DataBytes(queue[..taken - 1]))
          && error.value == ErrorOf(queue[taken - 1], at + DataBytes(queue[..taken - 1])))
    && (error.None? ==> (!running <==> taken > 0 && queue[taken - 1].Done?))
    && (taken > 0 ==> NoDone(queue[..taken - 1]))
  }

  predicate NoDone(frames: seq<Incoming>) {
    forall i :: 0 <= i < |frames| ==> !frames[i].Done?
  }

  lemma NoDoneConcat(a: seq<Incoming>, b: seq<Incoming>, whole: seq<Incoming>)
    requires whole == a + b
    ensures NoDone(whole) <==> NoDone(a) && NoDone(b)
  {
    assert forall i :: 0 <= i < |a| ==> whole[i] == a[i];
    assert forall i :: 0 <= i < |b| ==> whole[|a| + i] == b[i];
  }

  /** One frame more. */
  lemma StopStep(queue: seq<Incoming>, n: nat, at: nat, running: bool, error: Option<StreamError>)
    requires n < |queue| && Stopped(queue, n, at, true, None)
    requires error.None? <==> Expected(queue[n], at + DataBytes(queue[..n]))
    requires error.Some? ==> error.value == ErrorOf(queue[n], at + DataBytes(queue[..n]))
    requires running <==> error.None? && !queue[n].Done?
    ensures Stopped(queue, n + 1, at, running, error)
    ensures DataBytes(Applied(queue, n + 1, error)) ==
      DataBytes(queue[..n]) + (if error.None? && queue[n].Output? then |queue[n].data| else 0)
  {
    InOrderSnoc(queue, n, at);
    NoDoneSoFar(queue, n, at);
  }

  lemma Idle(queue: seq<Incoming>, at: nat)
    ensures Stopped(queue, 0, at, true, None) && DataBytes(Applied(queue, 0, None)) == 0
  {
  }

  lemma BrokenFirst(queue: seq<Incoming>, at: nat, error: Option<StreamError>)
    requires queue != [] && queue[0].Broken? && error == Some(ReadFailed)
    ensures Stopped(queue, 1, at, false, error) && DataBytes(Applied(queue, 1, error)) == 0
  {
  }

  // ----- credits -----

  function LastCredit(credits: seq<nat>): (c: nat) {
    if credits == [] then 0 else credits[|credits| - 1]
  }

  /** Each credit is at least one stride past the one before. */
  predicate Spaced(credits: seq<nat>) {
    credits != [] ==>
      var earlier := credits[..|credits| - 1];
      Spaced(earlier) && LastCredit(earlier) + ACK_STRIDE_BYTES <= LastCredit(credits)
  }

  /**
    * Credits are at least one stride apart and never run ahead of what was written; once something
    * was written they lag less than one stride behind it.
    */
  predicate CreditsOk(credits: seq<nat>, applied: nat, any: bool) {
    && Spaced(credits) && LastCredit(credits) <= applied
    && (any ==> applied < LastCredit(credits) + ACK_STRIDE_BYTES)
  }

  lemma CreditsAdvance(credits: seq<nat>, before: nat, any: bool, credits': seq<nat>, applied: nat)
    requires CreditsOk(credits, before, any) && before <= applied
    requires if applied >= LastCredit(credits) + ACK_STRIDE_BYTES then credits' == credits + [applied]
             else credits' == credits
    ensures CreditsOk(credits', applied, true)
  {
    if credits' != credits {
      assert credits'[..|credits'| - 1] == credits;
    }
  }

  /** Two turns, one after the other. */
  lemma TakeMore(queue: seq<Incoming>, n: nat, k: nat, rest: seq<Incoming>, at: nat, running: bool,
                 error: Option<StreamError>)
    requires n + k <= |queue| && rest == queue[n..] && k > 0
    requires Stopped(queue, n, at, true, None)
    requires Stopped(rest, k, at + DataBytes(queue[..n]), running, error)
    ensures Stopped(queue, n + k, at, running, error)
    ensures DataBytes(Applied(queue, n + k, error)) == DataBytes(queue[..n]) + DataBytes(Applied(rest, k, error))
  {
    hide DataBytes, InOrder, Expected, NoDone;
    assert queue[n + k - 1] == rest[k - 1];
    TakeUpTo(queue, n, k, rest, at);
    TakeUpTo(queue, n, k - 1, rest, at);
    NoDoneSoFar(queue, n, at);
  }

  lemma TakeUpTo(queue: seq<Incoming>, n: nat, m: nat, rest: seq<Incoming>, at: nat)
    requires n + m <= |queue| && rest == queue[n..]
    ensures DataBytes(queue[..n + m]) == DataBytes(queue[..n]) + DataBytes(rest[..m])
    ensures InOrder(queue[..n + m], at) <==> InOrder(queue[..n], at) && InOrder(rest[..m], at + DataBytes(queue[..n]))
    ensures NoDone(queue[..n + m]) <==> NoDone(queue[..n]) && NoDone(rest[..m])
  {
    hide DataBytes, InOrder, Expected, NoDone;
    SliceSplit(queue, n, m);
    DataBytesConcat(queue[..n], rest[..m], queue[..n + m]);
    InOrderConcat(queue[..n], rest[..m], queue[..n + m], at);
    NoDoneConcat(queue[..n], rest[..m], queue[..n + m]);
  }

  lemma NoDoneSoFar(queue: seq<Incoming>, n: nat, at: nat)
    requires Stopped(queue, n, at, true, None)
    ensures NoDone(queue[..n])
  {
    if n > 0 {
      NoDoneConcat(queue[..n - 1], [queue[n - 1]], queue[..n]);
    }
  }

  lemma GenuineAt(stream: seq<byte>, queue: seq<Incoming>, i: nat)
    requires AllGenuine(stream, queue) && i < |queue|
    ensures Genuine(stream, queue[i])
  {
  }

  lemma RestIsGenuine(stream: seq<byte>, queue: seq<Incoming>, n: nat, rest: seq<Incoming>)
    requires n <= |queue| && rest == queue[n..] && AllGenuine(stream, queue)
    ensures AllGenuine(stream, rest)
  {
  }

  lemma SliceGrows(stream: seq<byte>, a: nat, b: nat, c: nat)
    requires a <= b <= c <= |stream|
    ensures stream[a..b] + stream[b..c] == stream[a..c]
  {
  }

  /**
    * A whole attach session under an arbitrary batching schedule. The terminal receives exactly the
    * stream from the snapshot boundary to the cursor, and that is every byte of the frames taken;
    * the session stops exactly at a completion notice or an error, and a completion that is
    * accepted with a known final offset means that nothing is missing.
    */
  method Attach(ghost stream: seq<byte>, snapshotEnd: nat, queue: seq<Incoming>, schedule: seq<nat>)
    returns (written: seq<byte>, credits: seq<nat>, error: Option<StreamError>, taken: nat, running: bool)
    requires snapshotEnd <= |stream| && |stream| + ACK_STRIDE_BYTES <= U64_MAX
    requires AllGenuine(stream, queue)
    ensures Stopped(queue, taken, snapshotEnd, running, error)
    ensures running ==> taken == |queue| || taken >= |schedule|
    ensures snapshotEnd + |written| <= |stream|
    ensures written == stream[snapshotEnd..snapshotEnd + |written|]
    ensures |written| == DataBytes(Applied(queue, taken, error))
    ensures error.None? && taken > 0 && queue[taken - 1].Done? && queue[taken - 1].finalOffset != 0 ==>
      queue[taken - 1].finalOffset == snapshotEnd + |written|
    ensures CreditsOk(credits, snapshotEnd + |written|, written != [])
  {
    hide DataBytes, InOrder, AllGenuine, CreditsOk, NoDone;
    var client := new AttachClient(stream, snapshotEnd);
    var next, turn := 0, 0;
    Idle(queue, snapshotEnd);
    while client.running && next < |queue| && turn < |schedule|
      invariant next <= |queue| && turn <= |schedule| && turn <= next
      invariant client.Valid(stream) && client.snapshotEnd == snapshotEnd
      invariant Stopped(queue, next, snapshotEnd, client.running, client.streamError)
      invariant |client.written| == DataBytes(Applied(queue, next, client.streamError))
      invariant fresh(client) && fresh(client.cursor)
    {
      var rest := queue[next..];
      RestIsGenuine(stream, queue, next, rest);
      var available := Max(1, Min(schedule[turn], |rest|));
      var took := client.HandleFrames(rest, available, stream);
      TakeMore(queue, next, took, rest, snapshotEnd, client.running, client.streamError);
      next, turn := next + took, turn + 1;
    }
    taken, running := next, client.running;
    written, credits, error := client.written, client.credits, client.streamError;
    if error.None? && taken > 0 {
      InOrderSnoc(queue, taken - 1, snapshotEnd);
    }
  }
}
