/** The local IPC byte formats: bounded newline-terminated lines and binary attach frames. */
module Framing {
  import opened Bytes
  import opened Utf8

  const MAX_IPC_LINE_BYTES: nat := 10 * 1024 * 1024
  const ATTACH_FRAME_OUTPUT: byte := 1
  const ATTACH_FRAME_CONTROL: byte := 2
  const MAX_ATTACH_OUTPUT_FRAME_BYTES: nat := 1024 * 1024 + 8
  const MAX_ATTACH_CONTROL_FRAME_BYTES: nat := 64 * 1024
  const ATTACH_FRAME_HEADER_BYTES: nat := 5

  // ----- lines -----

  /** A buffered reader whose source hands over arbitrary non-empty chunks until end of file. */
  class ChunkedReader {
    var chunks: seq<seq<byte>>

    ghost predicate Valid()
      reads this
    {
      forall i :: 0 <= i < |chunks| ==> chunks[i] != []
    }

    ghost function Remaining(): (s: seq<byte>)
      reads this
    {
      Flatten(chunks)
    }

    constructor (chunks: seq<seq<byte>>)
      requires forall i :: 0 <= i < |chunks| ==> chunks[i] != []
      ensures Valid() && Remaining() == Flatten(chunks)
    {
      this.chunks := chunks;
    }

    /** Empty exactly at end of file. */
    method FillBuf() returns (available: seq<byte>)
      requires Valid()
      ensures available == if chunks == [] then [] else chunks[0]
      ensures available <= Remaining()
      ensures available == [] <==> Remaining() == []
    {
      available := if chunks == [] then [] else chunks[0];
      if chunks != [] {
        assert Remaining() == chunks[0] + Flatten(chunks[1..]);
      }
    }

    method Consume(n: nat)
      requires Valid() && (chunks == [] ==> n == 0) && (chunks != [] ==> n <= |chunks[0]|)
      modifies this
      ensures Valid() && Remaining() == old(Remaining())[n..]
    {
      if chunks != [] {
        var first, rest := chunks[0], chunks[1..];
        assert (first + Flatten(rest))[n..] == first[n..] + Flatten(rest);
        if n == |first| {
          chunks := rest;
          assert first[n..] + Flatten(rest) == Flatten(rest);
        } else {
          chunks := [first[n..]] + rest;
          assert chunks[1..] == rest;
        }
      }
    }
  }

  /** The first line of a stream with its newline, or all of it at end of file. */
  function LineLength(s: seq<byte>): (n: nat)
    ensures n <= |s| && (n < |s| ==> n > 0 && s[n - 1] == NEWLINE)
    ensures forall i :: 0 <= i < n - 1 ==> s[i] != NEWLINE
  {
    if NewlineIndex(s) < |s| then NewlineIndex(s) + 1 else |s|
  }

  datatype LineResult = Read(total: nat) | TooLong | NotText

  function LineOutcome(s: seq<byte>): (r: LineResult) {
    var n := LineLength(s);
    if n > MAX_IPC_LINE_BYTES then TooLong else if IsText(s[..n]) then Read(n) else NotText
  }

  /**
    * The outcome depends only on the bytes of the stream, never on how they arrive: the line is
    * read, and nothing after it; the size check fails exactly for a line over the limit.
    */
  method ReadLineBounded(reader: ChunkedReader, buf: seq<byte>) returns (r: LineResult, buf': seq<byte>)
    requires reader.Valid()
    modifies reader
    ensures reader.Valid()
    ensures r == LineOutcome(old(reader.Remaining()))
    ensures r == TooLong <==> LineLength(old(reader.Remaining())) > MAX_IPC_LINE_BYTES
    ensures r.Read? ==> r.total == LineLength(old(reader.Remaining()))
    ensures r != TooLong ==>
      (r == NotText <==> !IsText(old(reader.Remaining())[..LineLength(old(reader.Remaining()))]))
    ensures r != TooLong ==>
      reader.Remaining() == old(reader.Remaining())[LineLength(old(reader.Remaining()))..]
    ensures buf' == if r.Read? then buf + old(reader.Remaining())[..r.total] else buf
  {
    hide FromUtf8, LineLength, NewlineFrom, NewlineIndex, Flatten;
    ghost var s := reader.Remaining();
    var raw: seq<byte> := [];
    buf' := buf;
    var done := false;
    while !done
      invariant reader.Valid()
      invariant |raw| <= |s| && raw == s[..|raw|] && reader.Remaining() == s[|raw|..]
      invariant |raw| <= MAX_IPC_LINE_BYTES
      invariant !done ==> NoNewline(s[..|raw|])
      invariant done ==> |raw| == LineLength(s)
      decreases !done, |s| - |raw|
    {
      var available := reader.FillBuf();
      if available == [] {
        NoMoreLines(s, |raw|);
        done := true;
      } else {
        var pos := NewlineIndex(available);
        var found := pos < |available|;
        var used := if found then pos + 1 else |available|;
        LineGrows(s, |raw|, available, used);
        if |raw| + used > MAX_IPC_LINE_BYTES {
          return TooLong, buf;
        }
        raw := raw + available[..used];
        reader.Consume(used);
        done := found;
      }
    }
    if raw == [] {
      return Read(0), buf;
    }
    if FromUtf8(raw) != Valid {
      return NotText, buf;
    }
    return Read(|raw|), buf + raw;
  }

  lemma NoMoreLines(s: seq<byte>, k: nat)
    requires k <= |s| && s[k..] == [] && NoNewline(s[..k])
    ensures LineLength(s) == k
  {
    assert s[..k] == s;
  }

  /** One chunk of the stream, seen after `k` bytes without a newline. */
  lemma LineGrows(s: seq<byte>, k: nat, chunk: seq<byte>, used: nat)
    requires k <= |s| && chunk <= s[k..] && chunk != [] && NoNewline(s[..k])
    requires used == if NewlineIndex(chunk) < |chunk| then NewlineIndex(chunk) + 1 else |chunk|
    ensures k + used <= LineLength(s) <= |s|
    ensures if NewlineIndex(chunk) < |chunk| then LineLength(s) == k + used else NoNewline(s[..k + used])
    ensures s[..k] + chunk[..used] == s[..k + used] && s[k..][used..] == s[k + used..]
  {
    hide NewlineFrom;
    assert forall i :: 0 <= i < k ==> s[i] == s[..k][i];
    assert forall i :: k <= i < k + |chunk| ==> s[i] == chunk[i - k];
    SliceSplit(s, k, used);
    assert chunk[..used] == s[k..][..used];
  }

  // ----- binary attach frames -----

  datatype Frame<+R> =
    | Output(offset: nat, data: seq<byte>)
    | Control(response: R)

  /** The JSON form of control notices, as an abstract codec. */
  datatype Codec<!R> = Codec(ser: R -> seq<byte>, de: seq<byte> -> Option<R>)

  ghost predicate Invertible<R(!new)>(codec: Codec<R>) {
    forall r :: codec.de(codec.ser(r)) == Some(r)
  }

  function Payload<R>(codec: Codec<R>, frame: Frame<R>): (p: seq<byte>) {
    match frame
    case Output(offset, data) => ToLE(offset, 8) + data
    case Control(response) => codec.ser(response)
  }

  function Tag<R>(frame: Frame<R>): (tag: byte) {
    if frame.Output? then ATTACH_FRAME_OUTPUT else ATTACH_FRAME_CONTROL
  }

  /** The bytes of one frame; the length field is truncated to 32 bits as the cast does. */
  function Encode<R>(codec: Codec<R>, frame: Frame<R>): (s: seq<byte>) {
    ToLE(|Payload(codec, frame)|, 4) + [Tag(frame)] + Payload(codec, frame)
  }

  function Cap(tag: byte): (cap: Option<nat>) {
    if tag == ATTACH_FRAME_OUTPUT then Some(MAX_ATTACH_OUTPUT_FRAME_BYTES)
    else if tag == ATTACH_FRAME_CONTROL then Some(MAX_ATTACH_CONTROL_FRAME_BYTES)
    else None
  }

  /** Frames within the documented caps. */
  predicate Fits<R>(codec: Codec<R>, frame: Frame<R>) {
    && |Payload(codec, frame)| <= Cap(Tag(frame)).value
    && (frame.Output? ==> frame.offset < U64_LIMIT)
  }

  datatype FrameError = Closed | UnknownTag | TooLarge | Truncated | TooShort | BadJson

  datatype FrameResult<+R> = Got(frame: Frame<R>, rest: seq<byte>) | Failed(error: FrameError)

  function Decode<R>(codec: Codec<R>, tag: byte, payload: seq<byte>, rest: seq<byte>): (r: FrameResult<R>) {
    if tag == ATTACH_FRAME_OUTPUT then
      if |payload| < 8 then Failed(TooShort) else Got(Output(FromLE(payload[..8]), payload[8..]), rest)
    else
      match codec.de(payload)
      case Some(response) => Got(Control(response), rest)
      case None => Failed(BadJson)
  }

  function Parse<R>(codec: Codec<R>, s: seq<byte>): (r: FrameResult<R>)
    ensures r.Got? ==> |r.rest| < |s|
  {
    if |s| < ATTACH_FRAME_HEADER_BYTES then Failed(Closed)
    else
      var len := FromLE(s[..4]);
      match Cap(s[4])
      case None => Failed(UnknownTag)
      case Some(cap) =>
        if len > cap then Failed(TooLarge)
        else if |s| - 5 < len then Failed(Truncated)
        else Decode(codec, s[4], s[5..5 + len], s[5 + len..])
  }

  /** A stream that hands over exactly the bytes asked for, or fails at end of file. */
  class ByteStream {
    var bytes: seq<byte>

    constructor (bytes: seq<byte>)
      ensures this.bytes == bytes
    {
      this.bytes := bytes;
    }

    method ReadExact(n: nat) returns (r: Option<seq<byte>>)
      modifies this
      ensures r == if n <= |old(bytes)| then Some(old(bytes)[..n]) else None
      ensures bytes == if n <= |old(bytes)| then old(bytes)[n..] else []
    {
      if n <= |bytes| {
        r, bytes := Some(bytes[..n]), bytes[n..];
      } else {
        r, bytes := None, [];
      }
    }

    method Write(s: seq<byte>)
      modifies this
      ensures bytes == old(bytes) + s
    {
      bytes := bytes + s;
    }
  }

  method WriteAttachOutputFrame<R>(ghost codec: Codec<R>, writer: ByteStream, offset: nat, data: seq<byte>)
    requires offset < U64_LIMIT
    modifies writer
    ensures writer.bytes == old(writer.bytes) + Encode(codec, Output(offset, data))
  {
    var payloadLen := 8 + |data|;
    var frame := ToLE(payloadLen, 4);
    frame := frame + [ATTACH_FRAME_OUTPUT];
    frame := frame + ToLE(offset, 8);
    frame := frame + data;
    ConcatAssoc(ToLE(payloadLen, 4) + [ATTACH_FRAME_OUTPUT], ToLE(offset, 8), data);
    writer.Write(frame);
  }

  /** Refuses a notice over the cap; the comparison sees the length truncated to 32 bits. */
  method WriteAttachControlFrame<R>(codec: Codec<R>, writer: ByteStream, response: R) returns (ok: bool)
    modifies writer
    ensures ok <==> |codec.ser(response)| % U32_LIMIT <= MAX_ATTACH_CONTROL_FRAME_BYTES
    ensures writer.bytes ==
      if ok then old(writer.bytes) + Encode(codec, Control(response)) else old(writer.bytes)
  {
    var payload := codec.ser(response);
    if |payload| % U32_LIMIT > MAX_ATTACH_CONTROL_FRAME_BYTES {
      return false;
    }
    writer.Write(ToLE(|payload|, 4) + [ATTACH_FRAME_CONTROL] + payload);
    ok := true;
  }

  method ReadAttachFrame<R>(codec: Codec<R>, reader: ByteStream) returns (r: FrameResult<R>)
    modifies reader
    ensures r == Parse(codec, old(reader.bytes))
    ensures r.Got? ==> reader.bytes == r.rest
  {
    ghost var s := reader.bytes;
    var header := reader.ReadExact(ATTACH_FRAME_HEADER_BYTES);
    if header.None? {
      return Failed(Closed);
    }
    assert header.value[..4] == s[..4];
    var payloadLen, tag := FromLE(header.value[..4]), header.value[4];
    var cap := Cap(tag);
    if cap.None? {
      return Failed(UnknownTag);
    }
    if payloadLen > cap.value {
      return Failed(TooLarge);
    }
    assert |s| - 5 >= payloadLen ==>
      s[5..][..payloadLen] == s[5..5 + payloadLen] && s[5..][payloadLen..] == s[5 + payloadLen..];
    var payload := reader.ReadExact(payloadLen);
    if payload.None? {
      return Failed(Truncated);
    }
    r := Decode(codec, tag, payload.value, reader.bytes);
  }

  /** A stream has a whole frame in front: its kind is known, its length is within the cap, and it is all there. */
  predicate WholeFrame(s: seq<byte>, len: nat) {
    && |s| >= 5 && s[4] in {1, 2}
    && len == FromLE(s[..4]) <= (if s[4] == 1 then 0x10_0008 else 0x1_0000) && |s| - 5 >= len
  }

  /** Every malformed stream has its error: no header, an unknown kind, a frame over its cap, a cut payload. */
  lemma MalformedIsRefused<R>(codec: Codec<R>, s: seq<byte>)
    ensures |s| < 5 ==> Parse(codec, s) == Failed(Closed)
    ensures |s| >= 5 && s[4] !in {1, 2} ==> Parse(codec, s) == Failed(UnknownTag)
    ensures |s| >= 5 && s[4] == 1 && FromLE(s[..4]) > 0x10_0008 ==> Parse(codec, s) == Failed(TooLarge)
    ensures |s| >= 5 && s[4] == 2 && FromLE(s[..4]) > 0x1_0000 ==> Parse(codec, s) == Failed(TooLarge)
    ensures |s| >= 5 && s[4] == 1 && FromLE(s[..4]) <= 0x10_0008 && |s| - 5 < FromLE(s[..4]) ==>
      Parse(codec, s) == Failed(Truncated)
    ensures |s| >= 5 && s[4] == 2 && FromLE(s[..4]) <= 0x1_0000 && |s| - 5 < FromLE(s[..4]) ==>
      Parse(codec, s) == Failed(Truncated)
  {
    hide FromLE;
  }

  /** A whole frame is refused exactly for an output payload without its offset or a notice that does not parse. */
  lemma WholeFrameIsRead<R>(codec: Codec<R>, s: seq<byte>, len: nat)
    requires WholeFrame(s, len)
    ensures s[4] == 1 ==>
      Parse(codec, s) ==
        if len < 8 then Failed(TooShort) else Got(Output(FromLE(s[5..13]), s[13..5 + len]), s[5 + len..])
    ensures s[4] == 2 && codec.de(s[5..5 + len]).None? ==> Parse(codec, s) == Failed(BadJson)
    ensures s[4] == 2 && codec.de(s[5..5 + len]).Some? ==>
      Parse(codec, s) == Got(Control(codec.de(s[5..5 + len]).value), s[5 + len..])
  {
    hide FromLE;
    var payload := s[5..5 + len];
    assert len >= 8 ==> payload[..8] == s[5..13] && payload[8..] == s[13..5 + len];
  }

  /** Exactly the frames within the caps are read back; a larger one is refused by its reader. */
  lemma ReadBackIffFits<R(!new)>(codec: Codec<R>, frame: Frame<R>, rest: seq<byte>, s: seq<byte>)
    requires Invertible(codec) && s == Encode(codec, frame) + rest
    requires |Payload(codec, frame)| < U32_LIMIT && (frame.Output? ==> frame.offset < U64_LIMIT)
    ensures Parse(codec, s) == Got(frame, rest) <==>
      |Payload(codec, frame)| <= if frame.Output? then 0x10_0008 else 0x1_0000
    ensures Parse(codec, s) in {Got(frame, rest), Failed(TooLarge)}
  {
    var len := |Payload(codec, frame)|;
    WordSizes();
    LERoundTrip(len, 4);
    assert s[..4] == ToLE(len, 4) && s[4] == Tag(frame);
    if Fits(codec, frame) {
      FrameRoundTrip(codec, frame, rest, s);
    } else {
      MalformedIsRefused(codec, s);
    }
  }

  // ----- frames written back to back -----

  function EncodeAll<R>(codec: Codec<R>, frames: seq<Frame<R>>): (s: seq<byte>) {
    if frames == [] then [] else Encode(codec, frames[0]) + EncodeAll(codec, frames[1..])
  }

  datatype Frames<+R> = Frames(frames: seq<Frame<R>>, error: FrameError)

  /** Read frames until the first error, which is how the reader task sees end of stream. */
  function ParseAll<R>(codec: Codec<R>, s: seq<byte>): (r: Frames<R>)
    decreases |s|
  {
    match Parse(codec, s)
    case Failed(error) => Frames([], error)
    case Got(frame, rest) =>
      var more := ParseAll(codec, rest);
      Frames([frame] + more.frames, more.error)
  }

  /** The parts of one encoded frame at the front of a stream. */
  lemma EncodeParts<R>(codec: Codec<R>, frame: Frame<R>, rest: seq<byte>, s: seq<byte>)
    requires s == Encode(codec, frame) + rest && Fits(codec, frame)
    ensures |Encode(codec, frame)| == 5 + |Payload(codec, frame)|
    ensures FromLE(s[..4]) == |Payload(codec, frame)| && s[4] == Tag(frame)
    ensures s[5..5 + |Payload(codec, frame)|] == Payload(codec, frame)
    ensures s[5 + |Payload(codec, frame)|..] == rest
  {
    var len := |Payload(codec, frame)|;
    WordSizes();
    LERoundTrip(len, 4);
    assert s[..4] == ToLE(len, 4);
  }

  lemma FrameRoundTrip<R(!new)>(codec: Codec<R>, frame: Frame<R>, rest: seq<byte>, s: seq<byte>)
    requires Invertible(codec) && Fits(codec, frame)
    requires s == Encode(codec, frame) + rest
    ensures Parse(codec, s) == Got(frame, rest)
  {
    EncodeParts(codec, frame, rest, s);
    if frame.Output? {
      WordSizes();
      LERoundTrip(frame.offset, 8);
      var payload := Payload(codec, frame);
      assert payload[..8] == ToLE(frame.offset, 8) && payload[8..] == frame.data;
    }
  }

  /** A frame that is cut anywhere is an error, never a frame. */
  lemma CutFrameFails<R>(codec: Codec<R>, frame: Frame<R>, t: seq<byte>)
    requires Fits(codec, frame) && t < Encode(codec, frame)
    ensures Parse(codec, t) == Failed(if |t| < 5 then Closed else Truncated)
  {
    var s := Encode(codec, frame);
    assert s == s + [];
    EncodeParts(codec, frame, [], s);
    if |t| >= 5 {
      assert t[..4] == s[..4] && t[4] == s[4];
    }
  }

  /** How many frames lie completely before byte `cut`. */
  function WholeFrames<R>(codec: Codec<R>, frames: seq<Frame<R>>, cut: nat): (k: nat)
    ensures k <= |frames|
  {
    if frames == [] || cut < |Encode(codec, frames[0])| then 0
    else 1 + WholeFrames(codec, frames[1..], cut - |Encode(codec, frames[0])|)
  }

  lemma EndOfStream<R>(codec: Codec<R>)
    ensures ParseAll(codec, []) == Frames([], Closed)
  {
  }

  lemma SplitPrefix(first: seq<byte>, more: seq<byte>, t: seq<byte>, rest: seq<byte>)
    requires t <= first + more && |first| <= |t| && rest == t[|first|..]
    ensures t == first + rest && rest <= more
  {
    assert t == (first + more)[..|t|] && rest == more[..|rest|];
  }

  /**
    * Whatever prefix of a well-formed stream arrives, the reader gets exactly the frames that lie
    * completely in it, and then an end-of-stream error.
    */
  lemma {:induction false} PrefixReadsWholeFrames<R(!new)>(
    codec: Codec<R>, frames: seq<Frame<R>>, t: seq<byte>)
    requires Invertible(codec) && forall i :: 0 <= i < |frames| ==> Fits(codec, frames[i])
    requires t <= EncodeAll(codec, frames)
    ensures ParseAll(codec, t).frames == frames[..WholeFrames(codec, frames, |t|)]
    ensures ParseAll(codec, t).error in {Closed, Truncated}
    decreases |frames|
  {
    hide Encode, Parse, ParseAll;
    EndOfStream(codec);
    if frames != [] {
      var first, more := Encode(codec, frames[0]), EncodeAll(codec, frames[1..]);
      if |t| < |first| {
        CutPrefix(first, more, t);
        CutFrameFails(codec, frames[0], t);
        ParseStep(codec, t);
      } else {
        var rest := t[|first|..];
        SplitPrefix(first, more, t, rest);
        FrameRoundTrip(codec, frames[0], rest, t);
        ParseStep(codec, t);
        PrefixReadsWholeFrames(codec, frames[1..], rest);
        FirstAndMore(frames, WholeFrames(codec, frames[1..], |rest|));
      }
    }
  }

  lemma CutPrefix(first: seq<byte>, more: seq<byte>, t: seq<byte>)
    requires t <= first + more && |t| < |first|
    ensures t < first
  {
    assert t == (first + more)[..|t|] == first[..|t|];
  }

  lemma FirstAndMore<T>(s: seq<T>, k: nat)
    requires s != [] && k < |s|
    ensures s[..1 + k] == [s[0]] + s[1..][..k]
  {
  }

  /** Reading goes on behind a frame and stops at an error. */
  lemma ParseStep<R>(codec: Codec<R>, s: seq<byte>)
    ensures match Parse(codec, s)
      case Failed(error) => ParseAll(codec, s) == Frames([], error)
      case Got(frame, rest) =>
        ParseAll(codec, s) == Frames([frame] + ParseAll(codec, rest).frames, ParseAll(codec, rest).error)
  {
    hide Parse;
  }

  /** The whole stream is read back with nothing left over. */
  lemma {:induction false} StreamRoundTrip<R(!new)>(codec: Codec<R>, frames: seq<Frame<R>>)
    requires Invertible(codec) && forall i :: 0 <= i < |frames| ==> Fits(codec, frames[i])
    ensures ParseAll(codec, EncodeAll(codec, frames)) == Frames(frames, Closed)
    decreases |frames|
  {
    hide Parse, Encode, ParseAll;
    EndOfStream(codec);
    if frames != [] {
      var more := frames[1..];
      FrameRoundTrip(codec, frames[0], EncodeAll(codec, more), EncodeAll(codec, frames));
      ParseStep(codec, EncodeAll(codec, frames));
      StreamRoundTrip(codec, more);
      assert frames == [frames[0]] + more;
    }
  }

  /** Conversely, an output frame that is accepted is byte for byte what the writer produces for it. */
  lemma OutputFrameIsCanonical<R>(codec: Codec<R>, s: seq<byte>)
    requires Parse(codec, s).Got? && Parse(codec, s).frame.Output?
    ensures Fits(codec, Parse(codec, s).frame)
    ensures s == Encode(codec, Parse(codec, s).frame) + Parse(codec, s).rest
  {
    hide FromLE, ToLE, Pow256;
    var len := FromLE(s[..4]);
    var payload, rest := s[5..5 + len], s[5 + len..];
    LECanonical(s[..4]);
    LECanonical(payload[..8]);
    WordSizes();
    var frame: Frame<R> := Output(FromLE(payload[..8]), payload[8..]);
    assert Parse(codec, s) == Got(frame, rest);
    SliceSplit(payload, 8, 0);
    assert Payload(codec, frame) == payload && Tag(frame) == s[4];
    FrameSplit(s, len);
  }

  lemma FrameSplit(s: seq<byte>, len: nat)
    requires 5 + len <= |s|
    ensures s == s[..4] + [s[4]] + s[5..5 + len] + s[5 + len..]
  {
    SliceSplit(s, 5, len);
    assert s[..5] == s[..4] + [s[4]];
    assert s[5..5 + len] == s[5..][..len];
  }
}
