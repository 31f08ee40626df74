/**
  * The sealed federation channel: per-direction keys, monotonic counters, poisoning on failure.
  * The AEAD is ideal: a ciphertext opens only to what was sealed under the same key, nonce and
  * associated data. The network may deliver any bytes to either end at any time.
  */
module SealedChannel {
  import opened Bytes

  const FRAME_TAG_SEALED: byte := 0x21
  const SEALED_HEADER_LEN: nat := 9
  const GCM_TAG_LEN: nat := 16
  const MIN_SEALED_FRAME_LEN: nat := SEALED_HEADER_LEN + GCM_TAG_LEN
  const MAX_SEQUENCE: nat := U64_LIMIT - 2
  const NONCE_PREFIX: seq<byte> := [0, 0, 0, 0]

  type Data = seq<byte>

  /** Deterministic construction of section 8.2.1 of NIST SP 800-38D: fixed field, then counter. */
  function NonceFor(sequence: nat): (n: Data)
    ensures |n| == 12
  {
    NONCE_PREFIX + ToBE(sequence, 8)
  }

  function FrameAad(context: Data, sequence: nat): (aad: Data) {
    context + [FRAME_TAG_SEALED] + ToBE(sequence, 8)
  }

  function Header(sequence: nat): (h: Data)
    ensures |h| == SEALED_HEADER_LEN
  {
    [FRAME_TAG_SEALED] + ToBE(sequence, 8)
  }

  /** The counter is written big-endian, after four zero bytes or after the frame tag. */
  lemma CounterLayout(context: Data, n: nat)
    requires n < U64_LIMIT
    ensures NonceFor(n)[..4] == [0, 0, 0, 0] && FromBE(NonceFor(n)[4..]) == n
    ensures Header(n)[0] == 0x21 && FromBE(Header(n)[1..]) == n
    ensures FrameAad(context, n) == context + Header(n)
  {
    WordSizes();
    BERoundTrip(n, 8);
    assert NonceFor(n)[4..] == ToBE(n, 8) == Header(n)[1..];
  }

  lemma NonceInjective(m: nat, n: nat)
    requires m < U64_LIMIT && n < U64_LIMIT
    ensures NonceFor(m) == NonceFor(n) ==> m == n
  {
    WordSizes();
    BEInjective(m, n, 8);
    assert NonceFor(m)[4..] == ToBE(m, 8) && NonceFor(n)[4..] == ToBE(n, 8);
  }

  /** Associated data determines both its context and its sequence number. */
  lemma FrameAadInjective(c: Data, m: nat, d: Data, n: nat)
    requires m < U64_LIMIT && n < U64_LIMIT
    ensures FrameAad(c, m) == FrameAad(d, n) ==> c == d && m == n
  {
    if FrameAad(c, m) == FrameAad(d, n) {
      var aad := FrameAad(c, m);
      WordSizes();
      BEInjective(m, n, 8);
      assert |c| == |aad| - 9 == |d|;
      assert aad[|c| + 1..] == ToBE(m, 8) && aad[|d| + 1..] == ToBE(n, 8);
      assert aad[..|c|] == c && aad[..|d|] == d;
    }
  }

  // ----- the ideal AEAD -----

  datatype Sealed = Sealed(key: Data, nonce: Data, aad: Data, plain: Data, ct: Data)

  function Lookup(records: seq<Sealed>, key: Data, nonce: Data, aad: Data, ct: Data): (r: Option<Data>)
    ensures r.Some? ==> Sealed(key, nonce, aad, r.value, ct) in records
    ensures r.None? ==> forall plain :: Sealed(key, nonce, aad, plain, ct) !in records
  {
    if records == [] then None
    else
      var first := records[0];
      if first.key == key && first.nonce == nonce && first.aad == aad && first.ct == ct then Some(first.plain)
      else Lookup(records[1..], key, nonce, aad, ct)
  }

  class Aead {
    var records: seq<Sealed>  // everything that was ever sealed, by anyone

    constructor ()
      ensures records == []
    {
      records := [];
    }

    /** The ciphertext, or a failure of the cipher, is whatever the primitive returns. */
    method Encrypt(key: Data, nonce: Data, aad: Data, plain: Data, outcome: Option<Data>) returns (ct: Option<Data>)
      modifies this
      ensures ct == outcome
      ensures records == if outcome.Some? then old(records) + [Sealed(key, nonce, aad, plain, outcome.value)]
                         else old(records)
    {
      ct := outcome;
      if outcome.Some? {
        records := records + [Sealed(key, nonce, aad, plain, outcome.value)];
      }
    }
  }

  // ----- one direction -----

  /** What a frame opens to, if its header names exactly this sequence number. */
  function Opened<T>(records: seq<Sealed>, key: Data, aad: Data, sequence: nat, frame: Data,
                     parse: Data -> Option<T>): (r: Option<T>)
  {
    if |frame| < MIN_SEALED_FRAME_LEN || frame[0] != FRAME_TAG_SEALED || FromBE(frame[1..9]) != sequence then None
    else
      match Lookup(records, key, NonceFor(sequence), FrameAad(aad, sequence), frame[9..])
      case None => None
      case Some(plain) => parse(plain)
  }

  class ChannelSide {
    const key: Data
    var sendSeq: nat
    var recvSeq: nat
    var failed: bool

    constructor (key: Data)
      ensures this.key == key && sendSeq == 0 && recvSeq == 0 && !failed
    {
      this.key := key;
      sendSeq, recvSeq, failed := 0, 0, false;
    }

    /** A counter value is spent before it is used, so a failed encryption never frees it. */
    method Seal(aead: Aead, aad: Data, plaintext: Data, outcome: Option<Data>) returns (frame: Option<Data>)
      modifies this`sendSeq, this`failed, aead
      ensures frame.Some? <==> !old(failed) && old(sendSeq) < MAX_SEQUENCE && outcome.Some?
      ensures failed == frame.None?
      ensures sendSeq == if !old(failed) && old(sendSeq) < MAX_SEQUENCE then old(sendSeq) + 1 else old(sendSeq)
      ensures frame.None? ==> aead.records == old(aead.records)
      ensures frame.Some? ==>
        && frame.value == Header(old(sendSeq)) + outcome.value
        && aead.records == old(aead.records) +
             [Sealed(key, NonceFor(old(sendSeq)), FrameAad(aad, old(sendSeq)), plaintext, outcome.value)]
    {
      if failed || sendSeq >= MAX_SEQUENCE {
        failed := true;
        return None;
      }
      var sequence := sendSeq;
      sendSeq := sendSeq + 1;
      var ct := aead.Encrypt(key, NonceFor(sequence), FrameAad(aad, sequence), plaintext, outcome);
      if ct.None? {
        failed := true;
        return None;
      }
      var out := [FRAME_TAG_SEALED];
      out := out + ToBE(sequence, 8);
      out := out + ct.value;
      frame := Some(out);
    }

    /** Poison on any failure; commit the receive sequence only after parsing. */
    method OpenValidated<T>(aead: Aead, aad: Data, frame: Data, parse: Data -> Option<T>) returns (r: Option<T>)
      modifies this`recvSeq, this`failed
      ensures r == if old(failed) || old(recvSeq) >= MAX_SEQUENCE then None
                   else Opened(aead.records, key, aad, old(recvSeq), frame, parse)
      ensures failed == r.None?
      ensures recvSeq == if r.Some? then old(recvSeq) + 1 else old(recvSeq)
    {
      if failed || recvSeq >= MAX_SEQUENCE {
        failed := true;
        return None;
      }
      failed := true;
      if |frame| < MIN_SEALED_FRAME_LEN {
        return None;
      }
      if frame[0] != FRAME_TAG_SEALED {
        return None;
      }
      var sequence := FromBE(frame[1..9]);
      if sequence != recvSeq {
        return None;
      }
      var plain := Lookup(aead.records, key, NonceFor(sequence), FrameAad(aad, sequence), frame[9..]);
      if plain.None? {
        return None;
      }
      var parsed := parse(plain.value);
      if parsed.None? {
        return None;
      }
      recvSeq := recvSeq + 1;
      failed := false;
      r := parsed;
    }
  }

  // ----- one endpoint -----

  class Channel {
    const send: ChannelSide
    const recv: ChannelSide
    const sendAad: Data
    const recvAad: Data

    constructor (sendKey: Data, recvKey: Data, sendAad: Data, recvAad: Data)
      ensures fresh(send) && fresh(recv) && send != recv
      ensures send.key == sendKey && recv.key == recvKey
      ensures this.sendAad == sendAad && this.recvAad == recvAad
      ensures Healthy() && send.sendSeq == 0 && recv.recvSeq == 0
    {
      send := new ChannelSide(sendKey);
      recv := new ChannelSide(recvKey);
      this.sendAad, this.recvAad := sendAad, recvAad;
    }

    predicate Healthy()
      reads send, recv
    {
      !send.failed && !recv.failed
    }

    /** A failure of either direction ends both, for good. */
    method Encode(aead: Aead, payload: Data, outcome: Option<Data>) returns (frame: Option<Data>)
      requires send != recv
      modifies send`sendSeq, send`failed, aead
      ensures frame.Some? <==> old(Healthy()) && old(send.sendSeq) < MAX_SEQUENCE && outcome.Some?
      ensures Healthy() <==> frame.Some?
      ensures send.sendSeq ==
        if old(Healthy()) && old(send.sendSeq) < MAX_SEQUENCE then old(send.sendSeq) + 1 else old(send.sendSeq)
      ensures frame.None? ==> aead.records == old(aead.records)
      ensures frame.Some? ==>
        && frame.value == Header(old(send.sendSeq)) + outcome.value
        && aead.records == old(aead.records) +
             [Sealed(send.key, NonceFor(old(send.sendSeq)), FrameAad(sendAad, old(send.sendSeq)),
                     payload, outcome.value)]
    {
      if recv.failed {
        return None;
      }
      frame := send.Seal(aead, sendAad, payload, outcome);
    }

    method Decode<T>(aead: Aead, frame: Data, parse: Data -> Option<T>) returns (r: Option<T>)
      requires send != recv
      modifies recv`recvSeq, recv`failed
      ensures r == if !old(Healthy()) || old(recv.recvSeq) >= MAX_SEQUENCE then None
                   else Opened(aead.records, recv.key, recvAad, old(recv.recvSeq), frame, parse)
      ensures Healthy() <==> r.Some?
      ensures recv.recvSeq == if r.Some? then old(recv.recvSeq) + 1 else old(recv.recvSeq)
    {
      if send.failed {
        return None;
      }
      r := recv.OpenValidated(aead, recvAad, frame, parse);
    }
  }

  // ----- one direction of a connection, from sender to receiver -----

  /** All that one end has sealed so far: payloads and their ciphertexts, by sequence number. */
  datatype Flow = Flow(key: Data, context: Data, plains: seq<Data>, cts: seq<Data>)

  ghost function RecordOf(f: Flow, j: nat): (r: Sealed)
    requires j < |f.plains| == |f.cts|
  {
    Sealed(f.key, NonceFor(j), FrameAad(f.context, j), f.plains[j], f.cts[j])
  }

  function FrameOf(f: Flow, j: nat): (frame: Data)
    requires j < |f.plains| == |f.cts|
  {
    Header(j) + f.cts[j]
  }

  /** The records under this key and context are exactly those of the flow. */
  ghost predicate Recorded(records: seq<Sealed>, f: Flow) {
    && |f.plains| == |f.cts| <= MAX_SEQUENCE
    && (forall j :: 0 <= j < |f.plains| ==> |f.cts[j]| >= GCM_TAG_LEN && RecordOf(f, j) in records)
    && (forall r, j {:trigger r in records, FrameAad(f.context, j)} ::
          r in records && 0 <= j < U64_LIMIT && r.key == f.key && r.aad == FrameAad(f.context, j) ==>
            j < |f.plains| && r == RecordOf(f, j))
  }

  /**
    * Acceptance is exact: at sequence number `j` the receiver opens a frame if and only if it is,
    * byte for byte, the frame that the sender produced with that number, and the parser takes it.
    */
  lemma OpensExactly<T>(records: seq<Sealed>, f: Flow, j: nat, frame: Data, parse: Data -> Option<T>)
    requires Recorded(records, f) && j < MAX_SEQUENCE
    ensures |f.plains| == |f.cts|
    ensures Opened(records, f.key, f.context, j, frame, parse) ==
      if j < |f.plains| && frame == FrameOf(f, j) then parse(f.plains[j]) else None
  {
    hide ToBE, FromBE, Pow256, Lookup, Recorded;
    RecordedSizes(records, f);
    WordSizes();
    BERoundTrip(j, 8);
    if j < |f.plains| && frame == FrameOf(f, j) {
      assert frame[1..9] == ToBE(j, 8) && frame[9..] == f.cts[j];
      OpensOnlyRecorded(records, f, j, f.cts[j]);
    } else if |frame| >= MIN_SEALED_FRAME_LEN && frame[0] == FRAME_TAG_SEALED && FromBE(frame[1..9]) == j {
      BECanonical(frame[1..9]);
      assert frame == Header(j) + frame[9..];
      OpensOnlyRecorded(records, f, j, frame[9..]);
    }
  }

  lemma RecordedSizes(records: seq<Sealed>, f: Flow)
    requires Recorded(records, f)
    ensures |f.plains| == |f.cts| && forall j :: 0 <= j < |f.cts| ==> |f.cts[j]| >= GCM_TAG_LEN
  {
  }

  lemma OpensOnlyRecorded(records: seq<Sealed>, f: Flow, j: nat, ct: Data)
    requires Recorded(records, f) && j < MAX_SEQUENCE
    ensures Lookup(records, f.key, NonceFor(j), FrameAad(f.context, j), ct) ==
      if j < |f.plains| && ct == f.cts[j] then Some(f.plains[j]) else None
  {
    var found := Lookup(records, f.key, NonceFor(j), FrameAad(f.context, j), ct);
    if j < |f.plains| && ct == f.cts[j] {
      assert RecordOf(f, j) in records;
    }
    if found.Some? {
      assert Sealed(f.key, NonceFor(j), FrameAad(f.context, j), found.value, ct) in records;
    }
  }

  /** Sealing one more payload extends the flow. */
  lemma FlowGrows(records: seq<Sealed>, f: Flow, plain: Data, ct: Data, f': Flow, records': seq<Sealed>)
    requires Recorded(records, f) && |f.plains| < MAX_SEQUENCE && |ct| >= GCM_TAG_LEN
    requires f' == f.(plains := f.plains + [plain], cts := f.cts + [ct])
    requires records' == records + [RecordOf(f', |f.plains|)]
    ensures Recorded(records', f')
  {
    var n := |f.plains|;
    forall j | 0 <= j < n + 1 ensures |f'.cts[j]| >= GCM_TAG_LEN && RecordOf(f', j) in records' {
      if j < n {
        assert RecordOf(f', j) == RecordOf(f, j);
      } else {
        assert records'[|records|] == RecordOf(f', n);
      }
    }
    forall r, j {:trigger r in records', FrameAad(f'.context, j)}
      | r in records' && 0 <= j < U64_LIMIT && r.key == f'.key && r.aad == FrameAad(f'.context, j)
      ensures j < n + 1 && r == RecordOf(f', j)
    {
      if r in records {
        assert r == RecordOf(f, j);
      } else {
        assert r == RecordOf(f', n);
        FrameAadInjective(f.context, n, f.context, j);
      }
    }
  }

  /** Whatever is sealed elsewhere, under another key or in another context, does not touch the flow. */
  lemma FlowKeeps(records: seq<Sealed>, f: Flow, other: Sealed, records': seq<Sealed>)
    requires Recorded(records, f) && records' == records + [other]
    requires other.key != f.key ||
      forall j :: 0 <= j < U64_LIMIT ==> other.aad != FrameAad(f.context, j)
    ensures Recorded(records', f)
  {
    forall j | 0 <= j < |f.plains| ensures RecordOf(f, j) in records' {
      assert RecordOf(f, j) in records;
    }
    forall r, j {:trigger r in records', FrameAad(f.context, j)}
      | r in records' && 0 <= j < U64_LIMIT && r.key == f.key && r.aad == FrameAad(f.context, j)
      ensures j < |f.plains| && r == RecordOf(f, j)
    {
      assert r in records || r == other;
    }
  }

  // ----- nonces -----

  ghost predicate Spent(nonce: Data, n: nat) {
    exists m :: 0 <= m < n && nonce == NonceFor(m)
  }

  /** No nonce is used twice under the key. */
  ghost predicate NoReuse(records: seq<Sealed>, key: Data) {
    forall i, k :: 0 <= i < k < |records| && records[i].key == key == records[k].key ==>
      records[i].nonce != records[k].nonce
  }

  /** Under this key, only the first `n` counter values were used, and none of them twice. */
  ghost predicate NoncesUnique(records: seq<Sealed>, key: Data, n: nat) {
    && (forall i :: 0 <= i < |records| && records[i].key == key ==> Spent(records[i].nonce, n))
    && NoReuse(records, key)
  }

  lemma NoncesStayUnique(records: seq<Sealed>, key: Data, n: nat, r: Sealed, records': seq<Sealed>)
    requires NoncesUnique(records, key, n) && records' == records + [r] && n < U64_LIMIT
    requires r.key == key ==> r.nonce == NonceFor(n)
    ensures NoncesUnique(records', key, n + 1)
    ensures r.key != key ==> NoncesUnique(records', key, n)
  {
    SpentGrows(records, key, n);
    if r.key == key {
      forall i | 0 <= i < |records| && records[i].key == key ensures records[i].nonce != r.nonce {
        var m :| 0 <= m < n && records[i].nonce == NonceFor(m);
        NonceInjective(m, n);
      }
      assert Spent(r.nonce, n + 1);
    }
  }

  lemma SpentGrows(records: seq<Sealed>, key: Data, n: nat)
    requires NoncesUnique(records, key, n)
    ensures NoncesUnique(records, key, n + 1)
  {
    forall i | 0 <= i < |records| && records[i].key == key ensures Spent(records[i].nonce, n + 1) {
      var m :| 0 <= m < n && records[i].nonce == NonceFor(m);
    }
  }

  // ----- a connection under an arbitrary network -----

  datatype Event =
    | EncodeAt(secondary: bool, payload: Data, outcome: Option<Data>)
    | DeliverTo(secondary: bool, frame: Data, parses: Data -> bool)  // any bytes, at any time
    | SealedElsewhere(record: Sealed)                                // traffic of other connections

  ghost predicate EventOk(e: Event, up: Data, down: Data) {
    match e
    case EncodeAt(_, payload, outcome) => outcome.Some? ==> |outcome.value| == |payload| + GCM_TAG_LEN
    case DeliverTo(_, _, _) => true
    case SealedElsewhere(r) => r.key != up && r.key != down
  }

  class Connection {
    const secondary: Channel
    const primary: Channel
    const aead: Aead
    ghost var up: Flow             // what the secondary has encoded
    ghost var down: Flow           // what the primary has encoded
    ghost var gotUp: seq<Data>     // what the primary has accepted
    ghost var gotDown: seq<Data>   // what the secondary has accepted

    ghost predicate Distinct()
      reads this
    {
      && secondary.send != secondary.recv && primary.send != primary.recv
      && {secondary.send, secondary.recv} !! {primary.send, primary.recv}
    }

    ghost predicate Direction(sender: Channel, receiver: Channel, f: Flow, got: seq<Data>)
      reads this, aead, sender.send, sender.recv, receiver.recv
    {
      && sender.send.key == f.key == receiver.recv.key
      && sender.sendAad == f.context == receiver.recvAad
      && Recorded(aead.records, f)
      && |f.plains| <= sender.send.sendSeq <= MAX_SEQUENCE
      && (sender.Healthy() ==> sender.send.sendSeq == |f.plains|)
      // accepted payloads are a prefix of the encoded ones, and are counted by the receiver
      && got <= f.plains && receiver.recv.recvSeq == |got|
    }

    ghost predicate Valid()
      reads this, aead, secondary.send, secondary.recv, primary.send, primary.recv
    {
      && Distinct()
      && up.context != down.context
      && Direction(secondary, primary, up, gotUp)
      && Direction(primary, secondary, down, gotDown)
      && (up.key != down.key ==>
            && NoncesUnique(aead.records, up.key, secondary.send.sendSeq)
            && NoncesUnique(aead.records, down.key, primary.send.sendSeq))
    }

    constructor (upKey: Data, downKey: Data, upContext: Data, downContext: Data)
      requires upContext != downContext
      ensures Valid() && fresh(aead) && fresh(secondary) && fresh(primary)
      ensures fresh(secondary.send) && fresh(secondary.recv) && fresh(primary.send) && fresh(primary.recv)
      ensures secondary.Healthy() && primary.Healthy()
      ensures up == Flow(upKey, upContext, [], []) && down == Flow(downKey, downContext, [], [])
      ensures gotUp == [] && gotDown == [] && aead.records == []
    {
      aead := new Aead();
      secondary := new Channel(upKey, downKey, upContext, downContext);
      primary := new Channel(downKey, upKey, downContext, upContext);
      up, down := Flow(upKey, upContext, [], []), Flow(downKey, downContext, [], []);
      gotUp, gotDown := [], [];
    }

    method EncodeUp(payload: Data, outcome: Option<Data>) returns (frame: Option<Data>)
      requires Valid() && (outcome.Some? ==> |outcome.value| == |payload| + GCM_TAG_LEN)
      modifies this`up, aead, secondary.send`sendSeq, secondary.send`failed
      ensures Valid()
      ensures frame.Some? <==> old(secondary.Healthy()) && |old(up).plains| < MAX_SEQUENCE && outcome.Some?
      ensures frame.Some? ==> up == Grown(old(up), payload, outcome)
      ensures frame.Some? ==> frame.value == Header(|old(up).plains|) + outcome.value
      ensures frame.None? ==> up == old(up)
      ensures aead.records == old(aead.records) + SealedBy(old(up), payload, outcome, frame.Some?)
      ensures secondary.Healthy() <==> frame.Some?
    {
      ghost var records, n := aead.records, secondary.send.sendSeq;
      frame := secondary.Encode(aead, payload, outcome);
      if frame.Some? {
        ghost var f := up;
        up := Grown(f, payload, outcome);
        AfterSeal(records, f, down, payload, outcome, aead.records);
        if f.key != down.key {
          NoncesStayUnique(records, f.key, n, RecordOf(up, n), aead.records);
          NoncesStayUnique(records, down.key, primary.send.sendSeq, RecordOf(up, n), aead.records);
        }
      } else if up.key != down.key {
        SpentGrows(records, up.key, n);
      }
    }

    method EncodeDown(payload: Data, outcome: Option<Data>) returns (frame: Option<Data>)
      requires Valid() && (outcome.Some? ==> |outcome.value| == |payload| + GCM_TAG_LEN)
      modifies this`down, aead, primary.send`sendSeq, primary.send`failed
      ensures Valid()
      ensures frame.Some? <==> old(primary.Healthy()) && |old(down).plains| < MAX_SEQUENCE && outcome.Some?
      ensures frame.Some? ==> down == Grown(old(down), payload, outcome)
      ensures frame.Some? ==> frame.value == Header(|old(down).plains|) + outcome.value
      ensures frame.None? ==> down == old(down)
      ensures aead.records == old(aead.records) + SealedBy(old(down), payload, outcome, frame.Some?)
      ensures primary.Healthy() <==> frame.Some?
    {
      ghost var records, n := aead.records, primary.send.sendSeq;
      frame := primary.Encode(aead, payload, outcome);
      if frame.Some? {
        ghost var f := down;
        down := Grown(f, payload, outcome);
        AfterSeal(records, f, up, payload, outcome, aead.records);
        if f.key != up.key {
          NoncesStayUnique(records, f.key, n, RecordOf(down, n), aead.records);
          NoncesStayUnique(records, up.key, secondary.send.sendSeq, RecordOf(down, n), aead.records);
        }
      } else if up.key != down.key {
        SpentGrows(records, down.key, n);
      }
    }

    /** Whatever arrives, the primary takes it exactly when it is the secondary's next frame. */
    method DeliverUp(frame: Data, parses: Data -> bool) returns (r: Option<Data>)
      requires Valid()
      modifies this`gotUp, primary.recv`recvSeq, primary.recv`failed
      ensures Valid()
      ensures r.Some? <==> old(primary.Healthy()) && IsNext(up, |old(gotUp)|, frame, parses)
      ensures r.Some? ==> gotUp == old(gotUp) + [r.value] && r.value == up.plains[|old(gotUp)|]
      ensures r.None? ==> gotUp == old(gotUp)
      ensures primary.Healthy() <==> r.Some?
    {
      hide Opened, NoncesUnique, Recorded, FrameOf, Lookup;
      var parse := (d: Data) => if parses(d) then Some(d) else None;
      if |gotUp| < MAX_SEQUENCE {
        OpensExactly(aead.records, up, |gotUp|, frame, parse);
      }
      r := primary.Decode(aead, frame, parse);
      if r.Some? {
        gotUp := gotUp + [r.value];
      }
    }

    method DeliverDown(frame: Data, parses: Data -> bool) returns (r: Option<Data>)
      requires Valid()
      modifies this`gotDown, secondary.recv`recvSeq, secondary.recv`failed
      ensures Valid()
      ensures r.Some? <==> old(secondary.Healthy()) && IsNext(down, |old(gotDown)|, frame, parses)
      ensures r.Some? ==> gotDown == old(gotDown) + [r.value] && r.value == down.plains[|old(gotDown)|]
      ensures r.None? ==> gotDown == old(gotDown)
      ensures secondary.Healthy() <==> r.Some?
    {
      hide Opened, NoncesUnique, Recorded, FrameOf, Lookup;
      var parse := (d: Data) => if parses(d) then Some(d) else None;
      if |gotDown| < MAX_SEQUENCE {
        OpensExactly(aead.records, down, |gotDown|, frame, parse);
      }
      r := secondary.Decode(aead, frame, parse);
      if r.Some? {
        gotDown := gotDown + [r.value];
      }
    }

    /** Other connections seal under other keys. */
    method Elsewhere(record: Sealed)
      requires Valid() && record.key != up.key && record.key != down.key
      modifies aead
      ensures Valid() && aead.records == old(aead.records) + [record]
    {
      ghost var records := aead.records;
      aead.records := aead.records + [record];
      FlowKeeps(records, up, record, aead.records);
      FlowKeeps(records, down, record, aead.records);
      if up.key != down.key {
        NoncesStayUnique(records, up.key, secondary.send.sendSeq, record, aead.records);
        NoncesStayUnique(records, down.key, primary.send.sendSeq, record, aead.records);
      }
    }

    /** The connection stands where the ideal link stands. */
    ghost predicate Shows(l: Link)
      reads this, secondary.send, secondary.recv, primary.send, primary.recv
    {
      && up == l.up && down == l.down && gotUp == l.gotUp && gotDown == l.gotDown
      && secondary.Healthy() == !l.secondaryFailed && primary.Healthy() == !l.primaryFailed
    }

    /** One event has the result that the ideal link gives it, and seals what it shows. */
    method Step(e: Event, ghost l: Link) returns (r: Result)
      requires Valid() && EventOk(e, up.key, down.key) && Shows(l)
      modifies this, aead, secondary.send, secondary.recv, primary.send, primary.recv
      ensures Valid() && r == Answer(l, e) && Shows(Next(l, e))
      ensures aead.records == old(aead.records) + Sealing(l, e)
    {
      hide Recorded, NoncesUnique, FrameOf, Header, FrameAad, NonceFor;
      match e {
        case EncodeAt(atSecondary, payload, outcome) =>
          var frame;
          if atSecondary {
            frame := EncodeUp(payload, outcome);
          } else {
            frame := EncodeDown(payload, outcome);
          }
          r := if frame.Some? then Sent(frame.value) else Refused;
        case DeliverTo(atSecondary, frame, parses) =>
          var got;
          if atSecondary {
            got := DeliverDown(frame, parses);
          } else {
            got := DeliverUp(frame, parses);
          }
          r := if got.Some? then Received(got.value) else Refused;
        case SealedElsewhere(record) =>
          Elsewhere(record);
          r := Noted;
      }
    }
  }

  // ----- the ideal link: two queues without any cryptography -----

  datatype Result = Sent(frame: Data) | Received(payload: Data) | Refused | Noted

  /** What both ends have encoded and accepted, and whether they have failed. */
  datatype Link = Link(up: Flow, down: Flow, gotUp: seq<Data>, gotDown: seq<Data>,
                       secondaryFailed: bool, primaryFailed: bool)

  function Connected(upKey: Data, downKey: Data, upContext: Data, downContext: Data): (l: Link) {
    Link(Flow(upKey, upContext, [], []), Flow(downKey, downContext, [], []), [], [], false, false)
  }

  predicate FailedAt(l: Link, secondary: bool) {
    if secondary then l.secondaryFailed else l.primaryFailed
  }

  /** What an end has encoded. */
  function Outgoing(l: Link, secondary: bool): (f: Flow) {
    if secondary then l.up else l.down
  }

  /** What an end has accepted. */
  function Incoming(l: Link, secondary: bool): (got: seq<Data>) {
    if secondary then l.gotDown else l.gotUp
  }

  /** The frame with the next number, unchanged, and a payload that the parser takes. */
  predicate IsNext(f: Flow, n: nat, frame: Data, parses: Data -> bool) {
    n < |f.plains| == |f.cts| && frame == FrameOf(f, n) && parses(f.plains[n])
  }

  /** An end that has not failed sends the next frame and accepts exactly the peer's next frame. */
  function Answer(l: Link, e: Event): (r: Result) {
    match e
    case EncodeAt(at, payload, outcome) =>
      var n := |Outgoing(l, at).plains|;
      if !FailedAt(l, at) && n < MAX_SEQUENCE && outcome.Some? then Sent(Header(n) + outcome.value) else Refused
    case DeliverTo(at, frame, parses) =>
      var f, n := Outgoing(l, !at), |Incoming(l, at)|;
      if !FailedAt(l, at) && IsNext(f, n, frame, parses) then Received(f.plains[n]) else Refused
    case SealedElsewhere(_) => Noted
  }

  function Next(l: Link, e: Event): (l': Link) {
    match Answer(l, e)
    case Sent(_) =>
      if e.secondary then l.(up := Grown(l.up, e.payload, e.outcome))
      else l.(down := Grown(l.down, e.payload, e.outcome))
    case Received(payload) =>
      if e.secondary then l.(gotDown := l.gotDown + [payload]) else l.(gotUp := l.gotUp + [payload])
    case Refused => if e.secondary then l.(secondaryFailed := true) else l.(primaryFailed := true)
    case Noted => l
  }

  /** What an event adds to everything ever sealed. */
  function Sealing(l: Link, e: Event): (r: seq<Sealed>) {
    match e
    case EncodeAt(at, payload, outcome) => SealedBy(Outgoing(l, at), payload, outcome, Answer(l, e).Sent?)
    case DeliverTo(_, _, _) => []
    case SealedElsewhere(record) => [record]
  }

  /** The record of one seal, with the number of payloads before it as its sequence number. */
  function SealedBy(f: Flow, payload: Data, outcome: Option<Data>, sent: bool): (r: seq<Sealed>) {
    if sent && outcome.Some? && |f.plains| < U64_LIMIT
    then [Sealed(f.key, NonceFor(|f.plains|), FrameAad(f.context, |f.plains|), payload, outcome.value)]
    else []
  }

  function LinkAfter(l: Link, events: seq<Event>, n: nat): (l': Link)
    requires n <= |events|
  {
    if n == 0 then l else Next(LinkAfter(l, events, n - 1), events[n - 1])
  }

  function Seals(l: Link, events: seq<Event>, n: nat): (r: seq<Sealed>)
    requires n <= |events|
  {
    if n == 0 then [] else Seals(l, events, n - 1) + Sealing(LinkAfter(l, events, n - 1), events[n - 1])
  }

  function Grown(f: Flow, payload: Data, outcome: Option<Data>): (r: Flow)
  {
    if outcome.Some? then f.(plains := f.plains + [payload], cts := f.cts + [outcome.value]) else f
  }

  lemma AfterSeal(records: seq<Sealed>, f: Flow, other: Flow, payload: Data, outcome: Option<Data>,
                  records': seq<Sealed>)
    requires outcome.Some? && |outcome.value| >= GCM_TAG_LEN && |f.plains| < MAX_SEQUENCE
    requires Recorded(records, f) && Recorded(records, other) && f.context != other.context
    requires records' == records + [RecordOf(Grown(f, payload, outcome), |f.plains|)]
    ensures Recorded(records', Grown(f, payload, outcome)) && Recorded(records', other)
  {
    var f' := Grown(f, payload, outcome);
    var n := |f.plains|;
    FlowGrows(records, f, payload, outcome.value, f', records');
    forall j | 0 <= j < U64_LIMIT ensures RecordOf(f', n).aad != FrameAad(other.context, j) {
      FrameAadInjective(f.context, n, other.context, j);
    }
    FlowKeeps(records, other, RecordOf(f', n), records');
  }

  // ----- whole histories -----

  predicate At(e: Event, secondary: bool) {
    (e.EncodeAt? || e.DeliverTo?) && e.secondary == secondary
  }

  /** Payloads that an end encoded successfully among the first `n` events. */
  function Encoded(secondary: bool, events: seq<Event>, results: seq<Result>, n: nat): (r: seq<Data>)
    requires n <= |events| && n <= |results|
  {
    if n == 0 then []
    else
      var e := events[n - 1];
      Encoded(secondary, events, results, n - 1) +
      if e.EncodeAt? && e.secondary == secondary && results[n - 1].Sent? then [e.payload] else []
  }

  /** Payloads that an end accepted. */
  function Accepted(secondary: bool, events: seq<Event>, results: seq<Result>, n: nat): (r: seq<Data>)
    requires n <= |events| && n <= |results|
  {
    if n == 0 then []
    else
      Accepted(secondary, events, results, n - 1) +
      if At(events[n - 1], secondary) && results[n - 1].Received? then [results[n - 1].payload] else []
  }

  /** Every result is the ideal link's. */
  predicate Ideal(l: Link, events: seq<Event>, results: seq<Result>) {
    |results| <= |events| && forall i :: 0 <= i < |results| ==> results[i] == Answer(LinkAfter(l, events, i), events[i])
  }

  /** What one event does to the queues of an end. */
  lemma NextQueues(l: Link, e: Event, secondary: bool)
    ensures Outgoing(Next(l, e), secondary).plains == Outgoing(l, secondary).plains +
      (if e.EncodeAt? && e.secondary == secondary && Answer(l, e).Sent? then [e.payload] else [])
    ensures Incoming(Next(l, e), secondary) == Incoming(l, secondary) +
      (if At(e, secondary) && Answer(l, e).Received? then [Answer(l, e).payload] else [])
  {
    hide IsNext, Header;
  }

  /** A refusal fails its end, a failed end refuses everything and stays failed. */
  lemma NextFailure(l: Link, e: Event, secondary: bool)
    ensures At(e, secondary) && Answer(l, e) == Refused ==> FailedAt(Next(l, e), secondary)
    ensures At(e, secondary) && FailedAt(l, secondary) ==> Answer(l, e) == Refused
    ensures FailedAt(l, secondary) ==> FailedAt(Next(l, e), secondary)
  {
    hide IsNext, Header;
  }

  /** The queues of the link are what the results show. */
  lemma {:induction false} LinkHolds(l: Link, events: seq<Event>, results: seq<Result>, n: nat, secondary: bool)
    requires Ideal(l, events, results) && n <= |results|
    requires Outgoing(l, secondary).plains == [] && Incoming(l, secondary) == []
    ensures Outgoing(LinkAfter(l, events, n), secondary).plains == Encoded(secondary, events, results, n)
    ensures Incoming(LinkAfter(l, events, n), secondary) == Accepted(secondary, events, results, n)
    decreases n
  {
    hide Answer, Next;
    if n > 0 {
      LinkHolds(l, events, results, n - 1, secondary);
      assert results[n - 1] == Answer(LinkAfter(l, events, n - 1), events[n - 1]);
      NextQueues(LinkAfter(l, events, n - 1), events[n - 1], secondary);
    }
  }

  /** What an end has accepted is a prefix of what its peer has encoded. */
  lemma {:induction false} LinkIsFifo(l: Link, events: seq<Event>, n: nat, secondary: bool)
    requires n <= |events| && Incoming(l, secondary) <= Outgoing(l, !secondary).plains
    ensures Incoming(LinkAfter(l, events, n), secondary) <= Outgoing(LinkAfter(l, events, n), !secondary).plains
    decreases n
  {
    hide Next, Header;
    if n > 0 {
      LinkIsFifo(l, events, n - 1, secondary);
      NextQueues(LinkAfter(l, events, n - 1), events[n - 1], secondary);
      NextQueues(LinkAfter(l, events, n - 1), events[n - 1], !secondary);
    }
  }

  /** A refusal fails the end at which it happens, and a failed end only refuses. */
  lemma {:induction false} FailureIsFinal(l: Link, events: seq<Event>, i: nat, j: nat, secondary: bool)
    requires i < j < |events| && At(events[i], secondary) && At(events[j], secondary)
    requires Answer(LinkAfter(l, events, i), events[i]) == Refused
    ensures FailedAt(LinkAfter(l, events, j), secondary)
    ensures Answer(LinkAfter(l, events, j), events[j]) == Refused
  {
    hide Answer, Next;
    NextFailure(LinkAfter(l, events, i), events[i], secondary);
    StaysDown(l, events, i + 1, j, secondary);
    NextFailure(LinkAfter(l, events, j), events[j], secondary);
  }

  lemma {:induction false} StaysDown(l: Link, events: seq<Event>, i: nat, j: nat, secondary: bool)
    requires i <= j <= |events| && FailedAt(LinkAfter(l, events, i), secondary)
    ensures FailedAt(LinkAfter(l, events, j), secondary)
    decreases j
  {
    hide Answer, Next;
    if i < j {
      StaysDown(l, events, i, j - 1, secondary);
      NextFailure(LinkAfter(l, events, j - 1), events[j - 1], secondary);
    }
  }

  /** Nothing succeeds at an end after something was refused there. */
  predicate StaysFailed(events: seq<Event>, results: seq<Result>, secondary: bool) {
    |results| <= |events| &&
    forall i, j :: 0 <= i < j < |results| && At(events[i], secondary) && At(events[j], secondary) ==>
      (results[i] == Refused ==> results[j] == Refused)
  }

  /** Accepted payloads are a prefix of the encoded ones at every point, in the direction to one end. */
  predicate PrefixAccepted(events: seq<Event>, results: seq<Result>, secondary: bool) {
    |results| == |events| &&
    forall n :: 0 <= n <= |events| ==>
      Accepted(secondary, events, results, n) <= Encoded(!secondary, events, results, n)
  }

  lemma IdealRun(l: Link, events: seq<Event>, results: seq<Result>, secondary: bool)
    requires Ideal(l, events, results) && |results| == |events|
    requires l.up.plains == l.down.plains == l.gotUp == l.gotDown == []
    ensures PrefixAccepted(events, results, secondary) && StaysFailed(events, results, secondary)
  {
    hide Answer, LinkAfter;
    forall n | 0 <= n <= |events|
      ensures Accepted(secondary, events, results, n) <= Encoded(!secondary, events, results, n)
    {
      LinkIsFifo(l, events, n, secondary);
      LinkHolds(l, events, results, n, secondary);
      LinkHolds(l, events, results, n, !secondary);
    }
    forall i, j | 0 <= i < j < |results|
      && At(events[i], secondary) && At(events[j], secondary) && results[i] == Refused
      ensures results[j] == Refused
    {
      FailureIsFinal(l, events, i, j, secondary);
    }
  }

  /**
    * Any history of a connection: encodes at both ends, and a network that drops, replays,
    * reorders, reflects, alters and invents frames. Every event has the result that the ideal link
    * gives it; accepted payloads are a prefix of the encoded ones in each direction, a failure is
    * final, everything sealed is what the results show, and no nonce is used twice under one key.
    */
  method RunConnection(upKey: Data, downKey: Data, upContext: Data, downContext: Data, events: seq<Event>)
    returns (results: seq<Result>, records: seq<Sealed>, recvSeqs: (nat, nat))
    requires upContext != downContext
    requires forall i :: 0 <= i < |events| ==> EventOk(events[i], upKey, downKey)
    ensures |results| == |events|
    ensures Ideal(Connected(upKey, downKey, upContext, downContext), events, results)
    ensures PrefixAccepted(events, results, true) && PrefixAccepted(events, results, false)
    ensures StaysFailed(events, results, true) && StaysFailed(events, results, false)
    // the receive counters of the primary and of the secondary
    ensures recvSeqs.0 == |Accepted(false, events, results, |events|)|
    ensures recvSeqs.1 == |Accepted(true, events, results, |events|)|
    ensures records == Seals(Connected(upKey, downKey, upContext, downContext), events, |events|)
    ensures upKey != downKey ==> NoReuse(records, upKey) && NoReuse(records, downKey)
  {
    hide Answer, Next, Sealing, Recorded, EventOk, NoReuse, NoncesUnique, PrefixAccepted, StaysFailed, Accepted,
         Encoded;
    var c := new Connection(upKey, downKey, upContext, downContext);
    ghost var l0 := Connected(upKey, downKey, upContext, downContext);
    results := [];
    while |results| < |events|
      invariant |results| <= |events| && Ideal(l0, events, results)
      invariant c.Valid() && fresh(c) && fresh(c.aead) && c.Shows(LinkAfter(l0, events, |results|))
      invariant fresh(c.secondary.send) && fresh(c.secondary.recv) && fresh(c.primary.send) && fresh(c.primary.recv)
      invariant c.up.key == upKey && c.down.key == downKey
      invariant c.aead.records == Seals(l0, events, |results|)
    {
      ghost var l := LinkAfter(l0, events, |results|);
      NextKeepsKeys(l, events[|results|]);
      var r := c.Step(events[|results|], l);
      results := results + [r];
    }
    records, recvSeqs := c.aead.records, (c.primary.recv.recvSeq, c.secondary.recv.recvSeq);
    LinkHolds(l0, events, results, |events|, true);
    LinkHolds(l0, events, results, |events|, false);
    IdealRun(l0, events, results, true);
    IdealRun(l0, events, results, false);
    if upKey != downKey {
      UniqueIsNotReused(records, upKey, c.secondary.send.sendSeq);
      UniqueIsNotReused(records, downKey, c.primary.send.sendSeq);
    }
  }

  lemma NextKeepsKeys(l: Link, e: Event)
    ensures Next(l, e).up.key == l.up.key && Next(l, e).down.key == l.down.key
  {
  }

  lemma UniqueIsNotReused(records: seq<Sealed>, key: Data, n: nat)
    requires NoncesUnique(records, key, n)
    ensures NoReuse(records, key)
  {
  }
}
