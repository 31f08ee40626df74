/** A federation connection from handshake to last frame. */
module Federation {
  import opened Bytes
  import opened Handshake
  import opened SealedChannel

  /** The shared secret is the same from both sides. */
  ghost predicate Commutes(p: Primitives, a: Identity, b: Identity) {
    p.dh(a.secret, p.toX25519(b.pub)) == p.dh(b.secret, p.toX25519(a.pub))
  }

  /** Events that the derived keys allow: nobody else seals under them. */
  ghost predicate EventsOk(p: Primitives, secondary: Identity, primary: Identity, transcript: seq<byte>,
                           events: seq<Event>) {
    var ends := ChannelEnds(p, secondary, primary.pub, transcript, true);
    ends.Some? ==>
      forall i :: 0 <= i < |events| ==> EventOk(events[i], ends.value.sendKey, ends.value.recvKey)
  }

  /** The link between the ends that both peers derive. */
  function LinkOf(ends: Ends): (l: Link) {
    Connected(ends.sendKey, ends.recvKey, ends.sendAad, ends.recvAad)
  }

  /**
    * Two peers that built the same transcript each derive their own end. Either both or neither get
    * one; between the two ends every event has the result that the ideal link gives it, so that what
    * a peer accepts is a prefix of what the other one encoded and a failure is final; everything
    * sealed is what the results show, and no nonce repeats under a key.
    */
  method Federate(p: Primitives, secondary: Identity, primary: Identity, transcript: seq<byte>, events: seq<Event>)
    returns (results: Option<seq<Result>>, records: seq<Sealed>, recvSeqs: (nat, nat))
    requires p.isKey(secondary.pub) && p.isKey(primary.pub) && Commutes(p, secondary, primary)
    requires EventsOk(p, secondary, primary, transcript, events)
    ensures results.Some? <==> ChannelEnds(p, secondary, primary.pub, transcript, true).Some?
    ensures results.Some? <==> ChannelEnds(p, primary, secondary.pub, transcript, false).Some?
    ensures results.Some? ==> |results.value| == |events|
    ensures results.Some? ==>
      var l := LinkOf(ChannelEnds(p, secondary, primary.pub, transcript, true).value);
      Ideal(l, events, results.value) && records == Seals(l, events, |events|)
    ensures results.Some? ==>
      PrefixAccepted(events, results.value, true) && PrefixAccepted(events, results.value, false)
    ensures results.Some? ==> StaysFailed(events, results.value, true) && StaysFailed(events, results.value, false)
    ensures results.Some? ==> recvSeqs.0 == |Accepted(false, events, results.value, |events|)|
    ensures results.Some? ==> recvSeqs.1 == |Accepted(true, events, results.value, |events|)|
    ensures results.Some? && Separates(p, InputsOf(p, secondary, primary.pub, transcript)) ==>
      var ends := ChannelEnds(p, secondary, primary.pub, transcript, true).value;
      NoReuse(records, ends.sendKey) && NoReuse(records, ends.recvKey)
  {
    hide ChannelEnds, Separates, InputsOf, Ideal, Seals, PrefixAccepted, StaysFailed, Accepted, NoReuse;
    records, recvSeqs := [], (0, 0);
    PeersAgree(p, secondary, primary, transcript);
    var low := ChannelEnds(p, secondary, primary.pub, transcript, true);
    var high := ChannelEnds(p, primary, secondary.pub, transcript, false);
    if low.None? || high.None? {
      return None, records, recvSeqs;
    }
    DirectionsDiffer(p, secondary, primary.pub, transcript, true);
    var run;
    run, records, recvSeqs :=
      RunConnection(low.value.sendKey, high.value.sendKey, low.value.sendAad, high.value.sendAad, events);
    results := Some(run);
  }

  /**
    * Events of a second connection between the same peers: what is sealed elsewhere may be anything
    * of the first connection, or what others seal under keys that are not this connection's.
    */
  ghost predicate AfterFirst(p: Primitives, secondary: Identity, primary: Identity, earlier: seq<byte>,
                             transcript: seq<byte>, events: seq<Event>) {
    forall i :: 0 <= i < |events| ==>
      AfterFirstOk(ChannelEnds(p, secondary, primary.pub, earlier, true),
                   ChannelEnds(p, secondary, primary.pub, transcript, true), events[i])
  }

  ghost predicate AfterFirstOk(earlier: Option<Ends>, ends: Option<Ends>, e: Event) {
    match e
    case EncodeAt(_, payload, outcome) => outcome.Some? ==> |outcome.value| == |payload| + GCM_TAG_LEN
    case DeliverTo(_, _, _) => true
    case SealedElsewhere(r) =>
      || (earlier.Some? && r.key in {earlier.value.sendKey, earlier.value.recvKey})
      || (ends.Some? ==> r.key !in {ends.value.sendKey, ends.value.recvKey})
  }

  /** Hash and key derivation treat the two transcripts as they should. */
  ghost predicate KeepsApart(p: Primitives, secondary: Identity, primary: Identity, t: seq<byte>, t': seq<byte>) {
    && CollisionFree(p, {t, t'})
    && Separates(p, InputsOf(p, secondary, primary.pub, t) + InputsOf(p, secondary, primary.pub, t'))
  }

  /** What the first connection sealed is sealed under other keys. */
  lemma EarlierIsElsewhere(p: Primitives, secondary: Identity, primary: Identity, earlier: seq<byte>,
                           transcript: seq<byte>, events: seq<Event>)
    requires earlier != transcript && KeepsApart(p, secondary, primary, earlier, transcript)
    requires AfterFirst(p, secondary, primary, earlier, transcript, events)
    ensures EventsOk(p, secondary, primary, transcript, events)
  {
    hide ChannelEnds, Separates, InputsOf, CollisionFree;
    var first := ChannelEnds(p, secondary, primary.pub, earlier, true);
    var second := ChannelEnds(p, secondary, primary.pub, transcript, true);
    if first.Some? && second.Some? {
      EndsAreFresh(p, secondary, primary.pub, earlier, true, secondary, primary.pub, transcript, true);
    }
    forall i | second.Some? && 0 <= i < |events|
      ensures EventOk(events[i], second.value.sendKey, second.value.recvKey)
    {
      assert AfterFirstOk(first, second, events[i]);
    }
  }

  /**
    * The same peers connect again, with a join that differs in anything, as in a fresh nonce. The two
    * connections share no key, so that no key and nonce are used twice across them, and everything
    * that was sealed in the first one may be delivered in the second without being accepted.
    */
  method Reconnect(p: Primitives, secondary: Identity, primary: Identity, first: Join, second: Join,
                   events: seq<Event>, later: seq<Event>)
    returns (one: Option<seq<Result>>, two: Option<seq<Result>>, ghost records: seq<Sealed>, ghost more: seq<Sealed>)
    requires p.isKey(secondary.pub) && p.isKey(primary.pub) && Commutes(p, secondary, primary)
    requires JoinOk(first) && JoinOk(second) && first != second
    requires KeepsApart(p, secondary, primary, EncodeFields(Fields(first)), EncodeFields(Fields(second)))
    requires EventsOk(p, secondary, primary, EncodeFields(Fields(first)), events)
    requires AfterFirst(p, secondary, primary, EncodeFields(Fields(first)), EncodeFields(Fields(second)), later)
    ensures one.Some? <==> ChannelEnds(p, secondary, primary.pub, EncodeFields(Fields(first)), true).Some?
    ensures two.Some? <==> ChannelEnds(p, secondary, primary.pub, EncodeFields(Fields(second)), true).Some?
    ensures one.Some? ==> RunsIdeally(p, secondary, primary, first, events, one.value, records)
    ensures two.Some? ==> RunsIdeally(p, secondary, primary, second, later, two.value, more)
    ensures one.Some? && two.Some? ==>
      var e := ChannelEnds(p, secondary, primary.pub, EncodeFields(Fields(first)), true).value;
      var e' := ChannelEnds(p, secondary, primary.pub, EncodeFields(Fields(second)), true).value;
      {e.sendKey, e.recvKey} !! {e'.sendKey, e'.recvKey}
  {
    hide ChannelEnds, Separates, InputsOf, Ideal, Seals, PrefixAccepted, StaysFailed, Accepted, NoReuse, EncodeFields,
         Fields, CollisionFree, EventsOk, AfterFirst;
    var t := BuildTranscript(first);
    var t' := BuildTranscript(second);
    if t == t' {
      TranscriptInjective(first, second);
    }
    Subsets(p, InputsOf(p, secondary, primary.pub, t), InputsOf(p, secondary, primary.pub, t'));
    EarlierIsElsewhere(p, secondary, primary, t, t', later);
    var recvSeqs;
    one, records, recvSeqs := Federate(p, secondary, primary, t, events);
    two, more, recvSeqs := Federate(p, secondary, primary, t', later);
    if one.Some? && two.Some? {
      EndsAreFresh(p, secondary, primary.pub, t, true, secondary, primary.pub, t', true);
    }
  }

  lemma Subsets(p: Primitives, a: set<KdfInput>, b: set<KdfInput>)
    requires Separates(p, a + b)
    ensures Separates(p, a) && Separates(p, b)
  {
    assert forall x :: x in a ==> x in a + b;
    assert forall x :: x in b ==> x in a + b;
  }

  /** A connection with this join has the ideal link's results, and no nonce repeats under its keys. */
  ghost predicate RunsIdeally(p: Primitives, secondary: Identity, primary: Identity, join: Join, events: seq<Event>,
                              results: seq<Result>, records: seq<Sealed>)
  {
    var ends := ChannelEnds(p, secondary, primary.pub, EncodeFields(Fields(join)), true);
    && ends.Some? && |results| == |events|
    && Ideal(LinkOf(ends.value), events, results) && records == Seals(LinkOf(ends.value), events, |events|)
    && NoReuse(records, ends.value.sendKey) && NoReuse(records, ends.value.recvKey)
  }
}
