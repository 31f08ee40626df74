/**
  * Windows console input for attach: an incremental decoder that keeps VT input sequences whole
  * and collects bracketed pastes. It is proved equal to a tokenizer that sees the whole input.
  */
module PasteInput {
  import opened Bytes
  import opened Text

  const ESC: char := '\U{1b}'
  const PASTE_START: string := [ESC, '[', '2', '0', '0', '~']
  const PASTE_END: string := [ESC, '[', '2', '0', '1', '~']
  const MAX_SEQUENCE_BYTES: nat := 256

  /** Text stands for its UTF-8 bytes; only the size limit looks at the number of bytes. */
  datatype DecodedInput = Raw(text: string) | Paste(text: string)

  // ----- when an escape sequence is complete (section 5.4 of ECMA-48) -----

  /** Parameter and intermediate characters, which do not end a control sequence. */
  predicate InSequence(c: char) {
    ' ' <= c <= '?'
  }

  predicate VtSequenceComplete(s: string) {
    if Utf8Size(s) > MAX_SEQUENCE_BYTES then true
    else if s == [] then false
    else if CharSize(s[0]) > 1 then true
    else if |s| == 1 then false
    else if s[1] == '[' && |s| > 2 && s[2] == 'M' then |s| >= 6
    else if s[1] == '[' || s[1] == 'O' then exists i :: 2 <= i < |s| && !InSequence(s[i])
    else true
  }

  // ----- the specification: a tokenizer over the whole input -----

  predicate OccursAt(marker: string, s: string, k: nat) {
    k + |marker| <= |s| && s[k..k + |marker|] == marker
  }

  /** First occurrence of the end marker at or after `from`. */
  function FindEnd(s: string, from: nat): (r: Option<nat>)
    requires from <= |s|
    ensures r.Some? ==> from <= r.value && OccursAt(PASTE_END, s, r.value)
    ensures forall k :: from <= k && (r.Some? ==> k < r.value) ==> !OccursAt(PASTE_END, s, k)
    decreases |s| - from
  {
    if OccursAt(PASTE_END, s, from) then Some(from)
    else if from == |s| then None
    else FindEnd(s, from + 1)
  }

  /** Length of the shortest complete sequence of at least `from` characters. */
  function ShortestSequence(s: string, from: nat): (r: Option<nat>)
    requires from <= |s|
    ensures r.Some? ==> from <= r.value <= |s| && VtSequenceComplete(s[..r.value])
    ensures forall n :: from <= n <= |s| && (r.Some? ==> n < r.value) ==> !VtSequenceComplete(s[..n])
    decreases |s| - from
  {
    if VtSequenceComplete(s[..from]) then Some(from)
    else if from == |s| then None
    else ShortestSequence(s, from + 1)
  }

  /** The first token of the input with its length, if the input already contains all of it. */
  function FirstToken(s: string): (r: Option<(DecodedInput, nat)>)
    ensures r.Some? ==> 0 < r.value.1 <= |s|
  {
    if s == [] then None
    else if PASTE_START <= s then
      match FindEnd(s, 6)
      case None => None
      case Some(k) => Some((Paste(s[6..k]), k + 6))
    else if s[0] != ESC then Some((Raw(s[..1]), 1))
    else
      match ShortestSequence(s, 1)
      case None => None
      case Some(n) => Some((Raw(s[..n]), n))
  }

  datatype Tokens = Tokens(events: seq<DecodedInput>, rest: string)

  function Tokenize(s: string): (r: Tokens)
    decreases |s|
  {
    match FirstToken(s)
    case None => Tokens([], s)
    case Some((event, n)) =>
      var t := Tokenize(s[n..]);
      Tokens([event] + t.events, t.rest)
  }

  // ----- facts about complete sequences -----

  /** A proper prefix of the start marker is never a token. */
  lemma StartPrefixIsPending(s: string)
    requires s < PASTE_START
    ensures FirstToken(s) == None && Tokenize(s) == Tokens([], s)
  {
    forall n | 0 <= n <= |s| ensures !VtSequenceComplete(s[..n]) {
      assert forall i :: 0 <= i < n ==> s[..n][i] == PASTE_START[i];
    }
  }

  lemma FindEndStable(s: string, more: string, whole: string)
    requires whole == s + more && |s| >= 6 && FindEnd(s, 6).Some?
    ensures FindEnd(whole, 6) == FindEnd(s, 6)
  {
    var k := FindEnd(s, 6).value;
    forall j | 6 <= j <= k ensures OccursAt(PASTE_END, whole, j) <==> OccursAt(PASTE_END, s, j) {
      assert whole[j..j + 6] == s[j..j + 6];
    }
  }

  lemma ShortestStable(s: string, more: string, whole: string)
    requires whole == s + more && |s| >= 1 && ShortestSequence(s, 1).Some?
    ensures ShortestSequence(whole, 1) == ShortestSequence(s, 1)
  {
    hide VtSequenceComplete;
    assert forall i :: 0 <= i <= |s| ==> whole[..i] == s[..i];
  }

  /** A token that is complete stays the first token whatever follows. */
  lemma FirstTokenStable(s: string, more: string, whole: string)
    requires whole == s + more && FirstToken(s).Some?
    ensures FirstToken(whole) == FirstToken(s)
  {
    assert forall i :: 0 <= i < |s| ==> whole[i] == s[i];
    if PASTE_START <= s {
      FindEndStable(s, more, whole);
      var k := FindEnd(s, 6).value;
      assert whole[6..k] == s[6..k];
    } else {
      if PASTE_START <= whole {
        assert s < PASTE_START;
        StartPrefixIsPending(s);
      }
      if s[0] == ESC {
        ShortestStable(s, more, whole);
        var n := ShortestSequence(s, 1).value;
        assert whole[..n] == s[..n];
      } else {
        assert whole[..1] == s[..1];
      }
    }
  }

  /** Appending input re-tokenizes only the part that was still pending. */
  lemma {:induction false} TokenizeAppend(s: string, more: string, whole: string, pending: string)
    requires whole == s + more && pending == Tokenize(s).rest + more
    ensures Tokenize(whole).events == Tokenize(s).events + Tokenize(pending).events
    ensures Tokenize(whole).rest == Tokenize(pending).rest
    decreases |s|
  {
    match FirstToken(s) {
      case None =>
        assert whole == pending;
      case Some((event, n)) =>
        FirstTokenStable(s, more, whole);
        var rest := whole[n..];
        assert rest == s[n..] + more;
        TokenizeAppend(s[n..], more, rest, pending);
        ConcatAssoc([event], Tokenize(s[n..]).events, Tokenize(pending).events);
    }
  }

  // ----- the decoder -----

  /** No suffix of the body that is longer than what is held back can begin the end marker. */
  ghost predicate HeldBack(body: string, from: nat) {
    forall k :: 0 <= k < from && k <= |body| ==> !(body[k..] <= PASTE_END)
  }

  /** Inside a paste: the body so far has no end marker, and `pending` is its longest suffix that may begin one. */
  ghost predicate OpenPaste(paste: string, pending: string, body: string) {
    && body == paste + pending
    && pending < PASTE_END
    && HeldBack(body, |paste|)
    && FirstToken(PASTE_START + body).None?
  }

  /** Outside a paste: nothing is pending, or an escape sequence that is not complete. */
  ghost predicate OpenSequence(pending: string) {
    && !(PASTE_START <= pending)
    && FirstToken(pending).None?
  }

  /** One more character cannot make a longer suffix fit. */
  lemma HeldBackStep(body: string, from: nat, body': string, ch: char)
    requires from <= |body| && body' == body + [ch] && HeldBack(body, from)
    ensures HeldBack(body', from)
  {
    forall k | 0 <= k < from ensures !(body'[k..] <= PASTE_END) {
      assert body'[k..] == body[k..] + [ch];
      assert body[k..] <= body'[k..];
    }
  }

  /** Without an end marker at the very end, the paste stays open. */
  lemma PasteStaysOpen(body: string, body': string, ch: char)
    requires body' == body + [ch]
    requires FirstToken(PASTE_START + body).None?
    requires |body'| >= 6 ==> body'[|body'| - 6..] != PASTE_END
    ensures FirstToken(PASTE_START + body').None?
  {
    var s, s' := PASTE_START + body, PASTE_START + body';
    assert FindEnd(s, 6).None?;
    forall k | 6 <= k ensures !OccursAt(PASTE_END, s', k) {
      if k + 6 < |s'| {
        assert s'[k..k + 6] == s[k..k + 6];
        assert !OccursAt(PASTE_END, s, k);
      } else if k + 6 == |s'| {
        assert s'[k..k + 6] == body'[|body'| - 6..];
      }
    }
  }

  lemma EndIsFirst(s: string, s': string, ch: char, e: nat)
    requires 6 <= |s| && s' == s + [ch] && FindEnd(s, 6).None?
    requires 6 <= e && e + 6 == |s'| && s'[e..e + 6] == PASTE_END
    ensures FindEnd(s', 6) == Some(e)
  {
    hide FindEnd;
    assert OccursAt(PASTE_END, s', e);
    forall k | 6 <= k < e ensures !OccursAt(PASTE_END, s', k) {
      assert s'[k..k + 6] == s[k..k + 6];
      assert !OccursAt(PASTE_END, s, k);
    }
    FirstEnd(s', e);
  }

  lemma FirstEnd(s: string, e: nat)
    requires 6 <= e <= |s| && OccursAt(PASTE_END, s, e)
    requires forall k :: 6 <= k < e ==> !OccursAt(PASTE_END, s, k)
    ensures FindEnd(s, 6) == Some(e)
  {
    hide OccursAt, FindEnd;
    var found := FindEnd(s, 6);
    assert found.Some? && OccursAt(PASTE_END, s, found.value);
    assert found.value <= e;
  }

  lemma PasteEnds(paste: string, body: string, body': string, ch: char)
    requires body' == body + [ch] && body' == paste + PASTE_END
    requires FirstToken(PASTE_START + body).None?
    ensures Tokenize(PASTE_START + body') == Tokens([Paste(paste)], [])
  {
    var s, s', e := PASTE_START + body, PASTE_START + body', 6 + |paste|;
    assert s'[e..e + 6] == PASTE_END && s'[6..e] == paste && s'[e + 6..] == [];
    EndIsFirst(s, s', ch, e);
    assert PASTE_START <= s' && FirstToken(s') == Some((Paste(paste), |s'|));
    assert Tokenize([]) == Tokens([], []);
  }

  /** One more character after an incomplete sequence: the whole of it is the token, or still incomplete. */
  lemma SequenceStep(pending: string, pending': string, ch: char)
    requires OpenSequence(pending) && pending' == pending + [ch] && pending'[0] == ESC
    requires !(pending' <= PASTE_START)
    ensures !VtSequenceComplete(pending') ==> OpenSequence(pending') && Tokenize(pending') == Tokens([], pending')
    ensures VtSequenceComplete(pending') ==> Tokenize(pending') == Tokens([Raw(pending')], [])
  {
    hide VtSequenceComplete;
    var n := |pending'|;
    assert n > 6 ==> pending'[..6] == pending[..6];
    forall i | 1 <= i < n ensures !VtSequenceComplete(pending'[..i]) {
      assert pending'[..i] == pending[..i];
      assert ShortestSequence(pending, 1).None?;
    }
    assert pending'[..n] == pending' && pending'[n..] == [];
    assert Tokenize([]) == Tokens([], []);
  }

  lemma OpenSequenceStart(pending: string)
    requires OpenSequence(pending)
    ensures pending == [] || pending[0] == ESC
  {
  }

  class PasteDecoder {
    var pending: string
    var paste: Option<string>

    ghost predicate Valid()
      reads this
    {
      match paste
      case None => OpenSequence(pending)
      case Some(body) => OpenPaste(body, pending, body + pending)
    }

    /** The input that has been read but not turned into an event. */
    ghost function Unread(): (s: string)
      reads this
    {
      if paste.Some? then PASTE_START + (paste.value + pending) else pending
    }

    constructor ()
      ensures Valid() && Unread() == []
    {
      pending, paste := [], None;
    }

    method Push(ch: char) returns (out: seq<DecodedInput>)
      requires Valid()
      modifies this
      ensures Valid()
      ensures Tokens(out, Unread()) == Tokenize(old(Unread()) + [ch])
    {
      hide FirstToken, VtSequenceComplete, Tokenize;
      EmptyPaste();
      ghost var before := if paste.Some? then paste.value + pending else pending;
      ghost var after := before + [ch];
      ghost var inPaste := paste.Some?;
      if inPaste {
        ConcatAssoc(PASTE_START, before, [ch]);
        ConcatAssoc(paste.value, pending, [ch]);
        HeldBackStep(before, |paste.value|, after, ch);
      } else {
        OpenSequenceStart(pending);
      }
      pending := pending + [ch];
      out := [];
      while true
        invariant paste.Some? == inPaste
        invariant inPaste ==> out == [] && paste.value + pending == after && HeldBack(after, |paste.value|)
        invariant !inPaste ==>
          || (out == [] && pending == after)
          || (out == [Raw(after)] && pending == [] && after == [ch] && ch != ESC)
        decreases |pending|
      {
        var marker := if paste.Some? then PASTE_END else PASTE_START;
        if pending == marker {
          pending := [];
          if paste.Some? {
            PasteEnds(paste.value, before, after, ch);
            out := out + [Paste(paste.value)];
            paste := None;
          } else {
            paste := Some([]);
          }
          break;
        }
        if pending <= marker {
          if inPaste {
            HeldBackIsOpen(paste.value, pending, after, before, ch);
          } else if pending != [] {
            StartPrefixIsPending(pending);
          } else {
            OneCharacter(ch);
          }
          break;
        }
        if paste.None? && pending[0] == ESC {
          SequenceStep(before, pending, ch);
          if !VtSequenceComplete(pending) {
            break;
          }
          out := out + [Raw(pending)];
          pending := [];
          break;
        }
        var first := pending[0];
        ghost var held := pending;
        pending := pending[1..];
        if paste.Some? {
          HeldBackGrows(paste.value, held, after);
          paste := Some(paste.value + [first]);
        } else {
          out := out + [Raw([first])];
        }
      }
    }

    /** Character by character, the decoder produces what the tokenizer makes of the whole input. */
    method PushAll(text: string) returns (out: seq<DecodedInput>)
      requires Valid()
      modifies this
      ensures Valid()
      ensures Tokens(out, Unread()) == Tokenize(old(Unread()) + text)
    {
      out := [];
      ghost var start := Unread();
      UnreadIsPending();
      ghost var read := start;
      for i := 0 to |text|
        invariant Valid()
        invariant read == start + text[..i]
        invariant Tokens(out, Unread()) == Tokenize(read)
      {
        ghost var unread := Unread();
        var events := Push(text[i]);
        TokenizeAppend(read, [text[i]], read + [text[i]], unread + [text[i]]);
        ReadStep(start, text, i, read);
        read, out := read + [text[i]], out + events;
      }
      assert text[..|text|] == text;
    }

    lemma UnreadIsPending()
      requires Valid()
      ensures Tokenize(Unread()) == Tokens([], Unread())
    {
    }
  }

  lemma ReadStep(start: string, text: string, i: nat, read: string)
    requires i < |text| && read == start + text[..i]
    ensures read + [text[i]] == start + text[..i + 1]
  {
  }

  /** Held-back text is short: an escape sequence of at most 256 bytes, or part of the end marker. */
  lemma PendingIsBounded(decoder: PasteDecoder)
    requires decoder.Valid()
    ensures Utf8Size(decoder.pending) <= MAX_SEQUENCE_BYTES
    ensures decoder.paste.Some? ==>
      && decoder.pending < PASTE_END
      && forall k :: 0 <= k < |decoder.paste.value| ==>
           !((decoder.paste.value + decoder.pending)[k..] <= PASTE_END)
  {
    var pending := decoder.pending;
    if decoder.paste.None? && pending != [] {
      assert ShortestSequence(pending, 1).None? && pending[..|pending|] == pending;
      assert !VtSequenceComplete(pending);
    }
  }

  // ----- what the tokens are -----

  /** The input that an event stands for; a paste is put back between its markers. */
  function Wire(event: DecodedInput): (s: string) {
    match event
    case Raw(text) => text
    case Paste(text) => PASTE_START + text + PASTE_END
  }

  function WireAll(events: seq<DecodedInput>): (s: string) {
    if events == [] then [] else Wire(events[0]) + WireAll(events[1..])
  }

  lemma FirstTokenWire(s: string)
    requires FirstToken(s).Some?
    ensures Wire(FirstToken(s).value.0) == s[..FirstToken(s).value.1]
  {
    hide FindEnd, ShortestSequence;
    if PASTE_START <= s {
      var k := FindEnd(s, 6).value;
      assert s[..6] == PASTE_START && s[k..k + 6] == PASTE_END;
      assert s[..k + 6] == s[..6] + s[6..k] + s[k..k + 6];
    }
  }

  /** Nothing is lost, added or reordered. */
  lemma {:induction false} InputIsConserved(s: string)
    ensures WireAll(Tokenize(s).events) + Tokenize(s).rest == s
    decreases |s|
  {
    hide FirstToken, Wire, WireAll;
    match FirstToken(s) {
      case None =>
        WireNothing();
      case Some((event, n)) =>
        var rest := s[n..];
        FirstTokenWire(s);
        InputIsConserved(rest);
        WireCons(event, Tokenize(rest).events);
        ConcatAssoc(Wire(event), WireAll(Tokenize(rest).events), Tokenize(rest).rest);
        SliceSplit(s, n, 0);
    }
  }

  lemma WireNothing()
    ensures WireAll([]) == []
  {
  }

  lemma WireCons(event: DecodedInput, events: seq<DecodedInput>)
    ensures WireAll([event] + events) == Wire(event) + WireAll(events)
  {
    hide Wire;
    assert ([event] + events)[1..] == events;
  }

  /**
    * A raw event is one ordinary character or one escape sequence that is complete and was not
    * complete any earlier; a paste ends at the first end marker after its start.
    */
  predicate WellTokenized(event: DecodedInput) {
    match event
    case Raw(text) =>
      || (|text| == 1 && text[0] != ESC)
      || (|text| > 1 && text[0] == ESC && text != PASTE_START && VtSequenceComplete(text)
          && forall n :: 1 <= n < |text| ==> !VtSequenceComplete(text[..n]))
    case Paste(text) =>
      forall k :: 0 <= k < |text| ==> !OccursAt(PASTE_END, text + PASTE_END, k)
  }

  lemma SameOccurrence(s: string, part: string, k: nat, end: nat)
    requires 6 <= end <= |s| && part == s[6..end] && k + 6 <= |part|
    ensures OccursAt(PASTE_END, part, k) <==> OccursAt(PASTE_END, s, 6 + k)
  {
    var a, b := part[k..k + 6], s[6 + k..6 + k + 6];
    assert forall i :: 0 <= i < 6 ==> a[i] == part[k + i] == s[6 + k + i] == b[i];
    assert a == b;
  }

  lemma PasteIsWell(s: string, e: nat, text: string)
    requires 6 <= |s| && FindEnd(s, 6) == Some(e) && text == s[6..e]
    ensures WellTokenized(Paste(text))
  {
    hide FindEnd;
    var whole := text + PASTE_END;
    assert s[e..e + 6] == PASTE_END;
    assert whole == s[6..e + 6];
    forall k | 0 <= k < |text| ensures !OccursAt(PASTE_END, whole, k) {
      SameOccurrence(s, whole, k, e + 6);
    }
  }

  lemma LoneEscapeIsIncomplete(s: string)
    requires s != [] && s[0] == ESC
    ensures !VtSequenceComplete(s[..1])
  {
    assert s[..1] == [ESC];
  }

  lemma SequenceIsWell(s: string, n: nat, text: string)
    requires s != [] && s[0] == ESC && !(PASTE_START <= s)
    requires ShortestSequence(s, 1) == Some(n) && text == s[..n]
    ensures WellTokenized(Raw(text))
  {
    hide ShortestSequence, VtSequenceComplete;
    LoneEscapeIsIncomplete(s);
    assert text[0] == ESC && text != PASTE_START;
    forall i | 1 <= i < n ensures !VtSequenceComplete(text[..i]) {
      assert text[..i] == s[..i];
    }
  }

  lemma FirstTokenIsWell(s: string)
    requires FirstToken(s).Some?
    ensures WellTokenized(FirstToken(s).value.0)
  {
    if PASTE_START <= s {
      var e := FindEnd(s, 6).value;
      PasteIsWell(s, e, s[6..e]);
    } else if s[0] == ESC {
      var n := ShortestSequence(s, 1).value;
      SequenceIsWell(s, n, s[..n]);
    }
  }

  lemma {:induction false} EventsAreWell(s: string)
    ensures forall event <- Tokenize(s).events :: WellTokenized(event)
    decreases |s|
  {
    match FirstToken(s) {
      case None =>
      case Some((event, n)) =>
        FirstTokenIsWell(s);
        EventsAreWell(s[n..]);
    }
  }

  lemma EmptyPaste()
    ensures Tokenize(PASTE_START) == Tokens([], PASTE_START)
    ensures FirstToken([]) == None
    ensures OpenPaste([], [], [] + [])
  {
    assert PASTE_START + [] == PASTE_START;
  }

  lemma OneCharacter(ch: char)
    requires ch != ESC
    ensures Tokenize([ch]) == Tokens([Raw([ch])], [])
  {
    assert [ch][..1] == [ch] && [ch][1..] == [];
    assert Tokenize([]) == Tokens([], []);
  }

  lemma HeldBackGrows(paste: string, pending: string, body: string)
    requires body == paste + pending && pending != [] && !(pending <= PASTE_END)
    requires HeldBack(body, |paste|)
    ensures body == (paste + [pending[0]]) + pending[1..]
    ensures HeldBack(body, |paste| + 1)
  {
    assert body[|paste|..] == pending;
  }

  lemma HeldBackIsOpen(paste: string, pending: string, body': string, body: string, ch: char)
    requires body' == paste + pending && body' == body + [ch]
    requires pending < PASTE_END && HeldBack(body', |paste|)
    requires FirstToken(PASTE_START + body).None?
    ensures OpenPaste(paste, pending, body')
    ensures Tokenize(PASTE_START + body') == Tokens([], PASTE_START + body')
  {
    if |body'| >= 6 {
      assert |body'| - 6 < |paste|;
    }
    PasteStaysOpen(body, body', ch);
  }

  // ----- the grammar of input sequences, said without the predicate above -----

  /** Characters that may stand between the introducer of a control sequence and its end. */
  predicate Body(body: string) {
    forall i :: 0 <= i < |body| ==> ' ' <= body[i] <= '?'
  }

  /** ESC, an introducer, parameters and intermediates, and one final character. */
  predicate ControlSequence(s: string) {
    && |s| >= 3 && s[0] == ESC && s[1] in {'[', 'O'}
    && Body(s[2..|s| - 1]) && !(' ' <= s[|s| - 1] <= '?')
  }

  /** ESC [ M and three characters: button, column and row. */
  predicate LegacyMouse(s: string) {
    |s| == 6 && s[0] == ESC && s[1] == '[' && s[2] == 'M'
  }

  /** ESC and any character that introduces nothing longer. */
  predicate TwoCharacters(s: string) {
    |s| == 2 && s[0] == ESC && s[1] !in {'[', 'O'}
  }

  /** One whole sequence: a control or SS3 sequence, a mouse report, or ESC and one character. */
  predicate OneSequence(s: string) {
    && Utf8Size(s) <= 256 && s != PASTE_START
    && ((ControlSequence(s) && s[..3] != [ESC, '[', 'M']) || LegacyMouse(s) || TwoCharacters(s))
  }

  /** Such a sequence is complete, and it was not complete any earlier. */
  lemma SequenceIsComplete(s: string, n: nat)
    requires OneSequence(s) && 1 <= n <= |s|
    ensures VtSequenceComplete(s[..n]) <==> n == |s|
  {
    hide Utf8Size;
    var part := s[..n];
    SizeOfPrefix(s, n);
    assert forall i :: 0 <= i < n ==> part[i] == s[i];
    if ControlSequence(s) {
      assert forall i :: 2 <= i < |s| - 1 ==> s[i] == s[2..|s| - 1][i - 2];
      assert s[..3] == [s[0], s[1], s[2]];
    }
  }

  lemma {:induction false} SizeOfPrefix(s: string, n: nat)
    requires n <= |s|
    ensures Utf8Size(s[..n]) <= Utf8Size(s)
    decreases |s|
  {
    if n < |s| {
      var front := s[..|s| - 1];
      SizeOfPrefix(front, n);
      assert front[..n] == s[..n];
    } else {
      assert s[..n] == s;
    }
  }

  lemma OnlyThePasteMarker(s: string, whole: string)
    requires ControlSequence(s) && s <= whole && PASTE_START <= whole
    ensures s == PASTE_START
  {
    assert forall i :: 0 <= i < 6 ==> whole[i] == PASTE_START[i];
    assert forall i :: 0 <= i < |s| ==> whole[i] == s[i];
    assert forall i :: 2 <= i < |s| - 1 ==> s[i] == s[2..|s| - 1][i - 2];
    var last := s[|s| - 1];
    assert |s| == 3 ==> last == '2';
    assert |s| in {4, 5} ==> last == '0';
    assert whole[5] == '~' && |s| <= 6;
    assert whole[..6] == PASTE_START;
  }

  /** The paste marker is a control sequence of its own, so no other sequence begins with it. */
  lemma NotAPaste(s: string, whole: string)
    requires OneSequence(s) && s <= whole
    ensures !(PASTE_START <= whole)
  {
    hide Utf8Size;
    if ControlSequence(s) && PASTE_START <= whole {
      OnlyThePasteMarker(s, whole);
    }
    StartsWithEscape(s);
    assert whole[1] == s[1] && (|s| > 2 ==> whole[2] == s[2]);
  }

  /** A whole sequence is exactly one event whatever follows, and none of it is an event before its end. */
  lemma SequenceIsOneEvent(s: string, rest: string, whole: string)
    requires OneSequence(s) && whole == s + rest
    ensures Tokenize(whole).events == [Raw(s)] + Tokenize(rest).events && Tokenize(whole).rest == Tokenize(rest).rest
    ensures forall n :: 0 <= n < |s| ==> Tokenize(s[..n]) == Tokens([], s[..n])
  {
    hide VtSequenceComplete, OneSequence;
    StartsWithEscape(s);
    NotAPaste(s, whole);
    forall n | 1 <= n <= |s| ensures VtSequenceComplete(whole[..n]) <==> n == |s| {
      SequenceIsComplete(s, n);
      assert whole[..n] == s[..n];
    }
    ShortestIs(whole, |s|);
    assert whole[..|s|] == s && whole[|s|..] == rest;
    forall n | 0 <= n < |s| ensures Tokenize(s[..n]) == Tokens([], s[..n]) {
      NoTokenYet(s, n);
    }
  }

  lemma StartsWithEscape(s: string)
    requires OneSequence(s)
    ensures |s| >= 2 && s[0] == ESC
  {
  }

  lemma ShortestIs(s: string, n: nat)
    requires 1 <= n <= |s| && VtSequenceComplete(s[..n])
    requires forall k :: 1 <= k < n ==> !VtSequenceComplete(s[..k])
    ensures ShortestSequence(s, 1) == Some(n)
  {
    hide VtSequenceComplete, ShortestSequence;
    var r := ShortestSequence(s, 1);
    assert r.Some? && r.value <= n;
  }

  lemma NoTokenYet(s: string, n: nat)
    requires OneSequence(s) && n < |s|
    ensures Tokenize(s[..n]) == Tokens([], s[..n])
  {
    hide VtSequenceComplete, OneSequence;
    StartsWithEscape(s);
    var part := s[..n];
    if n > 0 {
      NotAPaste(s, s);
      assert PASTE_START <= part ==> PASTE_START <= s;
      forall k | 1 <= k <= n ensures !VtSequenceComplete(part[..k]) {
        SequenceIsComplete(s, k);
        assert part[..k] == s[..k];
      }
      assert ShortestSequence(part, 1).None?;
    }
  }

  /** A sequence without an end is given up as soon as it is longer than 256 bytes. */
  lemma EndlessSequenceIsCut(s: string, rest: string, whole: string)
    requires |s| == 257 && s[0] == ESC && s[1] in {'[', 'O'} && Body(s[2..]) && whole == s + rest
    ensures FirstToken(whole) == Some((Raw(s), 257))
  {
    hide VtSequenceComplete;
    assert forall i :: 2 <= i < 257 ==> s[i] == s[2..][i - 2];
    forall n | 1 <= n <= 257 ensures VtSequenceComplete(whole[..n]) <==> n == 257 {
      assert whole[..n] == s[..n];
      CutAt(s, n);
    }
    ShortestIs(whole, 257);
    assert whole[5] == s[5] && s[5] != '~';
    assert whole[..257] == s;
  }

  lemma CutAt(s: string, n: nat)
    requires |s| == 257 && s[0] == ESC && s[1] in {'[', 'O'} && 1 <= n <= 257
    requires forall i :: 2 <= i < 257 ==> ' ' <= s[i] <= '?'
    ensures VtSequenceComplete(s[..n]) <==> n == 257
  {
    hide Utf8Size;
    var part := s[..n];
    assert forall i :: 0 <= i < n ==> part[i] == s[i];
    AsciiSize(part);
  }

  lemma {:induction false} AsciiSize(s: string)
    requires forall i :: 0 <= i < |s| ==> s[i] < 0x80 as char
    ensures Utf8Size(s) == |s|
  {
    if s != [] {
      AsciiSize(s[..|s| - 1]);
    }
  }

  /** A character other than ESC is an event of its own. */
  lemma CharacterIsOneEvent(ch: char, rest: string, whole: string)
    requires ch != ESC && whole == [ch] + rest
    ensures Tokenize(whole).events == [Raw([ch])] + Tokenize(rest).events
    ensures Tokenize(whole).rest == Tokenize(rest).rest
  {
    hide VtSequenceComplete;
    assert whole[0] == ch && whole[..1] == [ch] && whole[1..] == rest;
  }

  /** A bracketed text without the end marker is one paste, with everything in it. */
  lemma BracketedIsOnePaste(text: string, rest: string, whole: string)
    requires whole == PASTE_START + text + PASTE_END + rest
    requires forall k :: 0 <= k < |text| ==> !OccursAt(PASTE_END, text + PASTE_END, k)
    ensures Tokenize(whole).events == [Paste(text)] + Tokenize(rest).events
    ensures Tokenize(whole).rest == Tokenize(rest).rest
  {
    hide FindEnd, OccursAt;
    var e := 6 + |text|;
    var body := text + PASTE_END;
    assert whole[6..e + 6] == body && whole[6..e] == text && whole[e + 6..] == rest && PASTE_START <= whole;
    assert whole[e..e + 6] == PASTE_END;
    forall k | 6 <= k < e ensures !OccursAt(PASTE_END, whole, k) {
      SameOccurrence(whole, body, k - 6, e + 6);
      assert !OccursAt(PASTE_END, body, k - 6);
    }
    EndAt(whole, e);
    FirstEnd(whole, e);
  }

  lemma EndAt(s: string, e: nat)
    requires 6 <= e && e + 6 <= |s| && s[e..e + 6] == PASTE_END
    ensures OccursAt(PASTE_END, s, e)
  {
  }
}
