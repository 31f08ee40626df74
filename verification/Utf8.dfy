/**
  * UTF-8 as the standard library's checker and lossy decoder see it: section 4 of
  * RFC 3629 for well-formedness, maximal-subpart replacement (section 3.9 of the
  * Unicode Standard) for ill-formed input. Text is kept as its UTF-8 bytes.
  */
module Utf8 {
  import opened Bytes

  /** What stands at the front of a byte string. */
  datatype Unit =
    | Scalar(len: nat)   // a well-formed sequence of `len` bytes
    | Invalid(len: nat)  // a maximal ill-formed subpart of `len` bytes
    | Incomplete         // the input ends inside a sequence that could still become well-formed

  predicate Continuation(b: byte) {
    0x80 <= b <= 0xBF
  }

  /** Number of bytes that a lead byte announces; 0 for a byte that cannot lead. */
  function Width(lead: byte): (w: nat)
    ensures w <= 4
  {
    if lead < 0x80 then 1
    else if 0xC2 <= lead <= 0xDF then 2
    else if 0xE0 <= lead <= 0xEF then 3
    else if 0xF0 <= lead <= 0xF4 then 4
    else 0
  }

  /** The second byte is restricted by the lead: no overlong forms, surrogates or values past U+10FFFF. */
  predicate SecondFits(lead: byte, second: byte) {
    && Continuation(second)
    && (lead == 0xE0 ==> 0xA0 <= second)
    && (lead == 0xED ==> second <= 0x9F)
    && (lead == 0xF0 ==> 0x90 <= second)
    && (lead == 0xF4 ==> second <= 0x8F)
  }

  /** One well-formed sequence, no more and no less. */
  predicate WellFormed(s: seq<byte>) {
    && s != []
    && |s| == Width(s[0])
    && (|s| >= 2 ==> SecondFits(s[0], s[1]))
    && (|s| >= 3 ==> Continuation(s[2]))
    && (|s| >= 4 ==> Continuation(s[3]))
  }

  /** Classify the front of the input, reading bytes left to right as the checker does. */
  function First(s: seq<byte>): (u: Unit)
    requires s != []
    ensures !u.Incomplete? ==> 0 < u.len <= |s|
  {
    var w := Width(s[0]);
    if w == 0 then Invalid(1)
    else if w == 1 then Scalar(1)
    else if |s| < 2 then Incomplete
    else if !SecondFits(s[0], s[1]) then Invalid(1)
    else if w == 2 then Scalar(2)
    else if |s| < 3 then Incomplete
    else if !Continuation(s[2]) then Invalid(2)
    else if w == 3 then Scalar(3)
    else if |s| < 4 then Incomplete
    else if !Continuation(s[3]) then Invalid(3)
    else Scalar(4)
  }

  /** A unit that is already decided stays the same however the input goes on. */
  lemma FirstStable(s: seq<byte>, more: seq<byte>)
    requires s != [] && !First(s).Incomplete?
    ensures First(s + more) == First(s)
  {
    forall i | 0 <= i < |s| ensures (s + more)[i] == s[i] {}
  }

  /** The checker accepts a front exactly when it is one well-formed sequence. */
  lemma ScalarIffWellFormed(s: seq<byte>, n: nat)
    requires s != [] && n <= |s|
    ensures First(s) == Scalar(n) <==> WellFormed(s[..n])
  {
    forall i | 0 <= i < n ensures s[..n][i] == s[i] {}
  }

  /** An undecided front is a proper prefix of some well-formed sequence, so at most three bytes. */
  lemma IncompleteIsProperPrefix(s: seq<byte>) returns (whole: seq<byte>)
    requires s != [] && First(s).Incomplete?
    ensures WellFormed(whole) && |s| < |whole| && whole[..|s|] == s
    ensures |s| <= 3
    ensures whole != REPLACEMENT
  {
    var w := Width(s[0]);
    var second: byte :=
      if |s| >= 2 then s[1] else if s[0] == 0xE0 then 0xA0 else if s[0] == 0xF0 then 0x90 else 0x80;
    var third: byte := if |s| >= 3 then s[2] else 0x80;
    whole := [s[0], second, third, 0x80][..w];
  }

  /** A beginning of some well-formed sequence, possibly all of it. */
  ghost predicate Viable(part: seq<byte>) {
    exists whole :: WellFormed(whole) && part <= whole
  }

  /**
    * What is replaced at once is a maximal subpart: the longest beginning of a well-formed sequence,
    * or one byte if there is none. The end of the input leaves open only what may still become one.
    */
  lemma InvalidIsMaximalSubpart(s: seq<byte>, n: nat)
    requires s != [] && n <= |s|
    ensures First(s) == Invalid(n) ==>
      n >= 1 && (n == 1 || Viable(s[..n])) && !WellFormed(s[..n]) && (n < |s| ==> !Viable(s[..n + 1]))
    ensures First(s).Incomplete? <==> Viable(s) && !WellFormed(s) && !exists k :: 0 < k < |s| && WellFormed(s[..k])
  {
    forall k | 0 < k <= |s| ensures WellFormed(s[..k]) <==> First(s) == Scalar(k) {
      ScalarIffWellFormed(s, k);
    }
    assert s[..|s|] == s;
    match First(s)
    case Incomplete =>
      var whole := IncompleteIsProperPrefix(s);
    case Invalid(m) =>
      InvalidSubpart(s, m);
    case Scalar(m) =>
      assert WellFormed(s[..m]);
  }

  lemma InvalidSubpart(s: seq<byte>, n: nat)
    requires s != [] && First(s) == Invalid(n)
    ensures n <= |s| && !WellFormed(s[..n]) && (n > 1 ==> Viable(s[..n])) && (n < |s| ==> !Viable(s[..n + 1]))
    ensures !Viable(s)
  {
    var w := Width(s[0]);
    forall i | 0 <= i < n ensures s[..n][i] == s[i] {}
    if w == 0 {
      LeadDecides(s);
    } else {
      assert n < |s|;
      var part := s[..n];
      assert First(part).Incomplete? && s[..1 + 0][0] == s[0];
      var whole := IncompleteIsProperPrefix(part);
      assert part <= whole;
      NextByteFails(s, n);
    }
  }

  /** A byte that cannot lead begins no well-formed sequence. */
  lemma LeadDecides(s: seq<byte>)
    requires s != [] && Width(s[0]) == 0
    ensures !Viable(s) && !WellFormed(s[..1]) && (|s| > 1 ==> !Viable(s[..2]))
  {
    forall whole | WellFormed(whole) ensures !(s <= whole) && (|s| > 1 ==> !(s[..2] <= whole)) {
      assert s[..1][0] == s[0];
      assert |s| > 1 ==> s[..2][0] == s[0];
    }
  }

  lemma NextByteFails(s: seq<byte>, n: nat)
    requires s != [] && First(s) == Invalid(n) && Width(s[0]) > 0
    ensures n < |s| && !Viable(s[..n + 1]) && !Viable(s)
  {
    var part := s[..n + 1];
    assert forall i :: 0 <= i <= n ==> part[i] == s[i];
    forall whole | WellFormed(whole) ensures !(part <= whole) {
      BeginningAgrees(part, whole);
    }
    BeginningIsViable(s, n + 1);
  }

  lemma BeginningAgrees(part: seq<byte>, whole: seq<byte>)
    ensures part <= whole ==> forall i :: 0 <= i < |part| ==> whole[i] == part[i]
  {}

  lemma BeginningIsViable(s: seq<byte>, n: nat)
    requires n <= |s|
    ensures Viable(s) ==> Viable(s[..n])
  {
    if whole :| WellFormed(whole) && s <= whole {
      assert s[..n] <= whole;
    }
  }

  /** The result of `std::str::from_utf8`: fine, or the position and length of the first error. */
  datatype Check = Valid | Error(validUpTo: nat, errorLen: Option<nat>)

  function FromUtf8(s: seq<byte>): (c: Check)
    ensures c.Error? ==> c.validUpTo < |s| && (c.errorLen.Some? ==> 0 < c.errorLen.value <= |s| - c.validUpTo)
  {
    if s == [] then Valid
    else
      match First(s)
      case Invalid(n) => Error(0, Some(n))
      case Incomplete => Error(0, None)
      case Scalar(n) =>
        match FromUtf8(s[n..])
        case Valid => Valid
        case Error(v, len) => Error(n + v, len)
  }

  predicate IsText(s: seq<byte>) {
    FromUtf8(s) == Valid
  }

  /** Text is what can be cut into well-formed sequences. */
  lemma {:induction false} TextIsWellFormed(s: seq<byte>) returns (pieces: seq<seq<byte>>)
    requires IsText(s)
    ensures Flatten(pieces) == s && forall i :: 0 <= i < |pieces| ==> WellFormed(pieces[i])
  {
    if s == [] {
      pieces := [];
    } else {
      var n := First(s).len;
      var more := TextIsWellFormed(s[n..]);
      ScalarIffWellFormed(s, n);
      pieces := [s[..n]] + more;
      assert pieces[1..] == more;
      SliceSplit(s, n, 0);
    }
  }

  lemma {:induction false} WellFormedIsText(pieces: seq<seq<byte>>)
    requires forall i :: 0 <= i < |pieces| ==> WellFormed(pieces[i])
    ensures IsText(Flatten(pieces))
  {
    if pieces != [] {
      var first, rest := pieces[0], Flatten(pieces[1..]);
      WellFormedIsText(pieces[1..]);
      var s := first + rest;
      assert s[..|first|] == first && s[|first|..] == rest;
      ScalarIffWellFormed(s, |first|);
    }
  }

  /** Encoding of U+FFFD. */
  const REPLACEMENT: seq<byte> := [0xEF, 0xBF, 0xBD]

  /** `String::from_utf8_lossy`. */
  function Lossy(s: seq<byte>): (r: seq<byte>) {
    if s == [] then []
    else
      match First(s)
      case Scalar(n) => s[..n] + Lossy(s[n..])
      case Invalid(n) => REPLACEMENT + Lossy(s[n..])
      case Incomplete => REPLACEMENT
  }

  /** The input up to a trailing undecided sequence. */
  function DecidedPrefix(s: seq<byte>): (r: seq<byte>)
    ensures r <= s
  {
    if s == [] then []
    else
      match First(s)
      case Scalar(n) => s[..n] + DecidedPrefix(s[n..])
      case Invalid(n) => s[..n] + DecidedPrefix(s[n..])
      case Incomplete => []
  }

  lemma {:induction false} TextConcat(a: seq<byte>, b: seq<byte>)
    requires IsText(a) && IsText(b)
    ensures IsText(a + b)
  {
    hide First;
    if a == [] {
      assert a + b == b;
    } else {
      var n := First(a).len;
      FirstStable(a, b);
      TextConcat(a[n..], b);
      assert (a + b)[n..] == a[n..] + b;
    }
  }

  /** The part of the decoding that no further input can change. */
  function SettledText(s: seq<byte>): (r: seq<byte>) {
    if s == [] then []
    else
      match First(s)
      case Scalar(n) => s[..n] + SettledText(s[n..])
      case Invalid(n) => REPLACEMENT + SettledText(s[n..])
      case Incomplete => []
  }

  /** Text up to here, and then no character. */
  predicate Stops(s: seq<byte>, v: nat, len: Option<nat>) {
    v < |s| && IsText(s[..v]) && First(s[v..]) == if len.Some? then Invalid(len.value) else Incomplete
  }

  /** The check stops at the first unit that is no character, after text, and says what it is. */
  lemma {:induction false} CheckFindsFirst(s: seq<byte>)
    ensures FromUtf8(s).Error? ==> Stops(s, FromUtf8(s).validUpTo, FromUtf8(s).errorLen)
    decreases |s|
  {
    hide First, FromUtf8, Stops;
    if s == [] || !First(s).Scalar? {
      StopsAtOnce(s);
    } else {
      var n := First(s).len;
      var rest := s[n..];
      CheckFindsFirst(rest);
      BehindCharacter(s, n, rest);
      if FromUtf8(rest).Error? {
        StopsLater(s, n, rest, FromUtf8(rest).validUpTo, FromUtf8(rest).errorLen);
      }
    }
  }

  lemma StopsAtOnce(s: seq<byte>)
    requires s == [] || !First(s).Scalar?
    ensures FromUtf8(s).Error? ==> Stops(s, FromUtf8(s).validUpTo, FromUtf8(s).errorLen)
  {
    assert s[..0] == [] && s[0..] == s;
  }

  lemma StopsLater(s: seq<byte>, n: nat, rest: seq<byte>, v: nat, len: Option<nat>)
    requires s != [] && First(s) == Scalar(n) && rest == s[n..] && Stops(rest, v, len)
    ensures Stops(s, n + v, len)
  {
    SliceSplit(s, n, v);
    CharacterThenText(s, n, v);
  }

  lemma CharacterThenText(s: seq<byte>, n: nat, v: nat)
    requires s != [] && First(s) == Scalar(n) && n + v <= |s| && IsText(s[n..][..v])
    ensures IsText(s[..n + v])
  {
    var t := s[..n + v];
    assert t[n..] == s[n..][..v] && t[..n] == s[..n];
    ScalarIffWellFormed(s, n);
    ScalarIffWellFormed(t, n);
  }

  /**
    * Decoding keeps text as it is and puts one replacement character where the checker reports an
    * error; an error at the very end, without a length, is what settled text leaves out.
    */
  lemma {:induction false} LossyFollowsCheck(s: seq<byte>)
    ensures IsText(s) ==> Lossy(s) == SettledText(s) == s
    ensures FromUtf8(s).Error? ==> Replaces(s, FromUtf8(s).validUpTo, FromUtf8(s).errorLen)
    decreases |s|
  {
    hide First, FromUtf8, Lossy, SettledText, Replaces;
    if s == [] || !First(s).Scalar? {
      AtFirstError(s);
    } else {
      var n := First(s).len;
      var rest := s[n..];
      LossyFollowsCheck(rest);
      BehindCharacter(s, n, rest);
      if FromUtf8(rest).Error? {
        ReplacesLater(s, n, rest, FromUtf8(rest).validUpTo, FromUtf8(rest).errorLen);
      }
    }
  }

  /** An error is decoded to U+FFFD between the text before it and the decoding of what follows. */
  predicate Replaces(s: seq<byte>, v: nat, len: Option<nat>) {
    && v + (if len.Some? then len.value else 0) <= |s|
    && Lossy(s) == s[..v] + Replaced(BehindError(s, v, len))
    && SettledText(s) == s[..v] + ReplacedIfSettled(BehindError(s, v, len))
  }

  /** What follows an error, unless the input ends inside it. */
  function BehindError(s: seq<byte>, v: nat, len: Option<nat>): (r: Option<seq<byte>>)
    requires v + (if len.Some? then len.value else 0) <= |s|
  {
    if len.Some? then Some(s[v + len.value..]) else None
  }

  function Replaced(more: Option<seq<byte>>): (r: seq<byte>) {
    [0xEF, 0xBF, 0xBD] + if more.Some? then Lossy(more.value) else []
  }

  function ReplacedIfSettled(more: Option<seq<byte>>): (r: seq<byte>) {
    if more.Some? then [0xEF, 0xBF, 0xBD] + SettledText(more.value) else []
  }

  lemma AtFirstError(s: seq<byte>)
    requires s == [] || !First(s).Scalar?
    ensures IsText(s) ==> s == [] == Lossy(s) == SettledText(s)
    ensures FromUtf8(s).Error? ==> Replaces(s, FromUtf8(s).validUpTo, FromUtf8(s).errorLen)
  {}

  lemma BehindCharacter(s: seq<byte>, n: nat, rest: seq<byte>)
    requires s != [] && First(s) == Scalar(n) && rest == s[n..]
    ensures s == s[..n] + rest && Lossy(s) == s[..n] + Lossy(rest) && SettledText(s) == s[..n] + SettledText(rest)
    ensures IsText(s) <==> IsText(rest)
    ensures FromUtf8(rest).Error? ==> FromUtf8(s) == Error(n + FromUtf8(rest).validUpTo, FromUtf8(rest).errorLen)
  {}

  lemma ReplacesLater(s: seq<byte>, n: nat, rest: seq<byte>, v: nat, len: Option<nat>)
    requires n <= |s| && rest == s[n..] && Replaces(rest, v, len)
    requires Lossy(s) == s[..n] + Lossy(rest) && SettledText(s) == s[..n] + SettledText(rest)
    ensures Replaces(s, n + v, len)
  {
    hide Lossy, SettledText, Replaced, ReplacedIfSettled, BehindError;
    SameBehind(s, n, rest, v, len);
    var more := BehindError(s, n + v, len);
    Shifted(s, n, rest, v, Replaced(more), Lossy(rest), Lossy(s));
    Shifted(s, n, rest, v, ReplacedIfSettled(more), SettledText(rest), SettledText(s));
  }

  lemma SameBehind(s: seq<byte>, n: nat, rest: seq<byte>, v: nat, len: Option<nat>)
    requires n <= |s| && rest == s[n..] && v + (if len.Some? then len.value else 0) <= |rest|
    ensures BehindError(rest, v, len) == BehindError(s, n + v, len)
  {
    if len.Some? {
      SliceSplit(s, n, v + len.value);
    }
  }

  lemma Shifted(s: seq<byte>, n: nat, rest: seq<byte>, v: nat, tail: seq<byte>, part: seq<byte>, whole: seq<byte>)
    requires n + v <= |s| && rest == s[n..] && part == rest[..v] + tail && whole == s[..n] + part
    ensures whole == s[..n + v] + tail
  {
    SliceSplit(s, n, v);
    ConcatAssoc(s[..n], rest[..v], tail);
  }

  /** Settled text only grows, and never disagrees with a later full decoding. */
  lemma {:induction false} SettledTextGrows(s: seq<byte>, more: seq<byte>)
    ensures SettledText(s) <= SettledText(s + more)
    ensures SettledText(s) <= Lossy(s + more)
  {
    hide First;
    if s == [] {
    } else if First(s).Incomplete? {
      assert SettledText(s) == [];
    } else {
      var n := First(s).len;
      FirstStable(s, more);
      SettledTextGrows(s[n..], more);
      assert (s + more)[n..] == s[n..] + more && (s + more)[..n] == s[..n];
    }
  }

  /** Replacing the tail of an ill-formed front, past its first offending byte, changes nothing. */
  lemma FirstOfDecided(s: seq<byte>, rest: seq<byte>)
    requires s != [] && !First(s).Incomplete?
    requires var n := First(s).len; rest <= s[n..]
    ensures var n := First(s).len; var t := s[..n] + rest;
      First(t) == First(s) || (rest == [] && First(t).Incomplete? && First(s).Invalid?)
  {
    var t := s[..First(s).len] + rest;
    forall i | 0 <= i < |t| ensures t[i] == s[i] {}
  }

  /** Decoding the decided prefix gives exactly the settled text. */
  lemma {:induction false} LossyOfDecidedPrefix(s: seq<byte>)
    ensures Lossy(DecidedPrefix(s)) == SettledText(s)
  {
    if s == [] || First(s).Incomplete? {
    } else {
      var n := First(s).len;
      var rest := DecidedPrefix(s[n..]);
      var t := s[..n] + rest;
      assert t == DecidedPrefix(s);
      LossyOfDecidedPrefix(s[n..]);
      FirstOfDecided(s, rest);
      assert t[n..] == rest && t[..n] == s[..n];
      if First(t) != First(s) {
        assert SettledText(s[n..]) == [];
      }
    }
  }

  /** What `DecidedPrefix` leaves out. */
  function DroppedTail(s: seq<byte>): (r: seq<byte>) {
    if s == [] || First(s).Incomplete? then s else DroppedTail(s[First(s).len..])
  }

  lemma {:induction false} SplitAtTail(s: seq<byte>)
    ensures s == DecidedPrefix(s) + DroppedTail(s)
    ensures DroppedTail(s) == [] || First(DroppedTail(s)).Incomplete?
  {
    if s != [] && !First(s).Incomplete? {
      var n := First(s).len;
      SplitAtTail(s[n..]);
      SliceSplit(s, n, 0);
      ConcatAssoc(s[..n], DecidedPrefix(s[n..]), DroppedTail(s[n..]));
    }
  }

  /** Whatever follows, the tail that was dropped is decoded together with it. */
  lemma {:induction false} LossyOfExtension(s: seq<byte>, more: seq<byte>)
    ensures Lossy(s + more) == SettledText(s) + Lossy(DroppedTail(s) + more)
  {
    hide First;
    if s != [] && !First(s).Incomplete? {
      var n := First(s).len;
      FirstStable(s, more);
      LossyOfExtension(s[n..], more);
      assert (s + more)[n..] == s[n..] + more && (s + more)[..n] == s[..n];
      ConcatAssoc(if First(s).Scalar? then s[..n] else REPLACEMENT, SettledText(s[n..]),
                  Lossy(DroppedTail(s[n..]) + more));
    }
  }

  lemma IncompleteCut(s: seq<byte>, k: nat, t: seq<byte>)
    requires s != [] && First(s).Incomplete? && 0 < k <= |s| && t == s[..k]
    ensures First(t).Incomplete?
  {
    assert forall i :: 0 <= i < k ==> t[i] == s[i];
  }

  /** Keeping any byte of the dropped tail would decode it to a replacement character. */
  lemma {:induction false} LossyOfCutTail(s: seq<byte>, k: nat)
    requires |DecidedPrefix(s)| < k <= |s|
    ensures Lossy(s[..k]) == SettledText(s) + REPLACEMENT
  {
    hide First;
    var t := s[..k];
    if First(s).Incomplete? {
      IncompleteCut(s, k, t);
    } else {
      var n := First(s).len;
      FirstOfDecided(s, s[n..k]);
      assert t == s[..n] + s[n..k] && t[n..] == s[n..][..k - n] && t[..n] == s[..n];
      LossyOfCutTail(s[n..], k - n);
      ConcatAssoc(if First(s).Scalar? then s[..n] else REPLACEMENT, SettledText(s[n..]), REPLACEMENT);
    }
  }

  /**
    * `DecidedPrefix` is the longest prefix whose decoding stays valid: keep one byte more and
    * some continuation of the input contradicts what was decoded.
    */
  lemma LongerPrefixIsUnstable(s: seq<byte>, k: nat) returns (more: seq<byte>)
    requires |DecidedPrefix(s)| < k <= |s|
    ensures !(Lossy(s[..k]) <= Lossy(s + more))
  {
    hide First;
    var tail := DroppedTail(s);
    SplitAtTail(s);
    var whole := IncompleteIsProperPrefix(tail);
    more := whole[|tail|..];
    LossyOfExtension(s, more);
    LossyOfCutTail(s, k);
    assert tail + more == whole;
    WholeDecodesToItself(whole);
    PrefixCancel(SettledText(s), REPLACEMENT, whole);
  }

  lemma WholeDecodesToItself(whole: seq<byte>)
    requires WellFormed(whole) && whole != REPLACEMENT
    ensures Lossy(whole) == whole && !(REPLACEMENT <= whole)
  {
    assert First(whole) == Scalar(|whole|);
    assert whole[|whole|..] == [] && whole[..|whole|] == whole;
    assert |whole| == 3 && whole[..3] == REPLACEMENT ==> whole == REPLACEMENT;
  }

  lemma PrefixCancel(a: seq<byte>, b: seq<byte>, c: seq<byte>)
    ensures a + b <= a + c ==> b <= c
  {
    if a + b <= a + c {
      assert b == (a + b)[|a|..] && c == (a + c)[|a|..];
    }
  }

  /** How far one check decides its input: up to the error, or past it when the error has a length. */
  function DecidedBy(s: seq<byte>): (k: nat)
    ensures k <= |s|
  {
    match FromUtf8(s)
    case Valid => |s|
    case Error(v, None) => v
    case Error(v, Some(n)) => v + n
  }

  /** Where decoding resumes after one check. */
  function ResumeAt(s: seq<byte>): (rest: seq<byte>) {
    var check := FromUtf8(s);
    if check.Error? && check.errorLen.None? then [] else s[DecidedBy(s)..]
  }

  lemma {:induction false} DecidedPrefixAfterCheck(s: seq<byte>)
    ensures DecidedPrefix(s) == s[..DecidedBy(s)] + DecidedPrefix(ResumeAt(s))
  {
    hide First;
    if s != [] && First(s).Scalar? {
      var n := First(s).len;
      var rest := s[n..];
      var k := DecidedBy(rest);
      DecidedPrefixAfterCheck(rest);
      assert DecidedBy(s) == n + k;
      SliceSplit(s, n, k);
      assert ResumeAt(s) == ResumeAt(rest);
      ConcatAssoc(s[..n], rest[..k], DecidedPrefix(ResumeAt(rest)));
    }
  }

  /** Everything before position `i` is decided, and nothing after it depends on it. */
  ghost predicate ResumesAt(s: seq<byte>, i: nat) {
    i <= |s| && DecidedPrefix(s) == s[..i] + DecidedPrefix(s[i..])
  }

  /** The loop step of `CompleteUtf8Prefix`: the decided part grows by what one check decides. */
  lemma ExtendDecided(s: seq<byte>, i: nat, rest: seq<byte>)
    requires ResumesAt(s, i) && rest == s[i..]
    ensures FromUtf8(rest).Valid? ==> DecidedPrefix(s) == s
    ensures match FromUtf8(rest)
      case Valid => true
      case Error(v, None) => DecidedPrefix(s) == s[..i + v]
      case Error(v, Some(n)) => ResumesAt(s, i + v + n)
  {
    hide First, FromUtf8, DecidedPrefix;
    var k := DecidedBy(rest);
    var resumed := ResumeAt(rest);
    DecidedPrefixAfterCheck(rest);
    SliceSplit(s, i, k);
    ConcatAssoc(s[..i], rest[..k], DecidedPrefix(resumed));
    NothingDecided();
    if k == |rest| {
      assert s[..i + k] == s;
    }
  }

  lemma NothingDecided()
    ensures DecidedPrefix([]) == []
  {
  }

  /**
    * The prefix that a poll may decode without inventing a replacement character: at most
    * three bytes shorter, dropping only an unfinished sequence, and stable under all further input.
    */
  method CompleteUtf8Prefix(bytes: seq<byte>) returns (r: seq<byte>)
    ensures r == DecidedPrefix(bytes)
  {
    hide First, FromUtf8, DecidedPrefix, ResumesAt;
    var start := 0;
    var rest := bytes[start..];
    var check := FromUtf8(rest);
    FromTheStart(bytes);
    while check.Error?
      invariant 0 <= start <= |bytes| && ResumesAt(bytes, start)
      invariant rest == bytes[start..] && check == FromUtf8(rest)
      decreases |bytes| - start
    {
      ExtendDecided(bytes, start, rest);
      start := start + check.validUpTo;
      match check.errorLen {
        case Some(len) =>
          start := start + len;
        case None =>
          return bytes[..start];
      }
      rest := bytes[start..];
      check := FromUtf8(rest);
    }
    ExtendDecided(bytes, start, rest);
    r := bytes;
  }

  lemma FromTheStart(s: seq<byte>)
    ensures ResumesAt(s, 0)
  {
    hide DecidedPrefix;
    assert s[0..] == s && s[..0] + DecidedPrefix(s) == DecidedPrefix(s);
  }

  /** What the decided prefix is good for: it drops little, and only what may still become text. */
  lemma StablePrefix(bytes: seq<byte>)
    ensures var r := DecidedPrefix(bytes);
      && |bytes| - |r| <= 3
      && (r == bytes || exists whole :: WellFormed(whole) && bytes[|r|..] < whole)
      && forall more :: Lossy(r) <= Lossy(bytes + more)
  {
    var r := DecidedPrefix(bytes);
    SplitAtTail(bytes);
    if r != bytes {
      assert bytes[|r|..] == DroppedTail(bytes);
      var whole := IncompleteIsProperPrefix(DroppedTail(bytes));
    }
    LossyOfDecidedPrefix(bytes);
    forall more ensures Lossy(r) <= Lossy(bytes + more) {
      SettledTextGrows(bytes, more);
    }
  }
}
