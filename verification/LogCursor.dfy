/** Opaque cursor tokens: session, incarnation and offset behind unpadded base64url. */
module LogCursor {
  import opened Bytes
  import opened Text
  import opened Utf8
  import Base64

  const SEPARATOR: byte := 0x7C  // '|'
  const ZERO: byte := 0x30       // '0'
  const PLUS: byte := 0x2B       // '+'
  const TOKEN_VERSION: seq<byte> := [0x76, 0x31]  // "v1"

  datatype StreamPosition = StreamPosition(incarnation: nat, offset: nat)

  predicate PositionOk(p: StreamPosition) {
    p.incarnation < U64_LIMIT && p.offset < U64_LIMIT
  }

  datatype DecodeResult = Position(position: StreamPosition) | Usage | WrongSession(owner: seq<byte>)

  // ----- decimal numbers -----

  predicate IsDigit(b: byte) {
    ZERO <= b <= ZERO + 9
  }

  function Decimal(n: nat): (s: seq<byte>)
    ensures s != [] && forall i :: 0 <= i < |s| ==> IsDigit(s[i])
  {
    if n < 10 then [ZERO + n] else Decimal(n / 10) + [ZERO + n % 10]
  }

  function DigitsValue(s: seq<byte>): (v: nat)
    requires forall i :: 0 <= i < |s| ==> IsDigit(s[i])
  {
    if s == [] then 0
    else
      assert IsDigit(s[|s| - 1]);
      DigitsValue(s[..|s| - 1]) * 10 + (s[|s| - 1] - ZERO)
  }

  /** Without its plus sign, if it has one. */
  function Unsigned(s: seq<byte>): (digits: seq<byte>)
    ensures digits == s || [PLUS] + digits == s
  {
    if s != [] && s[0] == PLUS then s[1..] else s
  }

  /** `str::parse::<u64>`: an optional plus sign, digits only, no overflow. */
  function ParseU64(s: seq<byte>): (r: Option<nat>)
    ensures r.Some? ==> r.value < U64_LIMIT
  {
    var digits := Unsigned(s);
    if digits == [] || exists i :: 0 <= i < |digits| && !IsDigit(digits[i]) then None
    else if DigitsValue(digits) >= U64_LIMIT then None
    else Some(DigitsValue(digits))
  }

  lemma {:induction false} DecimalValue(n: nat)
    ensures DigitsValue(Decimal(n)) == n
  {
    if n >= 10 {
      var s := Decimal(n);
      assert s[..|s| - 1] == Decimal(n / 10);
      DecimalValue(n / 10);
    } else {
      assert DigitsValue([]) == 0 && [ZERO + n][..0] == [];
    }
  }

  lemma DecimalRoundTrip(n: nat)
    requires n < U64_LIMIT
    ensures ParseU64(Decimal(n)) == Some(n)
  {
    DecimalValue(n);
    assert IsDigit(Decimal(n)[0]);
  }

  // ----- splitting at the separator -----

  predicate NoSeparator(s: seq<byte>) {
    forall i :: 0 <= i < |s| ==> s[i] != SEPARATOR
  }

  function SeparatorFrom(s: seq<byte>, from: nat): (n: nat)
    requires from <= |s|
    ensures from <= n <= |s|
    ensures n < |s| ==> s[n] == SEPARATOR
    ensures forall i :: from <= i < n ==> s[i] != SEPARATOR
    decreases |s| - from
  {
    if from == |s| || s[from] == SEPARATOR then from else SeparatorFrom(s, from + 1)
  }

  /** `str::split`: always at least one field. */
  function Split(s: seq<byte>): (r: seq<seq<byte>>)
    ensures |r| >= 1
  {
    var n := SeparatorFrom(s, 0);
    if n == |s| then [s] else [s[..n]] + Split(s[n + 1..])
  }

  function Separators(s: seq<byte>): (n: nat) {
    if s == [] then 0 else (if s[0] == SEPARATOR then 1 else 0) + Separators(s[1..])
  }

  lemma SplitFirst(head: seq<byte>, rest: seq<byte>, s: seq<byte>)
    requires NoSeparator(head) && s == head + [SEPARATOR] + rest
    ensures Split(s) == [head] + Split(rest)
  {
    var n := SeparatorFrom(s, 0);
    assert s[|head|] == SEPARATOR;
    assert forall i :: 0 <= i < |head| ==> s[i] == head[i];
    assert n == |head|;
    assert s[..n] == head && s[n + 1..] == rest;
  }

  lemma SplitLast(s: seq<byte>)
    requires NoSeparator(s)
    ensures Split(s) == [s]
  {
  }

  lemma {:induction false} SeparatorsConcat(a: seq<byte>, b: seq<byte>, s: seq<byte>)
    requires s == a + b
    ensures Separators(s) == Separators(a) + Separators(b)
    decreases |a|
  {
    if a == [] {
      assert s == b;
    } else {
      assert s[1..] == a[1..] + b;
      SeparatorsConcat(a[1..], b, s[1..]);
    }
  }

  lemma {:induction false} NoSeparatorsCount(s: seq<byte>)
    ensures NoSeparator(s) <==> Separators(s) == 0
  {
    if s != [] {
      NoSeparatorsCount(s[1..]);
      assert NoSeparator(s) ==> NoSeparator(s[1..]) by {
        assert forall i :: 0 <= i < |s[1..]| ==> s[1..][i] == s[i + 1];
      }
      assert s == [s[0]] + s[1..];
    }
  }

  /** One field more than separators. */
  lemma {:induction false} SplitCount(s: seq<byte>)
    ensures |Split(s)| == 1 + Separators(s)
    decreases |s|
  {
    var n := SeparatorFrom(s, 0);
    if n == |s| {
      NoSeparatorsCount(s);
    } else {
      SplitCount(s[n + 1..]);
      var head := s[..n];
      NoSeparatorsCount(head);
      assert s == head + s[n..] && s[n..][1..] == s[n + 1..];
      SeparatorsConcat(head, s[n..], s);
    }
  }

  // ----- tokens -----

  function Plain(session: seq<byte>, p: StreamPosition): (s: seq<byte>) {
    TOKEN_VERSION + [SEPARATOR] + Body(session, p)
  }

  function Body(session: seq<byte>, p: StreamPosition): (s: seq<byte>) {
    session + [SEPARATOR] + Numbers(p)
  }

  function Numbers(p: StreamPosition): (s: seq<byte>) {
    Decimal(p.incarnation) + [SEPARATOR] + Decimal(p.offset)
  }

  function Encode(session: seq<byte>, p: StreamPosition): (token: string) {
    Base64.Encode(Plain(session, p), Base64.UrlSafe, false)
  }

  function Decode(session: seq<byte>, token: string): (r: DecodeResult) {
    match Base64.Decode(Trim(token), Base64.UrlSafe)
    case None => Usage
    case Some(plain) =>
      if !IsText(plain) then Usage
      else
        var fields := Split(plain);
        if fields[0] != TOKEN_VERSION || |fields| != 4 then Usage
        else if fields[1] != session then WrongSession(fields[1])
        else
          match (ParseU64(fields[2]), ParseU64(fields[3]))
          case (Some(incarnation), Some(offset)) => Position(StreamPosition(incarnation, offset))
          case _ => Usage
  }

  lemma {:induction false} DecodableChars(t: string, i: nat)
    requires Base64.Decode(t, Base64.UrlSafe).Some? && i < |t|
    ensures Base64.ValueOf(t[i], Base64.UrlSafe).Some?
    decreases |t|
  {
    if |t| > 4 {
      if i < 4 {
        assert t[..4][i] == t[i];
      } else {
        DecodableChars(t[4..], i - 4);
      }
    }
  }

  /** A token has no white space to trim. */
  lemma TokenSurvivesTrim(session: seq<byte>, p: StreamPosition)
    ensures Trim(Encode(session, p)) == Encode(session, p)
  {
    var t := Encode(session, p);
    Base64.RoundTrip(Plain(session, p), Base64.UrlSafe);
    if t != [] {
      DecodableChars(t, 0);
      DecodableChars(t, |t| - 1);
    }
  }

  lemma {:induction false} AsciiIsText(s: seq<byte>)
    requires forall i :: 0 <= i < |s| ==> s[i] < 0x80
    ensures IsText(s)
  {
    if s != [] {
      AsciiIsText(s[1..]);
    }
  }

  lemma PlainIsText(session: seq<byte>, p: StreamPosition)
    requires IsText(session)
    ensures IsText(Plain(session, p))
  {
    hide FromUtf8;
    AsciiIsText(TOKEN_VERSION + [SEPARATOR]);
    AsciiIsText([SEPARATOR]);
    AsciiIsText(Numbers(p));
    TextConcat(session, [SEPARATOR]);
    TextConcat(session + [SEPARATOR], Numbers(p));
    TextConcat(TOKEN_VERSION + [SEPARATOR], Body(session, p));
  }

  lemma DigitsHaveNoSeparator(n: nat)
    ensures NoSeparator(Decimal(n))
  {
  }

  /** The fields of a token whose session has no separator. */
  lemma PlainFields(session: seq<byte>, p: StreamPosition)
    requires NoSeparator(session)
    ensures Split(Plain(session, p)) ==
      [TOKEN_VERSION, session, Decimal(p.incarnation), Decimal(p.offset)]
  {
    hide Split;
    DigitsHaveNoSeparator(p.incarnation);
    DigitsHaveNoSeparator(p.offset);
    SplitLast(Decimal(p.offset));
    SplitFirst(Decimal(p.incarnation), Decimal(p.offset), Numbers(p));
    SplitFirst(session, Numbers(p), Body(session, p));
    SplitFirst(TOKEN_VERSION, Body(session, p), Plain(session, p));
  }

  lemma PlainFieldCount(session: seq<byte>, p: StreamPosition)
    ensures |Split(Plain(session, p))| == 4 + Separators(session)
  {
    hide Split, Separators;
    var a, b := Decimal(p.incarnation), Decimal(p.offset);
    DigitsHaveNoSeparator(p.incarnation);
    DigitsHaveNoSeparator(p.offset);
    NoSeparatorsCount(a);
    NoSeparatorsCount(b);
    NoSeparatorsCount(TOKEN_VERSION);
    OneSeparator(a, b, Numbers(p));
    OneSeparator(session, Numbers(p), Body(session, p));
    OneSeparator(TOKEN_VERSION, Body(session, p), Plain(session, p));
    SplitCount(Plain(session, p));
  }

  lemma OneSeparator(a: seq<byte>, b: seq<byte>, s: seq<byte>)
    requires s == a + [SEPARATOR] + b
    ensures Separators(s) == Separators(a) + 1 + Separators(b)
  {
    assert Separators([SEPARATOR]) == 1 + Separators([SEPARATOR][1..]);
    SeparatorsConcat(a, [SEPARATOR], a + [SEPARATOR]);
    SeparatorsConcat(a + [SEPARATOR], b, s);
  }

  /**
    * A token gives back the position it was made from, for every session id without the
    * separator; a session id that contains it never gets its own tokens accepted.
    */
  lemma TokenRoundTrip(session: seq<byte>, p: StreamPosition)
    requires IsText(session) && PositionOk(p)
    ensures Decode(session, Encode(session, p)) == if NoSeparator(session) then Position(p) else Usage
  {
    hide Split, Separators, FromUtf8;
    DecodesToPlain(session, p);
    PlainFieldCount(session, p);
    NoSeparatorsCount(session);
    if NoSeparator(session) {
      PlainFields(session, p);
      DecimalRoundTrip(p.incarnation);
      DecimalRoundTrip(p.offset);
    }
  }

  lemma DecodesToPlain(session: seq<byte>, p: StreamPosition)
    requires IsText(session)
    ensures Base64.Decode(Trim(Encode(session, p)), Base64.UrlSafe) == Some(Plain(session, p))
    ensures IsText(Plain(session, p))
  {
    TokenSurvivesTrim(session, p);
    Base64.RoundTrip(Plain(session, p), Base64.UrlSafe);
    PlainIsText(session, p);
  }

  /** A token issued for one session is rejected for any other, and the error names its owner. */
  lemma TokenOfAnotherSession(owner: seq<byte>, other: seq<byte>, p: StreamPosition)
    requires IsText(owner) && owner != other
    ensures Decode(other, Encode(owner, p)) == if NoSeparator(owner) then WrongSession(owner) else Usage
  {
    hide Split, Separators, FromUtf8;
    DecodesToPlain(owner, p);
    PlainFieldCount(owner, p);
    NoSeparatorsCount(owner);
    if NoSeparator(owner) {
      PlainFields(owner, p);
    }
  }

  // ----- what is accepted at all -----

  function Joined(fields: seq<seq<byte>>): (s: seq<byte>) {
    if fields == [] then []
    else if |fields| == 1 then fields[0]
    else fields[0] + [SEPARATOR] + Joined(fields[1..])
  }

  /** Splitting cuts at every separator and drops nothing else. */
  lemma {:induction false} SplitIsInverse(s: seq<byte>)
    ensures Joined(Split(s)) == s
    ensures forall i :: 0 <= i < |Split(s)| ==> NoSeparator(Split(s)[i])
    decreases |s|
  {
    var n := SeparatorFrom(s, 0);
    if n == |s| {
      assert NoSeparator(s);
    } else {
      var head, rest := s[..n], s[n + 1..];
      SplitIsInverse(rest);
      assert Split(s)[1..] == Split(rest) && Split(s)[0] == head;
      assert s == head + [SEPARATOR] + rest;
      assert NoSeparator(head);
      assert forall i :: 1 <= i < |Split(s)| ==> Split(s)[i] == Split(rest)[i - 1];
    }
  }

  /** Digits, after an optional plus sign, that make a 64-bit number. */
  predicate Number(s: seq<byte>, n: nat) {
    var digits := Unsigned(s);
    && digits != [] && (forall i :: 0 <= i < |digits| ==> 0x30 <= digits[i] <= 0x39)
    && n == DigitsValue(digits) && n < U64_LIMIT
  }

  lemma ParseU64Iff(s: seq<byte>, n: nat)
    ensures ParseU64(s) == Some(n) <==> Number(s, n)
  {
    hide DigitsValue, Unsigned;
    var digits := Unsigned(s);
    if Number(s, n) {
      assert forall i :: 0 <= i < |digits| ==> IsDigit(digits[i]);
      assert ParseU64(s) == Some(DigitsValue(digits));
    }
    if ParseU64(s) == Some(n) {
      assert forall i :: 0 <= i < |digits| ==> IsDigit(digits[i]);
      assert n == DigitsValue(digits);
    }
  }

  /**
    * A token is accepted only if it is text of the form "v1|session|incarnation|offset" for this very
    * session, with two 64-bit numbers; a session id with a separator has none.
    */
  lemma AcceptedToken(session: seq<byte>, token: string) returns (a: seq<byte>, b: seq<byte>)
    requires Decode(session, token).Position?
    ensures Base64.Decode(Trim(token), Base64.UrlSafe) ==
      Some([0x76, 0x31] + [SEPARATOR] + (session + [SEPARATOR] + (a + [SEPARATOR] + b)))
    ensures NoSeparator(session)
    ensures Number(a, Decode(session, token).position.incarnation) && Number(b, Decode(session, token).position.offset)
  {
    hide Split, Number, ParseU64;
    var plain := Base64.Decode(Trim(token), Base64.UrlSafe).value;
    var fields := Split(plain);
    a, b := fields[2], fields[3];
    SplitIsInverse(plain);
    JoinedFour(fields);
    ParseU64Iff(a, Decode(session, token).position.incarnation);
    ParseU64Iff(b, Decode(session, token).position.offset);
  }

  lemma JoinedFour(f: seq<seq<byte>>)
    requires |f| == 4
    ensures Joined(f) == f[0] + [SEPARATOR] + (f[1] + [SEPARATOR] + (f[2] + [SEPARATOR] + f[3]))
  {
    assert f[1..][1..] == f[2..] && f[2..][1..] == f[3..];
    assert Joined(f[3..]) == f[3];
    assert Joined(f[2..]) == f[2] + [SEPARATOR] + Joined(f[3..]);
    assert Joined(f[1..]) == f[1] + [SEPARATOR] + Joined(f[2..]);
  }

  /** A token of another version is a usage error, whatever follows. */
  lemma OtherVersionRefused(session: seq<byte>, version: seq<byte>, more: seq<byte>, token: string)
    requires NoSeparator(version) && version != [0x76, 0x31]
    requires Base64.Decode(Trim(token), Base64.UrlSafe) == Some(version + [SEPARATOR] + more)
    ensures Decode(session, token) == Usage
  {
    hide Split;
    SplitFirst(version, more, version + [SEPARATOR] + more);
  }

  /** A token that is text of the form "v1|owner|a|b". */
  ghost predicate Names(token: string, owner: seq<byte>, a: seq<byte>, b: seq<byte>) {
    var plain := Base64.Decode(Trim(token), Base64.UrlSafe);
    && plain.Some? && IsText(plain.value)
    && plain.value == [0x76, 0x31] + [SEPARATOR] + (owner + [SEPARATOR] + (a + [SEPARATOR] + b))
    && NoSeparator(owner) && NoSeparator(a) && NoSeparator(b)
  }

  /** What a token of that form is good for: its position, in the hands of its owner. */
  lemma NamedToken(session: seq<byte>, token: string, owner: seq<byte>, a: seq<byte>, b: seq<byte>, m: nat, n: nat)
    requires Names(token, owner, a, b)
    ensures owner != session ==> Decode(session, token) == WrongSession(owner)
    ensures owner == session ==>
      (Decode(session, token) == Position(StreamPosition(m, n)) <==> Number(a, m) && Number(b, n))
    ensures owner == session ==> Decode(session, token).Usage? || Decode(session, token).Position?
  {
    hide Split, Number, ParseU64;
    var plain := Base64.Decode(Trim(token), Base64.UrlSafe).value;
    SplitFirst([0x76, 0x31], owner + [SEPARATOR] + (a + [SEPARATOR] + b), plain);
    SplitFirst(owner, a + [SEPARATOR] + b, owner + [SEPARATOR] + (a + [SEPARATOR] + b));
    SplitFirst(a, b, a + [SEPARATOR] + b);
    SplitLast(b);
    assert Split(plain) == [[0x76, 0x31], owner, a, b];
    ParseU64Iff(a, m);
    ParseU64Iff(b, n);
  }

  /** Any other token is a usage error. */
  lemma UnnamedIsUsage(session: seq<byte>, token: string) returns (owner: seq<byte>, a: seq<byte>, b: seq<byte>)
    ensures Decode(session, token) == Usage || Names(token, owner, a, b)
  {
    hide Split, ParseU64;
    owner, a, b := [], [], [];
    if Decode(session, token) != Usage {
      var plain := Base64.Decode(Trim(token), Base64.UrlSafe).value;
      var fields := Split(plain);
      owner, a, b := fields[1], fields[2], fields[3];
      SplitIsInverse(plain);
      JoinedFour(fields);
    }
  }
}
