/** Base64 in the two alphabets of sections 4 and 5 of RFC 4648, padded or not. */
module Base64 {
  import opened Bytes

  datatype Alphabet = Standard | UrlSafe

  type sextet = v: int | 0 <= v < 64

  function CharOf(v: sextet, a: Alphabet): (c: char) {
    if v < 26 then (v + 65) as char
    else if v < 52 then (v + 71) as char
    else if v < 62 then (v - 4) as char
    else if v == 62 then (if a == UrlSafe then '-' else '+')
    else (if a == UrlSafe then '_' else '/')
  }

  function ValueOf(c: char, a: Alphabet): (v: Option<sextet>) {
    if 'A' <= c <= 'Z' then Some(c as int - 65)
    else if 'a' <= c <= 'z' then Some(c as int - 71)
    else if '0' <= c <= '9' then Some(c as int + 4)
    else if c == CharOf(62, a) then Some(62)
    else if c == CharOf(63, a) then Some(63)
    else None
  }

  lemma AlphabetInverse(v: sextet, a: Alphabet)
    ensures ValueOf(CharOf(v, a), a) == Some(v)
  {
  }

  lemma AlphabetCanonical(c: char, a: Alphabet)
    ensures ValueOf(c, a).Some? ==> CharOf(ValueOf(c, a).value, a) == c
  {
  }

  // ----- encoding -----

  /** One group of three bytes, the last one possibly shorter: 24 bits read as four sextets. */
  function Group(chunk: seq<byte>): (n: nat)
    requires 1 <= |chunk| <= 3
    ensures n < 0x100_0000
  {
    var b0: int := chunk[0];
    var b1: int := if |chunk| > 1 then chunk[1] else 0;
    var b2: int := if |chunk| > 2 then chunk[2] else 0;
    b0 * 0x1_0000 + b1 * 0x100 + b2
  }

  function EncodeChunk(chunk: seq<byte>, a: Alphabet, pad: bool): (r: string)
    requires 1 <= |chunk| <= 3
  {
    var n := Group(chunk);
    var filler := if pad then "=" else "";
    [CharOf(n / 0x4_0000, a), CharOf(n / 0x1000 % 64, a)]
      + (if |chunk| > 1 then [CharOf(n / 64 % 64, a)] else filler)
      + (if |chunk| > 2 then [CharOf(n % 64, a)] else filler)
  }

  function Encode(s: seq<byte>, a: Alphabet, pad: bool): (r: string) {
    if s == [] then []
    else if |s| <= 3 then EncodeChunk(s, a, pad)
    else EncodeChunk(s[..3], a, pad) + Encode(s[3..], a, pad)
  }

  /** Encoding may be cut after any multiple of three bytes. */
  lemma {:induction false} EncodeSplit(x: seq<byte>, y: seq<byte>, s: seq<byte>, a: Alphabet, pad: bool)
    requires s == x + y && |x| % 3 == 0
    ensures Encode(s, a, pad) == Encode(x, a, pad) + Encode(y, a, pad)
    decreases |x|
  {
    hide EncodeChunk;
    if x == [] {
      assert s == y;
    } else if y == [] {
      assert s == x;
    } else {
      assert s[..3] == x[..3] && s[3..] == x[3..] + y;
      EncodeSplit(x[3..], y, s[3..], a, pad);
      ConcatAssoc(EncodeChunk(x[..3], a, pad), Encode(x[3..], a, pad), Encode(y, a, pad));
      assert |x| == 3 ==> x[..3] == x && Encode(x[3..], a, pad) == [];
    }
  }

  lemma ChunkCharacters(chunk: seq<byte>, n: nat)
    requires 1 <= |chunk| <= 3 && n == Group(chunk)
    ensures EncodeChunk(chunk, UrlSafe, false) ==
      [CharOf(n / 0x4_0000 % 64, UrlSafe)] + [CharOf(n / 0x1000 % 64, UrlSafe)]
      + (if |chunk| > 1 then [CharOf(n / 64 % 64, UrlSafe)] else [])
      + (if |chunk| > 2 then [CharOf(n % 64, UrlSafe)] else [])
  {
    hide CharOf, Group;
    assert n / 0x4_0000 % 64 == n / 0x4_0000;
  }

  lemma GroupOf(chunk: seq<byte>, b0: int, b1: int, b2: int)
    requires 1 <= |chunk| <= 3 && b0 == chunk[0]
    requires b1 == (if |chunk| > 1 then chunk[1] else 0) && b2 == (if |chunk| > 2 then chunk[2] else 0)
    ensures b0 * 0x1_0000 + b1 * 0x100 + b2 == Group(chunk)
  {
  }

  /** The body of the encoder's loop: one chunk, pushed character by character. */
  method PushChunk(out: string, chunk: seq<byte>) returns (out': string)
    requires 1 <= |chunk| <= 3
    ensures out' == out + EncodeChunk(chunk, UrlSafe, false)
  {
    hide CharOf, Group, EncodeChunk;
    var b0: int := chunk[0];
    var b1: int := if |chunk| > 1 then chunk[1] else 0;
    var b2: int := if |chunk| > 2 then chunk[2] else 0;
    GroupOf(chunk, b0, b1, b2);
    var n := b0 * 0x1_0000 + b1 * 0x100 + b2;
    ChunkCharacters(chunk, n);
    var c0, c1 := CharOf(n / 0x4_0000 % 64, UrlSafe), CharOf(n / 0x1000 % 64, UrlSafe);
    var c2, c3 := CharOf(n / 64 % 64, UrlSafe), CharOf(n % 64, UrlSafe);
    out' := out + [c0];
    out' := out' + [c1];
    ConcatAssoc(out, [c0], [c1]);
    if |chunk| > 1 {
      out' := out' + [c2];
      ConcatAssoc(out, [c0] + [c1], [c2]);
    }
    if |chunk| > 2 {
      out' := out' + [c3];
      ConcatAssoc(out, [c0] + [c1] + [c2], [c3]);
    }
  }

  lemma NothingEncoded(nothing: seq<byte>, a: Alphabet, pad: bool)
    requires nothing == []
    ensures Encode(nothing, a, pad) == []
  {
  }

  lemma EncodeStep(bytes: seq<byte>, i: nat, chunk: seq<byte>)
    requires i < |bytes| && i % 3 == 0 && chunk == bytes[i..Min(i + 3, |bytes|)]
    ensures Encode(bytes[..i + |chunk|], UrlSafe, false) ==
      Encode(bytes[..i], UrlSafe, false) + EncodeChunk(chunk, UrlSafe, false)
  {
    assert bytes[..i + |chunk|] == bytes[..i] + chunk;
    EncodeSplit(bytes[..i], chunk, bytes[..i + |chunk|], UrlSafe, false);
  }

  /** The hand-written encoder of key material: chunks of three, no padding. */
  method Base64UrlNoPad(bytes: seq<byte>) returns (out: string)
    ensures out == Encode(bytes, UrlSafe, false)
  {
    hide Encode, EncodeChunk;
    out := [];
    NothingEncoded(bytes[..0], UrlSafe, false);
    var i := 0;
    while i < |bytes|
      invariant 0 <= i <= |bytes| && (i < |bytes| ==> i % 3 == 0)
      invariant out == Encode(bytes[..i], UrlSafe, false)
    {
      var chunk := bytes[i..Min(i + 3, |bytes|)];
      out := PushChunk(out, chunk);
      EncodeStep(bytes, i, chunk);
      i := i + |chunk|;
    }
    assert bytes[..i] == bytes;
  }

  // ----- strict decoding without padding -----

  /** One group: no stray characters, and no bits set beyond the bytes it stands for. */
  function DecodeChunk(t: string, a: Alphabet): (r: Option<seq<byte>>)
    requires 1 <= |t| <= 4
  {
    if |t| == 1 || exists i :: 0 <= i < |t| && ValueOf(t[i], a).None? then None
    else
      var v0, v1 := ValueOf(t[0], a).value, ValueOf(t[1], a).value;
      if |t| == 2 then
        if v1 % 16 != 0 then None else Some([v0 * 4 + v1 / 16])
      else
        var v2 := ValueOf(t[2], a).value;
        if |t| == 3 then
          if v2 % 4 != 0 then None else Some([v0 * 4 + v1 / 16, v1 % 16 * 16 + v2 / 4])
        else
          Some([v0 * 4 + v1 / 16, v1 % 16 * 16 + v2 / 4, v2 % 4 * 64 + ValueOf(t[3], a).value])
  }

  function Decode(t: string, a: Alphabet): (r: Option<seq<byte>>) {
    if t == [] then Some([])
    else if |t| <= 4 then DecodeChunk(t, a)
    else
      match (DecodeChunk(t[..4], a), Decode(t[4..], a))
      case (Some(x), Some(y)) => Some(x + y)
      case _ => None
  }

  /** A 24-bit number is determined by its four sextets. */
  lemma Digits(n: nat, s0: sextet, s1: sextet, s2: sextet, s3: sextet)
    requires n == ((s0 * 64 + s1) * 64 + s2) * 64 + s3
    ensures n / 0x4_0000 == s0 && n / 0x1000 % 64 == s1 && n / 64 % 64 == s2 && n % 64 == s3
  {
    assert n / 64 == (s0 * 64 + s1) * 64 + s2;
    assert n / 0x1000 == s0 * 64 + s1;
  }

  /** The sextets of a group, written with the bytes themselves. */
  lemma Sextets(chunk: seq<byte>, b0: int, b1: int, b2: int)
    requires 1 <= |chunk| <= 3 && b0 == chunk[0]
    requires b1 == (if |chunk| > 1 then chunk[1] else 0) && b2 == (if |chunk| > 2 then chunk[2] else 0)
    ensures Group(chunk) / 0x4_0000 == b0 / 4
    ensures Group(chunk) / 0x1000 % 64 == b0 % 4 * 16 + b1 / 16
    ensures Group(chunk) / 64 % 64 == b1 % 16 * 4 + b2 / 64
    ensures Group(chunk) % 64 == b2 % 64
  {
    assert b0 == b0 / 4 * 4 + b0 % 4 && b1 == b1 / 16 * 16 + b1 % 16 && b2 == b2 / 64 * 64 + b2 % 64;
    Digits(Group(chunk), b0 / 4, b0 % 4 * 16 + b1 / 16, b1 % 16 * 4 + b2 / 64, b2 % 64);
  }

  /** Four sextets put back into three bytes. */
  lemma Reassemble(b0: byte, b1: byte, b2: byte, s1: int, s2: int)
    requires s1 == b0 % 4 * 16 + b1 / 16 && s2 == b1 % 16 * 4 + b2 / 64
    ensures b0 / 4 * 4 + s1 / 16 == b0 && s1 % 16 * 16 + s2 / 4 == b1 && s2 % 4 * 64 + b2 % 64 == b2
    ensures b1 == 0 ==> s1 % 16 == 0
    ensures b2 == 0 ==> s2 % 4 == 0
  {
    assert s1 / 16 == b0 % 4 && s1 % 16 == b1 / 16;
    assert s2 / 4 == b1 % 16 && s2 % 4 == b2 / 64;
  }

  lemma ChunkRoundTrip(chunk: seq<byte>, a: Alphabet)
    requires 1 <= |chunk| <= 3
    ensures |EncodeChunk(chunk, a, false)| == |chunk| + 1
    ensures DecodeChunk(EncodeChunk(chunk, a, false), a) == Some(chunk)
  {
    hide EncodeChunk, DecodeChunk, CharOf, ValueOf, Group;
    var b0: byte := chunk[0];
    var b1: byte := if |chunk| > 1 then chunk[1] else 0;
    var b2: byte := if |chunk| > 2 then chunk[2] else 0;
    var s1, s2 := b0 % 4 * 16 + b1 / 16, b1 % 16 * 4 + b2 / 64;
    Sextets(chunk, b0, b1, b2);
    Reassemble(b0, b1, b2, s1, s2);
    var quad := [b0 / 4, s1, s2, b2 % 64];
    var t := EncodeChunk(chunk, a, false);
    CharsOfSextets(chunk, quad, t, a);
    BytesOfSextets(t, quad, [b0, b1, b2], a);
    assert chunk == [b0, b1, b2][..|chunk|];
  }

  lemma BytesOfSextets(t: string, quad: seq<int>, three: seq<byte>, a: Alphabet)
    requires 2 <= |t| <= 4 == |quad| && |three| == 3
    requires forall i :: 0 <= i < 4 ==> 0 <= quad[i] < 64
    requires forall i :: 0 <= i < |t| ==> ValueOf(t[i], a) == Some(quad[i])
    requires |t| == 2 ==> quad[1] % 16 == 0
    requires |t| == 3 ==> quad[2] % 4 == 0
    requires three[0] == quad[0] * 4 + quad[1] / 16
    requires |t| >= 3 ==> three[1] == quad[1] % 16 * 16 + quad[2] / 4
    requires |t| >= 4 ==> three[2] == quad[2] % 4 * 64 + quad[3]
    ensures DecodeChunk(t, a) == Some(three[..|t| - 1])
  {
    hide ValueOf;
    assert |t| == 2 ==> three[..1] == [three[0]];
    assert |t| == 3 ==> three[..2] == [three[0], three[1]];
    assert |t| == 4 ==> three[..3] == [three[0], three[1], three[2]];
  }

  /** The characters of a group carry its sextets. */
  lemma CharsOfSextets(chunk: seq<byte>, quad: seq<sextet>, t: string, a: Alphabet)
    requires 1 <= |chunk| <= 3 && |quad| == 4 && t == EncodeChunk(chunk, a, false)
    requires quad[0] == Group(chunk) / 0x4_0000 && quad[1] == Group(chunk) / 0x1000 % 64
    requires quad[2] == Group(chunk) / 64 % 64 && quad[3] == Group(chunk) % 64
    ensures |t| == |chunk| + 1
    ensures forall i :: 0 <= i < |t| ==> ValueOf(t[i], a) == Some(quad[i])
  {
    hide CharOf, ValueOf;
    forall i | 0 <= i < |t| ensures ValueOf(t[i], a) == Some(quad[i]) {
      assert t[i] == CharOf(quad[i], a);
      AlphabetInverse(quad[i], a);
    }
  }

  /** Decoding inverts encoding. */
  lemma {:induction false} RoundTrip(s: seq<byte>, a: Alphabet)
    ensures Decode(Encode(s, a, false), a) == Some(s)
  {
    hide EncodeChunk, DecodeChunk;
    if s == [] {
    } else if |s| <= 3 {
      ChunkRoundTrip(s, a);
    } else {
      var first, rest := EncodeChunk(s[..3], a, false), Encode(s[3..], a, false);
      ChunkRoundTrip(s[..3], a);
      RoundTrip(s[3..], a);
      assert rest != [];
      assert (first + rest)[..4] == first && (first + rest)[4..] == rest;
      assert s == s[..3] + s[3..];
    }
  }

  // ----- the decoder accepts only what the encoder writes -----

  lemma SextetsBack(v0: int, v1: int, v2: int, v3: int, b0: int, b1: int, b2: int)
    requires 0 <= v0 < 64 && 0 <= v1 < 64 && 0 <= v2 < 64 && 0 <= v3 < 64
    requires b0 == v0 * 4 + v1 / 16 && b1 == v1 % 16 * 16 + v2 / 4 && b2 == v2 % 4 * 64 + v3
    ensures 0 <= b0 < 256 && 0 <= b1 < 256 && 0 <= b2 < 256
    ensures b0 / 4 == v0 && b0 % 4 * 16 + b1 / 16 == v1 && b1 % 16 * 4 + b2 / 64 == v2 && b2 % 64 == v3
  {
    assert b0 / 4 == v0 && b0 % 4 == v1 / 16;
    assert b1 / 16 == v1 % 16 && b1 % 16 == v2 / 4;
    assert b2 / 64 == v2 % 4;
  }

  lemma ChunkCanonical(t: string, a: Alphabet)
    requires 1 <= |t| <= 4 && DecodeChunk(t, a).Some?
    ensures |t| >= 2 && |DecodeChunk(t, a).value| == |t| - 1
    ensures EncodeChunk(DecodeChunk(t, a).value, a, false) == t
  {
    var chunk := DecodeChunk(t, a).value;
    var v0: int := ValueOf(t[0], a).value;
    var v1: int := ValueOf(t[1], a).value;
    var v2: int := if |t| > 2 then ValueOf(t[2], a).value else 0;
    var v3: int := if |t| > 3 then ValueOf(t[3], a).value else 0;
    var b0, b1, b2 := v0 * 4 + v1 / 16, v1 % 16 * 16 + v2 / 4, v2 % 4 * 64 + v3;
    SextetsBack(v0, v1, v2, v3, b0, b1, b2);
    DecodedBytes(t, a, chunk, b0, b1, b2);
    Sextets(chunk, b0, b1, b2);
    EncodedChars(t, a, chunk, [v0, v1, v2, v3]);
  }

  lemma DecodedBytes(t: string, a: Alphabet, chunk: seq<byte>, b0: int, b1: int, b2: int)
    requires 1 <= |t| <= 4 && DecodeChunk(t, a) == Some(chunk)
    requires var v0: int := ValueOf(t[0], a).value; var v1: int := ValueOf(t[1], a).value;
      var v2: int := if |t| > 2 then ValueOf(t[2], a).value else 0;
      var v3: int := if |t| > 3 then ValueOf(t[3], a).value else 0;
      b0 == v0 * 4 + v1 / 16 && b1 == v1 % 16 * 16 + v2 / 4 && b2 == v2 % 4 * 64 + v3
    ensures |chunk| == |t| - 1 && b0 == chunk[0]
    ensures b1 == (if |chunk| > 1 then chunk[1] else 0) && b2 == (if |chunk| > 2 then chunk[2] else 0)
  {
    hide ValueOf;
  }

  lemma EncodedChars(t: string, a: Alphabet, chunk: seq<byte>, quad: seq<int>)
    requires 2 <= |t| <= 4 == |quad| && |chunk| == |t| - 1
    requires forall i :: 0 <= i < |t| ==> 0 <= quad[i] < 64 && ValueOf(t[i], a) == Some(quad[i])
    requires Group(chunk) / 0x4_0000 == quad[0] && Group(chunk) / 0x1000 % 64 == quad[1]
    requires |t| > 2 ==> Group(chunk) / 64 % 64 == quad[2]
    requires |t| > 3 ==> Group(chunk) % 64 == quad[3]
    ensures EncodeChunk(chunk, a, false) == t
  {
    hide ValueOf, CharOf, Group;
    forall i | 0 <= i < |t| ensures t[i] == CharOf(quad[i], a) {
      AlphabetCanonical(t[i], a);
    }
  }

  /** So decoding succeeds exactly on encodings, and no two strings decode alike. */
  lemma {:induction false} Canonical(t: string, s: seq<byte>, a: Alphabet)
    ensures Decode(t, a) == Some(s) <==> t == Encode(s, a, false)
    decreases |t|
  {
    if t == Encode(s, a, false) {
      RoundTrip(s, a);
    } else if Decode(t, a) == Some(s) {
      DecodedIsEncoded(t, a);
    }
  }

  lemma {:induction false} DecodedIsEncoded(t: string, a: Alphabet)
    requires Decode(t, a).Some?
    ensures t == Encode(Decode(t, a).value, a, false)
    decreases |t|
  {
    hide EncodeChunk, DecodeChunk;
    if t == [] {
    } else if |t| <= 4 {
      ChunkCanonical(t, a);
    } else {
      var x, y := DecodeChunk(t[..4], a).value, Decode(t[4..], a).value;
      ChunkCanonical(t[..4], a);
      DecodedIsEncoded(t[4..], a);
      assert Decode(t, a).value == x + y && |x| == 3;
      EncodeSplit(x, y, x + y, a, false);
      assert t == t[..4] + t[4..];
    }
  }

  // ----- padding -----

  /** How many filler characters bring the last group to four. */
  function Filler(n: nat): (r: nat)
    ensures r <= 2 && (n + r) % 3 == 0
  {
    (3 - n % 3) % 3
  }

  function Equals(n: nat): (r: string)
    ensures |r| == n && forall i :: 0 <= i < n ==> r[i] == '='
  {
    seq(n, _ => '=')
  }

  lemma ChunkPadding(chunk: seq<byte>, a: Alphabet)
    requires 1 <= |chunk| <= 3
    ensures |EncodeChunk(chunk, a, true)| == 4 && |EncodeChunk(chunk, a, false)| == |chunk| + 1
    ensures EncodeChunk(chunk, a, true) == EncodeChunk(chunk, a, false) + Equals(3 - |chunk|)
  {
    hide CharOf, Group;
  }

  /** A padded text is the unpadded text, filled up with '=' to a multiple of four characters. */
  lemma {:induction false} PaddedText(s: seq<byte>, a: Alphabet)
    ensures Encode(s, a, true) == Encode(s, a, false) + Equals(Filler(|s|))
    ensures |Encode(s, a, true)| % 4 == 0
    ensures forall c :: c in Encode(s, a, false) ==> c != '='
  {
    hide EncodeChunk;
    if s == [] {
    } else if |s| <= 3 {
      ChunkPadding(s, a);
      ChunkHasNoFiller(s, a);
    } else {
      var first, rest := s[..3], s[3..];
      ChunkPadding(first, a);
      ChunkHasNoFiller(first, a);
      PaddedText(rest, a);
      assert EncodeChunk(first, a, true) == EncodeChunk(first, a, false);
      assert Filler(|rest|) == Filler(|s|);
      ConcatAssoc(EncodeChunk(first, a, false), Encode(rest, a, false), Equals(Filler(|s|)));
    }
  }

  lemma ChunkHasNoFiller(chunk: seq<byte>, a: Alphabet)
    requires 1 <= |chunk| <= 3
    ensures forall c :: c in EncodeChunk(chunk, a, false) ==> c != '='
  {
    hide Group;
  }

  /** The strict decoder of padded text: whole groups of four, at most two fillers, all at the end. */
  function DecodePadded(t: string, a: Alphabet): (r: Option<seq<byte>>) {
    if |t| % 4 != 0 then None
    else if |t| >= 4 && t[|t| - 2..] == "==" then Decode(t[..|t| - 2], a)
    else if |t| >= 4 && t[|t| - 1] == '=' then Decode(t[..|t| - 1], a)
    else Decode(t, a)
  }

  /** Decoding inverts padded encoding. */
  lemma PaddedRoundTrip(s: seq<byte>, a: Alphabet)
    ensures DecodePadded(Encode(s, a, true), a) == Some(s)
  {
    hide Encode, Decode, DecodePadded, Filler;
    PaddedText(s, a);
    RoundTrip(s, a);
    StripFiller(Encode(s, a, false), Filler(|s|), Encode(s, a, true), a);
  }

  lemma StripFiller(plain: string, k: nat, t: string, a: Alphabet)
    requires t == plain + Equals(k) && k <= 2 && |t| % 4 == 0
    requires forall c :: c in plain ==> c != '='
    ensures DecodePadded(t, a) == Decode(plain, a)
  {
    hide Decode, Equals;
    var n := |plain|;
    assert forall i :: 0 <= i < n ==> t[i] == plain[i] && plain[i] in plain;
    if k == 2 {
      assert t[n..] == "==" && t[..n] == plain;
    } else if k == 1 {
      assert n >= 3 && t[n - 1] != '=' && t[n..] == "=" && t[..n] == plain;
      assert t[n - 1..][0] == t[n - 1];
    } else {
      assert t == plain;
      assert n > 0 ==> t[n - 1] != '=';
      assert n >= 4 ==> t[n - 2..][1] == t[n - 1];
    }
  }

  // ----- the alphabets and a test vector of RFC 4648 -----

  /** Tables 1 and 2: upper case, lower case, digits and two more characters, in this order. */
  lemma AlphabetOrder(v: sextet, a: Alphabet)
    ensures v < 26 ==> CharOf(v, a) as int == 'A' as int + v
    ensures 26 <= v < 52 ==> CharOf(v, a) as int == 'a' as int + (v - 26)
    ensures 52 <= v < 62 ==> CharOf(v, a) as int == '0' as int + (v - 52)
    ensures CharOf(62, Standard) == '+' && CharOf(63, Standard) == '/'
    ensures CharOf(62, UrlSafe) == '-' && CharOf(63, UrlSafe) == '_'
  {
  }

  /** Section 10: "foo", and "f" with its filler. */
  lemma TestVectors(a: Alphabet)
    ensures Encode([0x66, 0x6F, 0x6F], a, true) == "Zm9v"
    ensures Encode([0x66], a, true) == "Zg=="
  {
    hide CharOf, Group;
    var foo: seq<byte>, f: seq<byte> := [0x66, 0x6F, 0x6F], [0x66];
    Sextets(foo, 0x66, 0x6F, 0x6F);
    Sextets(f, 0x66, 0, 0);
    AlphabetOrder(25, a);
    AlphabetOrder(38, a);
    AlphabetOrder(61, a);
    AlphabetOrder(47, a);
    AlphabetOrder(32, a);
  }
}
