/** What two federation peers bind into their connection: the transcript, the keys, the contexts. */
module Handshake {
  import opened Bytes

  /** "oly-node-join-v2" */
  const NODE_JOIN_CONTEXT: seq<byte> :=
    [0x6F, 0x6C, 0x79, 0x2D, 0x6E, 0x6F, 0x64, 0x65,
     0x2D, 0x6A, 0x6F, 0x69, 0x6E, 0x2D, 0x76, 0x32]
  /** "oly-channel-v2" */
  const CHANNEL_INFO_PREFIX: seq<byte> :=
    [0x6F, 0x6C, 0x79, 0x2D, 0x63, 0x68, 0x61,
     0x6E, 0x6E, 0x65, 0x6C, 0x2D, 0x76, 0x32]
  /** "oly-node-frame-v2" */
  const FRAME_CONTEXT: seq<byte> :=
    [0x6F, 0x6C, 0x79, 0x2D, 0x6E, 0x6F, 0x64, 0x65, 0x2D,
     0x66, 0x72, 0x61, 0x6D, 0x65, 0x2D, 0x76, 0x32]
  /** "c2s" */
  const C2S: seq<byte> := [0x63, 0x32, 0x73]
  /** "s2c" */
  const S2C: seq<byte> := [0x73, 0x32, 0x63]
  /** "secondary" */
  const SECONDARY: seq<byte> := [0x73, 0x65, 0x63, 0x6F, 0x6E, 0x64, 0x61, 0x72, 0x79]
  /** "primary" */
  const PRIMARY: seq<byte> := [0x70, 0x72, 0x69, 0x6D, 0x61, 0x72, 0x79]
  const BAR: byte := 0x7C

  type Key32 = k: seq<byte> | |k| == 32 witness seq(32, _ => 0)

  // ----- length-prefixed transcripts -----

  predicate Bounded(field: seq<byte>) {
    |field| < U32_LIMIT
  }

  function Prefixed(field: seq<byte>): (r: seq<byte>)
    ensures |r| == 4 + |field|
  {
    ToBE(|field|, 4) + field
  }

  function EncodeFields(fields: seq<seq<byte>>): (r: seq<byte>) {
    if fields == [] then [] else Prefixed(fields[0]) + EncodeFields(fields[1..])
  }

  lemma PrefixedInjective(a: seq<byte>, restA: seq<byte>, b: seq<byte>, restB: seq<byte>, s: seq<byte>)
    requires Bounded(a) && Bounded(b)
    requires s == Prefixed(a) + restA && s == Prefixed(b) + restB
    ensures a == b && restA == restB
  {
    WordSizes();
    BEInjective(|a|, |b|, 4);
    assert s[..4] == ToBE(|a|, 4) && s[..4] == ToBE(|b|, 4);
    assert s[4..4 + |a|] == a && s[4..4 + |b|] == b;
    assert s[4 + |a|..] == restA && s[4 + |b|..] == restB;
  }

  /** No two field lists share an encoding, even if they have different numbers of fields. */
  lemma {:induction false} EncodeFieldsInjective(a: seq<seq<byte>>, b: seq<seq<byte>>)
    requires forall i :: 0 <= i < |a| ==> Bounded(a[i])
    requires forall i :: 0 <= i < |b| ==> Bounded(b[i])
    requires EncodeFields(a) == EncodeFields(b)
    ensures a == b
    decreases |a|
  {
    hide Prefixed;
    if a != [] && b != [] {
      PrefixedInjective(a[0], EncodeFields(a[1..]), b[0], EncodeFields(b[1..]), EncodeFields(a));
      EncodeFieldsInjective(a[1..], b[1..]);
      assert a == [a[0]] + a[1..] && b == [b[0]] + b[1..];
    }
  }

  lemma {:induction false} EncodeFieldsSnoc(a: seq<seq<byte>>, field: seq<byte>, whole: seq<seq<byte>>)
    requires whole == a + [field]
    ensures EncodeFields(whole) == EncodeFields(a) + Prefixed(field)
    decreases |a|
  {
    if a == [] {
      assert whole[1..] == [];
      assert EncodeFields(whole) == Prefixed(field) + [];
    } else {
      EncodeFieldsSnoc(a[1..], field, whole[1..]);
      ConcatAssoc(Prefixed(a[0]), EncodeFields(a[1..]), Prefixed(field));
    }
  }

  /** An independent reader of length-prefixed fields. */
  function ReadFields(s: seq<byte>): (r: Option<seq<seq<byte>>>)
    decreases |s|
  {
    if s == [] then Some([])
    else if |s| < 4 || |s| - 4 < FromBE(s[..4]) then None
    else
      var n := FromBE(s[..4]);
      match ReadFields(s[4 + n..])
      case None => None
      case Some(more) => Some([s[4..4 + n]] + more)
  }

  lemma FieldParts(first: seq<byte>, rest: seq<byte>, s: seq<byte>)
    requires s == Prefixed(first) + rest
    ensures s[..4] == ToBE(|first|, 4) && s[4..4 + |first|] == first && s[4 + |first|..] == rest
  {
    hide ToBE;
  }

  lemma {:induction false} ReadBack(fields: seq<seq<byte>>)
    requires forall i :: 0 <= i < |fields| ==> Bounded(fields[i])
    ensures ReadFields(EncodeFields(fields)) == Some(fields)
  {
    hide ToBE, FromBE, Pow256;
    if fields != [] {
      var first, rest := fields[0], EncodeFields(fields[1..]);
      var s := EncodeFields(fields);
      ReadBack(fields[1..]);
      WordSizes();
      BERoundTrip(|first|, 4);
      FieldParts(first, rest, s);
      assert fields == [first] + fields[1..];
    }
  }

  datatype Join = Join(
    version: nat,
    role: seq<byte>,
    name: seq<byte>,
    secondaryPub: Key32,
    primaryPub: Key32,
    secondaryNonce: Key32,
    primaryNonce: Key32)

  predicate JoinOk(j: Join) {
    j.version < 0x1_0000 && Bounded(j.role) && Bounded(j.name)
  }

  function Fields(j: Join): (r: seq<seq<byte>>) {
    [NODE_JOIN_CONTEXT, ToBE(j.version, 2), j.role, SECONDARY, PRIMARY, j.name,
     j.secondaryPub, j.primaryPub, j.secondaryNonce, j.primaryNonce]
  }

  /** The loop over the fields; a field of 4 GiB or more would abort it. */
  method BuildTranscript(j: Join) returns (v: seq<byte>)
    requires JoinOk(j)
    ensures v == EncodeFields(Fields(j))
    ensures ReadFields(v) ==
      Some([NODE_JOIN_CONTEXT, [j.version / 256, j.version % 256], j.role, SECONDARY, PRIMARY, j.name,
            j.secondaryPub, j.primaryPub, j.secondaryNonce, j.primaryNonce])
  {
    hide EncodeFields, ToBE, ReadFields;
    var fields := Fields(j);
    NoFields(fields[..0]);
    v := [];
    for i := 0 to |fields|
      invariant v == EncodeFields(fields[..i])
    {
      EncodeFieldsSnoc(fields[..i], fields[i], fields[..i + 1]);
      ConcatAssoc(v, ToBE(|fields[i]|, 4), fields[i]);
      v := v + ToBE(|fields[i]|, 4);
      v := v + fields[i];
    }
    assert fields[..|fields|] == fields;
    TwoBytes(j.version);
    ReadBack(fields);
  }

  lemma NoFields(fields: seq<seq<byte>>)
    requires fields == []
    ensures EncodeFields(fields) == []
  {
  }

  lemma TwoBytes(n: nat)
    requires n < 0x1_0000
    ensures ToBE(n, 2) == [n / 256, n % 256]
  {
    assert ToBE(n, 2) == ToBE(n / 256, 1) + [n % 256];
    assert ToBE(n / 256, 1) == ToBE(n / 256 / 256, 0) + [n / 256 % 256];
  }

  /** The transcript determines every input of the handshake. */
  lemma TranscriptInjective(a: Join, b: Join)
    requires JoinOk(a) && JoinOk(b)
    requires EncodeFields(Fields(a)) == EncodeFields(Fields(b))
    ensures a == b
  {
    EncodeFieldsInjective(Fields(a), Fields(b));
    var f, g := Fields(a), Fields(b);
    assert f[1] == g[1] && f[2] == g[2] && f[5] == g[5];
    assert f[6] == g[6] && f[7] == g[7] && f[8] == g[8] && f[9] == g[9];
    assert Pow256(2) == 256 * (256 * Pow256(0));
    BEInjective(a.version, b.version, 2);
  }

  // ----- channel keys -----

  /** Cryptographic primitives, of which only the equations named below are used. */
  datatype Primitives = Primitives(
    isKey: Key32 -> bool,                                  // decodes as an Ed25519 public key
    toX25519: Key32 -> Key32,
    dh: (seq<byte>, Key32) -> Key32,
    hash: seq<byte> -> Key32,
    hkdf: (Key32, Key32, seq<byte>) -> Key32)              // salt, input key, info

  datatype Identity = Identity(secret: seq<byte>, pub: Key32)

  datatype DerivedKeys = DerivedKeys(c2s: Key32, s2c: Key32)

  /** Lexicographic order on byte strings of equal length, from position `i` on. */
  predicate LexLe(a: Key32, b: Key32, i: nat)
    requires i <= 32
    decreases 32 - i
  {
    i == 32 || a[i] < b[i] || (a[i] == b[i] && LexLe(a, b, i + 1))
  }

  function OrderPair(a: Key32, b: Key32): (r: (Key32, Key32)) {
    if LexLe(a, b, 0) then (a, b) else (b, a)
  }

  lemma {:induction false} LexTotal(a: Key32, b: Key32, i: nat)
    requires i <= 32
    ensures LexLe(a, b, i) || LexLe(b, a, i)
    ensures LexLe(a, b, i) && LexLe(b, a, i) ==> a[i..] == b[i..]
    decreases 32 - i
  {
    if i < 32 {
      LexTotal(a, b, i + 1);
      assert a[i..] == [a[i]] + a[i + 1..] && b[i..] == [b[i]] + b[i + 1..];
    }
  }

  /** The order of the byte strings is that of the numbers they write. */
  lemma {:induction false} LexIsNumeric(a: seq<byte>, b: seq<byte>, i: nat)
    requires |a| == |b| == 32 && i <= 32
    ensures LexLe(a, b, i) <==> FromBE(a[i..]) <= FromBE(b[i..])
    decreases 32 - i
  {
    if i < 32 {
      LexIsNumeric(a, b, i + 1);
      BEHead(a[i..]);
      BEHead(b[i..]);
      assert a[i..][1..] == a[i + 1..] && b[i..][1..] == b[i + 1..];
      FirstByteDecides(a[i], FromBE(a[i + 1..]), b[i], FromBE(b[i + 1..]), Pow256(31 - i));
    } else {
      assert a[i..] == [] && b[i..] == [];
    }
  }

  lemma FirstByteDecides(x: int, m: int, y: int, n: int, unit: int)
    requires 0 <= m < unit && 0 <= n < unit
    ensures x * unit + m <= y * unit + n <==> x < y || (x == y && m <= n)
  {
    if x < y {
      assert (x + 1) * unit <= y * unit;
    } else if y < x {
      assert (y + 1) * unit <= x * unit;
    }
  }

  /** Neither peer's view of who is local matters: the smaller key comes first. */
  lemma OrderPairSymmetric(a: Key32, b: Key32)
    ensures OrderPair(a, b) == OrderPair(b, a)
    ensures OrderPair(a, b) == (a, b) || OrderPair(a, b) == (b, a)
    ensures FromBE(OrderPair(a, b).0) <= FromBE(OrderPair(a, b).1)
  {
    LexTotal(a, b, 0);
    assert a[0..] == a && b[0..] == b;
    LexIsNumeric(a, b, 0);
    LexIsNumeric(b, a, 0);
  }

  function ChannelInfo(lo: Key32, hi: Key32, direction: seq<byte>): (r: seq<byte>) {
    CHANNEL_INFO_PREFIX + [BAR] + lo + [BAR] + hi + [BAR] + direction
  }

  function DeriveChannelKeys(p: Primitives, local: Identity, peer: Key32, transcript: seq<byte>)
    : (r: Option<DerivedKeys>)
  {
    var shared := p.dh(local.secret, p.toX25519(peer));
    if shared == seq(32, _ => 0) then None
    else
      var salt := p.hash(transcript);
      var (lo, hi) := OrderPair(local.pub, peer);
      Some(DerivedKeys(p.hkdf(salt, shared, ChannelInfo(lo, hi, C2S)),
                       p.hkdf(salt, shared, ChannelInfo(lo, hi, S2C))))
  }

  /** One end of a channel, as set up from the handshake. */
  datatype Ends = Ends(sendKey: Key32, recvKey: Key32, sendAad: seq<byte>, recvAad: seq<byte>)

  function Context(hash: Key32, direction: seq<byte>): (r: seq<byte>) {
    FRAME_CONTEXT + hash + direction
  }

  function ChannelEnds(p: Primitives, local: Identity, peer: Key32, transcript: seq<byte>, secondary: bool)
    : (r: Option<Ends>)
  {
    if !p.isKey(peer) then None
    else
      match DeriveChannelKeys(p, local, peer, transcript)
      case None => None
      case Some(keys) =>
        var up, down := Context(p.hash(transcript), C2S), Context(p.hash(transcript), S2C);
        Some(if secondary then Ends(keys.c2s, keys.s2c, up, down) else Ends(keys.s2c, keys.c2s, down, up))
  }

  /** With opposite roles and the same transcript, each end sends what the other end receives. */
  lemma PeersAgree(p: Primitives, secondary: Identity, primary: Identity, transcript: seq<byte>)
    requires p.isKey(secondary.pub) && p.isKey(primary.pub)
    requires p.dh(secondary.secret, p.toX25519(primary.pub)) == p.dh(primary.secret, p.toX25519(secondary.pub))
    ensures ChannelEnds(p, primary, secondary.pub, transcript, false) ==
      match ChannelEnds(p, secondary, primary.pub, transcript, true)
      case None => None
      case Some(e) => Some(Ends(e.recvKey, e.sendKey, e.recvAad, e.sendAad))
  {
    OrderPairSymmetric(secondary.pub, primary.pub);
  }

  datatype KdfInput = KdfInput(salt: Key32, secret: Key32, info: seq<byte>)

  function Derived(p: Primitives, x: KdfInput): (key: Key32) {
    p.hkdf(x.salt, x.secret, x.info)
  }

  /** What the key of one direction is derived from. */
  function InputOf(p: Primitives, local: Identity, peer: Key32, transcript: seq<byte>, direction: seq<byte>)
    : (x: KdfInput)
  {
    KdfInput(p.hash(transcript), p.dh(local.secret, p.toX25519(peer)),
             ChannelInfo(OrderPair(local.pub, peer).0, OrderPair(local.pub, peer).1, direction))
  }

  /** The key of one direction. */
  function DirectionKey(p: Primitives, local: Identity, peer: Key32, transcript: seq<byte>, direction: seq<byte>)
    : (key: Key32)
  {
    Derived(p, InputOf(p, local, peer, transcript, direction))
  }

  /**
    * Ends are refused exactly for a malformed key or a degenerate shared secret. Otherwise the
    * secondary sends and the primary receives as "c2s", the other way round as "s2c", with keys that
    * are salted with the transcript's hash and bound to both identities.
    */
  lemma EndsLabelled(p: Primitives, local: Identity, peer: Key32, transcript: seq<byte>, secondary: bool)
    ensures ChannelEnds(p, local, peer, transcript, secondary).None? <==>
      !p.isKey(peer) || forall i :: 0 <= i < 32 ==> p.dh(local.secret, p.toX25519(peer))[i] == 0
    ensures ChannelEnds(p, local, peer, transcript, secondary).Some? ==>
      ChannelEnds(p, local, peer, transcript, secondary).value ==
        Ends(DirectionKey(p, local, peer, transcript, Label(secondary)),
             DirectionKey(p, local, peer, transcript, Label(!secondary)),
             FRAME_CONTEXT + p.hash(transcript) + Label(secondary),
             FRAME_CONTEXT + p.hash(transcript) + Label(!secondary))
  {
    var shared := p.dh(local.secret, p.toX25519(peer));
    if forall i :: 0 <= i < 32 ==> shared[i] == 0 {
      assert shared == seq(32, _ => 0);
    }
  }

  function Label(secondary: bool): (r: seq<byte>) {
    if secondary then C2S else S2C
  }

  /** The layout: prefix, lower key, higher key and direction, with a bar between any two. */
  lemma ChannelInfoLayout(lo: Key32, hi: Key32, d: seq<byte>)
    ensures var i := ChannelInfo(lo, hi, d);
      && |i| == 81 + |d| && i[..14] == CHANNEL_INFO_PREFIX && i[14] == i[47] == i[80] == 0x7C
      && i[15..47] == lo && i[48..80] == hi && i[81..] == d
  {
  }

  lemma ChannelInfoInjective(lo: Key32, hi: Key32, d: seq<byte>, lo': Key32, hi': Key32, d': seq<byte>)
    requires ChannelInfo(lo, hi, d) == ChannelInfo(lo', hi', d')
    ensures lo == lo' && hi == hi' && d == d'
  {
    ChannelInfoLayout(lo, hi, d);
    ChannelInfoLayout(lo', hi', d');
  }

  // ----- what is assumed of hash and key derivation -----

  /** No two of these transcripts have the same hash. */
  ghost predicate CollisionFree(p: Primitives, transcripts: set<seq<byte>>) {
    forall t, t' :: t in transcripts && t' in transcripts && p.hash(t) == p.hash(t') ==> t == t'
  }

  /** Of these inputs, no two with different salts or different info strings give the same key. */
  ghost predicate Separates(p: Primitives, inputs: set<KdfInput>) {
    forall x, y :: x in inputs && y in inputs && Derived(p, x) == Derived(p, y) ==>
      x.salt == y.salt && x.info == y.info
  }

  /** What one connection feeds to key derivation. */
  function InputsOf(p: Primitives, local: Identity, peer: Key32, transcript: seq<byte>): (r: set<KdfInput>) {
    {InputOf(p, local, peer, transcript, C2S), InputOf(p, local, peer, transcript, S2C)}
  }

  /** A key determines its transcript, its pair of identities and its direction. */
  lemma KeyIsFresh(p: Primitives, a: Identity, b: Key32, t: seq<byte>, d: seq<byte>,
                   a': Identity, b': Key32, t': seq<byte>, d': seq<byte>)
    requires d in {C2S, S2C} && d' in {C2S, S2C}
    requires CollisionFree(p, {t, t'}) && Separates(p, InputsOf(p, a, b, t) + InputsOf(p, a', b', t'))
    requires DirectionKey(p, a, b, t, d) == DirectionKey(p, a', b', t', d')
    ensures t == t' && OrderPair(a.pub, b) == OrderPair(a'.pub, b') && d == d'
  {
    hide OrderPair, ChannelInfo;
    var x, y := InputOf(p, a, b, t, d), InputOf(p, a', b', t', d');
    assert x in InputsOf(p, a, b, t) && y in InputsOf(p, a', b', t');
    assert Derived(p, x) == Derived(p, y);
    var (lo, hi) := OrderPair(a.pub, b);
    var (lo', hi') := OrderPair(a'.pub, b');
    ChannelInfoInjective(lo, hi, d, lo', hi', d');
    assert t in {t, t'} && t' in {t, t'};
  }

  /** So the ends of two connections share a key or a context only if their transcripts are the same. */
  lemma EndsAreFresh(p: Primitives, a: Identity, b: Key32, t: seq<byte>, secondary: bool,
                     a': Identity, b': Key32, t': seq<byte>, secondary': bool)
    requires CollisionFree(p, {t, t'}) && Separates(p, InputsOf(p, a, b, t) + InputsOf(p, a', b', t'))
    requires ChannelEnds(p, a, b, t, secondary).Some? && ChannelEnds(p, a', b', t', secondary').Some?
    ensures var e, e' := ChannelEnds(p, a, b, t, secondary).value, ChannelEnds(p, a', b', t', secondary').value;
      && (t != t' ==> {e.sendKey, e.recvKey} !! {e'.sendKey, e'.recvKey})
      && (t != t' ==> {e.sendAad, e.recvAad} !! {e'.sendAad, e'.recvAad})
      && (e.sendKey == e'.sendKey || e.recvKey == e'.recvKey ==> secondary == secondary')
  {
    hide ChannelEnds, DirectionKey, InputsOf, Separates;
    EndsLabelled(p, a, b, t, secondary);
    EndsLabelled(p, a', b', t', secondary');
    forall x: bool, y: bool
      | DirectionKey(p, a, b, t, Label(x)) == DirectionKey(p, a', b', t', Label(y))
      ensures t == t' && x == y
    {
      KeyIsFresh(p, a, b, t, Label(x), a', b', t', Label(y));
      assert C2S[0] != S2C[0];
    }
    forall x: bool, y: bool
      | FRAME_CONTEXT + p.hash(t) + Label(x) == FRAME_CONTEXT + p.hash(t') + Label(y)
      ensures t == t'
    {
      ContextHash(p.hash(t), Label(x), p.hash(t'), Label(y));
      assert t in {t, t'} && t' in {t, t'};
    }
  }

  lemma ContextHash(h: Key32, d: seq<byte>, h': Key32, d': seq<byte>)
    requires FRAME_CONTEXT + h + d == FRAME_CONTEXT + h' + d'
    ensures h == h' && d == d'
  {
    var c, n := FRAME_CONTEXT + h + d, |FRAME_CONTEXT|;
    assert c[n..n + 32] == h && c[n..n + 32] == h';
    assert c[n + 32..] == d && c[n + 32..] == d';
  }

  /** The two directions of a connection never share a context, nor a key if derivation separates them. */
  lemma DirectionsDiffer(p: Primitives, local: Identity, peer: Key32, transcript: seq<byte>, secondary: bool)
    requires ChannelEnds(p, local, peer, transcript, secondary).Some?
    ensures ChannelEnds(p, local, peer, transcript, secondary).value.sendAad !=
            ChannelEnds(p, local, peer, transcript, secondary).value.recvAad
    ensures Separates(p, InputsOf(p, local, peer, transcript)) ==>
      ChannelEnds(p, local, peer, transcript, secondary).value.sendKey !=
      ChannelEnds(p, local, peer, transcript, secondary).value.recvKey
  {
    hide ChannelEnds, DirectionKey, InputsOf, Separates;
    assert C2S[0] != S2C[0];
    EndsLabelled(p, local, peer, transcript, secondary);
    if FRAME_CONTEXT + p.hash(transcript) + C2S == FRAME_CONTEXT + p.hash(transcript) + S2C {
      ContextHash(p.hash(transcript), C2S, p.hash(transcript), S2C);
    }
    var inputs := InputsOf(p, local, peer, transcript);
    assert inputs + inputs == inputs;
    if Separates(p, inputs)
       && DirectionKey(p, local, peer, transcript, C2S) == DirectionKey(p, local, peer, transcript, S2C) {
      KeyIsFresh(p, local, peer, transcript, C2S, local, peer, transcript, S2C);
    }
  }
}
