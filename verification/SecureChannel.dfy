/** Ideal cryptography for the broker protocol: keys, transcripts, proofs and sequenced envelopes
    are terms, equal only if they were made from the same parts. */
module SecureChannel {

  type Bytes = seq<nat>
  type Id = string
  type Psk = nat

  const NONCE := 16
  const SESSION_ID := 8
  const EPOCH := 4
  /** What the key encapsulation makes it; any other length would do. */
  const CIPHER := 768

  /** What the client and the holder of key pair `pair` get from the same cipher text. */
  datatype Shared = Agreed(pair: nat, cipher: Bytes)

  /** One directional key, as `PrepareKeys` derives it. */
  datatype Key = Key(psk: Psk, nonceC: Bytes, nonceS: Bytes, secret: Shared, toServer: bool)

  // ----- transcripts -----

  datatype Transcript = Transcript(clientId: Id, cipher: Bytes, nonceC: Bytes, nonceS: Bytes, sessionId: Bytes, epoch: Bytes)

  function Utf8(id: Id): Bytes
    ensures |Utf8(id)| == |id|
  {
    if id == "" then [] else [id[0] as nat] + Utf8(id[1..])
  }

  /** What is hashed: the parts one after the other, without any separator. */
  function Raw(t: Transcript): Bytes {
    Utf8(t.clientId) + t.cipher + t.nonceC + t.nonceS + t.sessionId + t.epoch
  }

  predicate FixedLengths(t: Transcript) {
    |t.cipher| == CIPHER && |t.nonceC| == NONCE && |t.nonceS| == NONCE && |t.sessionId| == SESSION_ID && |t.epoch| == EPOCH
  }

  lemma {:induction false} Utf8Injective(a: Id, b: Id)
    requires Utf8(a) == Utf8(b)
    ensures a == b
  {
    if a != "" {
      assert |Utf8(b)| > 0;
      assert Utf8(a)[1..] == Utf8(a[1..]) && Utf8(b)[1..] == Utf8(b[1..]);
      assert a[0] as nat == Utf8(a)[0] == Utf8(b)[0] == b[0] as nat;
      Utf8Injective(a[1..], b[1..]);
      assert a == [a[0]] + a[1..] && b == [b[0]] + b[1..];
    }
  }

  lemma LastPart(a: Bytes, b: Bytes, c: Bytes, d: Bytes)
    requires a + b == c + d && |b| == |d|
    ensures a == c && b == d
  {
    assert a == (a + b)[..|a|] && b == (a + b)[|a|..];
    assert c == (c + d)[..|c|] && d == (c + d)[|c|..];
  }

  /** With parts of fixed length the bare concatenation can be taken apart again, */
  lemma RawInjective(t: Transcript, u: Transcript)
    requires FixedLengths(t) && FixedLengths(u) && Raw(t) == Raw(u)
    ensures t == u
  {
    var a, b := Utf8(t.clientId), Utf8(u.clientId);
    LastPart(a + t.cipher + t.nonceC + t.nonceS + t.sessionId, t.epoch, b + u.cipher + u.nonceC + u.nonceS + u.sessionId, u.epoch);
    LastPart(a + t.cipher + t.nonceC + t.nonceS, t.sessionId, b + u.cipher + u.nonceC + u.nonceS, u.sessionId);
    LastPart(a + t.cipher + t.nonceC, t.nonceS, b + u.cipher + u.nonceC, u.nonceS);
    LastPart(a + t.cipher, t.nonceC, b + u.cipher, u.nonceC);
    LastPart(a, t.cipher, b, u.cipher);
    Utf8Injective(t.clientId, u.clientId);
  }

  /** The parts before the session id may be known from elsewhere; then only its length has to be. */
  lemma SameParts(t: Transcript, u: Transcript)
    requires Raw(t) == Raw(u) && t.cipher == u.cipher && t.nonceC == u.nonceC && t.nonceS == u.nonceS
    requires |t.sessionId| == |u.sessionId| && |t.epoch| == |u.epoch|
    ensures t == u
  {
    var a, b := Utf8(t.clientId), Utf8(u.clientId);
    LastPart(a + t.cipher + t.nonceC + t.nonceS + t.sessionId, t.epoch, b + u.cipher + u.nonceC + u.nonceS + u.sessionId, u.epoch);
    LastPart(a + t.cipher + t.nonceC + t.nonceS, t.sessionId, b + u.cipher + u.nonceC + u.nonceS, u.sessionId);
    LastPart(a + t.cipher + t.nonceC, t.nonceS, b + u.cipher + u.nonceC, u.nonceS);
    LastPart(a + t.cipher, t.nonceC, b + u.cipher, u.nonceC);
    LastPart(a, t.cipher, b, u.cipher);
    Utf8Injective(t.clientId, u.clientId);
  }

  function Letters(n: nat): (b: Bytes) { seq(n, i => 'a' as nat) }

  function Uniform(id: Id, rest: nat, epoch: Bytes): Transcript {
    Transcript(id, Letters(CIPHER), Letters(NONCE), Letters(NONCE), Letters(rest), epoch)
  }

  /** One more octet in the session id makes up for a shorter client id. */
  lemma RawAmbiguous(epoch: Bytes)
    ensures Raw(Uniform("a", SESSION_ID + 1, epoch)) == Raw(Uniform("aa", SESSION_ID, epoch))
  {
    assert "aa"[1..] == "a" && "a"[1..] == "";
    assert Utf8("a") == Letters(1) && Utf8("aa") == Letters(2);
    var t, u := Uniform("a", SESSION_ID + 1, epoch), Uniform("aa", SESSION_ID, epoch);
    assert Utf8(t.clientId) + t.cipher + t.nonceC + t.nonceS + t.sessionId == Letters(810);
    assert Utf8(u.clientId) + u.cipher + u.nonceC + u.nonceS + u.sessionId == Letters(810);
  }

  // ----- sessions -----

  /** What one side takes a session to be. */
  datatype Agreement = Agreement(transcript: Transcript, psk: Psk, secret: Shared)

  function KeyOf(a: Agreement, toServer: bool): Key {
    Key(a.psk, a.transcript.nonceC, a.transcript.nonceS, a.secret, toServer)
  }

  /** The keyed digest of a transcript that the two sides show each other. */
  datatype Proof = Proof(key: Key, raw: Bytes, fromServer: bool)

  function ProofOf(a: Agreement, fromServer: bool): Proof {
    Proof(KeyOf(a, !fromServer), Raw(a.transcript), fromServer)
  }

  const FIRST_EPOCH: Bytes := [1, 0, 0, 0]

  /** Each side shows a proof under the key of its own direction, and nothing that one side makes passes for something of the other. */
  lemma NoReflection(a: Agreement, b: Agreement)
    ensures ProofOf(a, false).key == KeyOf(a, true) && ProofOf(a, true).key == KeyOf(a, false)
    ensures KeyOf(a, true) != KeyOf(b, false) && ProofOf(a, true) != ProofOf(b, false)
  {
  }
}
