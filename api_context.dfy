/** `ApiContext`: the credentials a request is sent with, and the
    app-secret proof, an HMAC-SHA256 of the access token keyed by the app
    secret (section 2 of RFC 2104), written as lower-case hex. The proof is
    computed on first read and cached. */
module Credentials {
  import opened Wrappers

  newtype byte = x: int | 0 <= x < 256

  /** An HMAC-SHA256 value: 32 bytes. */
  type Digest = d: seq<byte> | |d| == 32 witness seq(32, i => 0 as byte)

  /** `Encoding.ASCII.GetBytes`: one byte per character, with `?` (63) for
      any character outside ASCII. */
  function Ascii(s: string): (bs: seq<byte>)
    ensures |bs| == |s|
    ensures forall i :: 0 <= i < |s| ==> bs[i] as int == if s[i] as int < 128 then s[i] as int else 63
  {
    seq(|s|, i requires 0 <= i < |s| => if s[i] as int < 128 then s[i] as int as byte else 63)
  }

  /** A lower-case hex digit. */
  predicate IsHexDigit(ch: char) {
    '0' <= ch <= '9' || 'a' <= ch <= 'f'
  }

  /** The lower-case hex digit of a value below 16. */
  function HexDigit(d: nat): (ch: char)
    requires d < 16
    ensures IsHexDigit(ch)
  {
    if d < 10 then ('0' as int + d) as char else ('a' as int + d - 10) as char
  }

  /** The value of one lower-case hex digit. */
  function HexValue(ch: char): (v: nat)
    requires IsHexDigit(ch)
    ensures v < 16 && HexDigit(v) == ch
  {
    if '0' <= ch <= '9' then ch as int - '0' as int else ch as int - 'a' as int + 10
  }

  /** `b.ToString("x2")`: two lower-case hex digits, high nibble first. */
  function HexByte(b: byte): (s: string)
    ensures |s| == 2 && IsHexDigit(s[0]) && IsHexDigit(s[1])
  {
    [HexDigit(b as int / 16), HexDigit(b as int % 16)]
  }

  /** Every byte as two hex digits, in byte order. */
  function HexLower(bs: seq<byte>): (s: string)
    ensures |s| == 2 * |bs|
    ensures forall i :: 0 <= i < |s| ==> IsHexDigit(s[i])
    decreases |bs|
  {
    if |bs| == 0 then "" else HexLower(bs[..|bs| - 1]) + HexByte(bs[|bs| - 1])
  }

  /** Reads lower-case hex back into bytes, two digits per byte. */
  function HexDecode(s: string): seq<byte>
    requires |s| % 2 == 0 && forall i :: 0 <= i < |s| ==> IsHexDigit(s[i])
    decreases |s|
  {
    if |s| == 0 then []
    else HexDecode(s[..|s| - 2]) + [(16 * HexValue(s[|s| - 2]) + HexValue(s[|s| - 1])) as byte]
  }

  /** The hex text of a byte string reads back as that byte string. */
  lemma {:induction false} HexRoundTrip(bs: seq<byte>)
    ensures HexDecode(HexLower(bs)) == bs
    decreases |bs|
  {
    if |bs| > 0 {
      var init := bs[..|bs| - 1];
      assert init + [bs[|bs| - 1]] == bs;
      HexStep(init, bs[|bs| - 1]);
      HexRoundTrip(init);
    }
  }

  /** One more byte adds one more decoded byte. */
  lemma HexStep(init: seq<byte>, b: byte)
    ensures HexDecode(HexLower(init + [b])) == HexDecode(HexLower(init)) + [b]
  {
    var bs := init + [b];
    assert bs[..|bs| - 1] == init;
    var h := HexByte(b);
    assert HexLower(bs) == HexLower(init) + h;
    HexDecodeSnoc(HexLower(init), h);
    HexByteDecodes(b);
  }

  /** Decoding two more digits appends one byte. */
  lemma HexDecodeSnoc(t: string, h: string)
    requires |t| % 2 == 0 && forall i :: 0 <= i < |t| ==> IsHexDigit(t[i])
    requires |h| == 2 && IsHexDigit(h[0]) && IsHexDigit(h[1])
    ensures HexDecode(t + h) == HexDecode(t) + [(16 * HexValue(h[0]) + HexValue(h[1])) as byte]
  {
    var u := t + h;
    assert u[..|u| - 2] == t;
    assert u[|u| - 2] == h[0] && u[|u| - 1] == h[1];
  }

  /** The two digits of a byte give the byte back. */
  lemma HexByteDecodes(b: byte)
    ensures (16 * HexValue(HexByte(b)[0]) + HexValue(HexByte(b)[1])) as byte == b
  {
    var hi, lo := b as int / 16, b as int % 16;
    assert HexValue(HexDigit(hi)) == hi;
    assert HexValue(HexDigit(lo)) == lo;
    assert 16 * hi + lo == b as int;
  }

  /** The proof for a secret and a token. */
  function ProofOf(hmac: (seq<byte>, seq<byte>) -> Digest, secret: string, token: string): string {
    HexLower(hmac(Ascii(secret), Ascii(token)))
  }

  /** The proof is 64 lower-case hex digits, and it reads back as the HMAC. */
  lemma ProofShape(hmac: (seq<byte>, seq<byte>) -> Digest, secret: string, token: string)
    ensures |ProofOf(hmac, secret, token)| == 64
    ensures forall i :: 0 <= i < 64 ==> IsHexDigit(ProofOf(hmac, secret, token)[i])
    ensures HexDecode(ProofOf(hmac, secret, token)) == hmac(Ascii(secret), Ascii(token))
  {
    HexRoundTrip(hmac(Ascii(secret), Ascii(token)));
  }

  /** The cache after one read of `AppSecretProof`: filled when the flag is
      on, a secret is set and nothing is cached yet; unchanged otherwise. */
  function NextCache(cached: Option<string>, send: bool, secret: Option<string>, proof: string -> string): (r: Option<string>)
    ensures r.Some? <==> cached.Some? || (send && secret.Some?)
  {
    if send && secret.Some? && cached.None? then Some(proof(secret.value)) else cached
  }

  /** Once a proof is cached, every later read returns it, whatever the
      flag or the secret then are. */
  lemma CachedIsFinal(cached: string, send: bool, secret: Option<string>, proof: string -> string)
    ensures NextCache(Some(cached), send, secret, proof) == Some(cached)
  {
  }

  /** A second read changes nothing: the proof is computed at most once. */
  lemma ReadIdempotent(cached: Option<string>, send: bool, secret: Option<string>, proof: string -> string)
    ensures var once := NextCache(cached, send, secret, proof);
      NextCache(once, send, secret, proof) == once
  {
  }

  /** While nothing is cached, the read yields null exactly when the flag is
      off or no secret is set, and the proof of the secret otherwise. */
  lemma EmptyCacheRead(send: bool, secret: Option<string>, proof: string -> string)
    ensures NextCache(None, send, secret, proof).None? <==> !send || secret.None?
    ensures send && secret.Some? ==> NextCache(None, send, secret, proof) == Some(proof(secret.value))
  {
  }

  class ApiContext {
    var appSecretProof: Option<string>
    const accessToken: string
    const appSecret: Option<string>
    const appId: Option<string>
    const backChannel: nat
    var sendAppSecretProof: bool
    const hmac: (seq<byte>, seq<byte>) -> Digest

    constructor (accessToken: string, appSecret: Option<string>, appId: Option<string>, backChannel: nat,
                 hmac: (seq<byte>, seq<byte>) -> Digest)
      ensures this.accessToken == accessToken && this.appSecret == appSecret && this.appId == appId
      ensures this.backChannel == backChannel && this.hmac == hmac
      ensures !sendAppSecretProof && appSecretProof.None?
    {
      this.accessToken := accessToken;
      this.appSecret := appSecret;
      this.appId := appId;
      this.backChannel := backChannel;
      this.hmac := hmac;
      sendAppSecretProof := false;
      appSecretProof := None;
    }

    /** The proof of a secret for this context's token. */
    function ProofFor(secret: string): string {
      ProofOf(hmac, secret, accessToken)
    }

    /** The `AppSecretProof` getter. */
    method GetAppSecretProof() returns (p: Option<string>)
      modifies this
      ensures appSecretProof == NextCache(old(appSecretProof), sendAppSecretProof, appSecret, ProofFor)
      ensures sendAppSecretProof == old(sendAppSecretProof)
      ensures p == appSecretProof
    {
      if sendAppSecretProof && appSecret.Some? && appSecretProof.None? {
        var proof := GenerateAppSecretProof(appSecret.value);
        appSecretProof := Some(proof);
      }
      return appSecretProof;
    }

    /** `GenerateAppSecretProof`: the hash bytes as hex, in order. */
    method GenerateAppSecretProof(secret: string) returns (proof: string)
      ensures proof == ProofOf(hmac, secret, accessToken)
    {
      var hash := hmac(Ascii(secret), Ascii(accessToken));
      var builder := "";
      for i := 0 to |hash|
        invariant builder == HexLower(hash[..i])
      {
        assert hash[..i + 1][..i] == hash[..i];
        builder := builder + HexByte(hash[i]);
      }
      assert hash[..|hash|] == hash;
      return builder;
    }

    /** Switching `SendAppSecretProof`. */
    method SetSendAppSecretProof(send: bool)
      modifies this
      ensures sendAppSecretProof == send && appSecretProof == old(appSecretProof)
    {
      sendAppSecretProof := send;
    }
  }
}
