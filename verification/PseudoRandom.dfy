/** The pseudorandom function of TLS 1.0 (section 5 of RFC 2246), as OpenVPN computes it into buffers. */
module PseudoRandom {
  type Octet = bv8

  /** A keyed message digest; what it computes is not looked into, only its length. */
  datatype Digest = Digest(size: nat, mac: (seq<Octet>, seq<Octet>) -> seq<Octet>)

  ghost predicate DigestOk(d: Digest) { d.size > 0 && forall key, message :: |d.mac(key, message)| == d.size }

  // ----- the definition of the standard

  /** A(0) is the seed, A(i) the digest of A(i - 1). */
  function A(d: Digest, secret: seq<Octet>, seed: seq<Octet>, i: nat): seq<Octet> {
    if i == 0 then seed else d.mac(secret, A(d, secret, seed, i - 1))
  }

  /** Byte `i` of the infinite stream HMAC(secret, A(1) + seed) + HMAC(secret, A(2) + seed) + ... */
  function StreamByte(d: Digest, secret: seq<Octet>, seed: seq<Octet>, i: nat): Octet
    requires DigestOk(d)
  {
    d.mac(secret, A(d, secret, seed, i / d.size + 1) + seed)[i % d.size]
  }

  function PHash(d: Digest, secret: seq<Octet>, seed: seq<Octet>, n: nat): (r: seq<Octet>)
    requires DigestOk(d)
    ensures |r| == n
  {
    seq(n, i requires 0 <= i => StreamByte(d, secret, seed, i))
  }

  /** Half the secret, rounded up: of an odd secret both halves have the middle byte. */
  function HalfLength(n: nat): nat { (n + 1) / 2 }

  function Prf(md5: Digest, sha1: Digest, secret: seq<Octet>, seed: seq<Octet>, n: nat): (r: seq<Octet>)
    requires DigestOk(md5) && DigestOk(sha1)
    ensures |r| == n
  {
    var h := HalfLength(|secret|);
    seq(n, i requires 0 <= i => StreamByte(md5, secret[..h], seed, i) ^ StreamByte(sha1, secret[|secret| - h..], seed, i))
  }

  /** A shorter output is the beginning of a longer one. */
  lemma PrfPrefix(md5: Digest, sha1: Digest, secret: seq<Octet>, seed: seq<Octet>, m: nat, n: nat)
    requires DigestOk(md5) && DigestOk(sha1) && m <= n
    ensures Prf(md5, sha1, secret, seed, m) == Prf(md5, sha1, secret, seed, n)[..m]
  {
  }

  /** The halves cover the secret and overlap only in the middle byte of an odd one. */
  lemma HalvesCover(secret: seq<Octet>)
    ensures var h := HalfLength(|secret|);
      secret == secret[..h] + secret[|secret| - h..][2 * h - |secret|..] && 2 * h - |secret| == |secret| % 2
  {
  }

  // ----- the code

  /** tls1_P_hash: whole digests while more than one remains, and the start of a last one. */
  method TlsPHash(d: Digest, secret: seq<Octet>, seed: seq<Octet>, out: array<Octet>)
    requires DigestOk(d)
    modifies out
    ensures out[..] == PHash(d, secret, seed, out.Length)
  {
    var a1 := d.mac(secret, seed);
    var pos, olen := 0, out.Length;
    ghost var n := 0;
    while olen > d.size
      invariant pos + olen == out.Length && pos == n * d.size && pos >= 0 && olen >= 0
      invariant a1 == A(d, secret, seed, n + 1)
      invariant forall i :: 0 <= i < pos ==> out[i] == StreamByte(d, secret, seed, i)
      decreases olen
    {
      var block := d.mac(secret, a1 + seed);
      WriteBlock(out, pos, block, d.size);
      pos, olen := pos + d.size, olen - d.size;
      a1 := d.mac(secret, a1);
      BlockIsStream(d, secret, seed, n);
      n := n + 1;
    }
    var last := d.mac(secret, a1 + seed);
    WriteBlock(out, pos, last, olen);
    BlockIsStream(d, secret, seed, n);
  }

  /** memcpy of the first `len` bytes of a block. */
  method WriteBlock(out: array<Octet>, pos: nat, block: seq<Octet>, len: nat)
    requires pos + len <= out.Length && len <= |block|
    modifies out
    ensures forall i :: 0 <= i < out.Length ==> out[i] == if pos <= i < pos + len then block[i - pos] else old(out[i])
  {
    for k := 0 to len
      invariant forall i :: 0 <= i < out.Length ==> out[i] == if pos <= i < pos + k then block[i - pos] else old(out[i])
    {
      out[pos + k] := block[k];
    }
  }

  /** Block `n` is the stream from byte `n * size` on. */
  lemma BlockIsStream(d: Digest, secret: seq<Octet>, seed: seq<Octet>, n: nat)
    requires DigestOk(d)
    ensures forall i: nat :: n * d.size <= i < (n + 1) * d.size ==>
      StreamByte(d, secret, seed, i) == d.mac(secret, A(d, secret, seed, n + 1) + seed)[i - n * d.size]
  {
    forall i: nat | n * d.size <= i < (n + 1) * d.size ensures i / d.size == n && i % d.size == i - n * d.size {
      DivMod(i, d.size, n);
    }
  }

  lemma DivMod(i: nat, s: nat, n: nat)
    requires s > 0 && n * s <= i < (n + 1) * s
    ensures i / s == n && i % s == i - n * s
  {
    var q := i / s;
    assert i == q * s + i % s;
    if q < n {
      Monotone(q + 1, n, s);
      assert false;
    } else if q > n {
      Monotone(n + 1, q, s);
      assert false;
    }
  }

  lemma Monotone(a: nat, b: nat, s: nat)
    requires a <= b
    ensures a * s <= b * s
  {
  }

  /** The exclusive or of both streams is the PRF. */
  lemma PrfOf(md5: Digest, sha1: Digest, secret: seq<Octet>, seed: seq<Octet>, first: seq<Octet>, second: seq<Octet>,
      out: seq<Octet>)
    requires DigestOk(md5) && DigestOk(sha1) && |first| == |second| == |out|
    requires first == PHash(md5, secret[..HalfLength(|secret|)], seed, |out|)
    requires second == PHash(sha1, secret[|secret| - HalfLength(|secret|)..], seed, |out|)
    requires forall k :: 0 <= k < |out| ==> out[k] == first[k] ^ second[k]
    ensures out == Prf(md5, sha1, secret, seed, |out|)
  {
    hide StreamByte;
  }

  /** tls1_PRF */
  method TlsPrf(md5: Digest, sha1: Digest, secret: seq<Octet>, seed: seq<Octet>, out1: array<Octet>)
    requires DigestOk(md5) && DigestOk(sha1)
    modifies out1
    ensures out1[..] == Prf(md5, sha1, secret, seed, out1.Length)
  {
    hide PHash, Prf, DigestOk;
    var len := |secret| / 2;
    var start2 := len;
    len := len + |secret| % 2;
    var out2 := new Octet[out1.Length](_ => 0);
    TlsPHash(md5, secret[..len], seed, out1);
    TlsPHash(sha1, secret[start2..start2 + len], seed, out2);
    assert len == HalfLength(|secret|) && secret[start2..start2 + len] == secret[|secret| - len..];
    ghost var first, second := out1[..], out2[..];
    for i := 0 to out1.Length
      invariant forall k :: 0 <= k < i ==> out1[k] == first[k] ^ second[k]
      invariant forall k :: i <= k < out1.Length ==> out1[k] == first[k]
      invariant out2[..] == second
    {
      out1[i] := out1[i] ^ out2[i];
    }
    PrfOf(md5, sha1, secret, seed, first, second, out1[..]);
  }
}
