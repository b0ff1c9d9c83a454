/** How two OpenVPN peers exchange source material and derive the same data channel keys from it. */
module KeyExchange {
  import opened Wrappers
  import opened PseudoRandom

  const PRE_MASTER: nat := 48
  const RANDOM: nat := 32
  const MASTER: nat := 48

  type Bytes = seq<Octet>

  datatype KeySource = KeySource(preMaster: Bytes, random1: Bytes, random2: Bytes)

  function Zeros(n: nat): (z: Bytes)
    ensures |z| == n && forall i :: 0 <= i < n ==> z[i] == 0
  {
    seq(n, _ => 0)
  }

  const CLEAR := KeySource(Zeros(PRE_MASTER), Zeros(RANDOM), Zeros(RANDOM))

  /** The material of both sides. */
  datatype KeySource2 = KeySource2(client: KeySource, server: KeySource)

  predicate SourceOk(k: KeySource) { |k.preMaster| == PRE_MASTER && |k.random1| == |k.random2| == RANDOM }

  predicate Sources2Ok(k: KeySource2) { SourceOk(k.client) && SourceOk(k.server) }

  /** What the library is asked for: digests, the lengths of a key's parts, and whether a key is acceptable. */
  datatype Suite = Suite(md5: Digest, sha1: Digest, cipherLength: nat, hmacLength: nat, ivLength: nat,
                         fixup: Bytes -> Bytes, check: Bytes -> bool)

  ghost predicate SuiteOk(s: Suite) {
    DigestOk(s.md5) && DigestOk(s.sha1) && s.ivLength <= s.hmacLength && forall k :: |s.fixup(k)| == |k|
  }

  /** The text that separates this program's use of the PRF from others. */
  datatype Labels = Labels(masterSecret: Bytes, keyExpansion: Bytes)

  /** The keys one side sends and receives with. */
  datatype ChannelKeys = ChannelKeys(block: Bytes, encryptIv: Bytes, decryptIv: Bytes)

  // ----- the messages

  /** What a side puts into its key message: the client's has the pre-master secret. */
  function KeyMessage(k: KeySource, server: bool): Bytes {
    (if server then [] else k.preMaster) + k.random1 + k.random2
  }

  /** buf_write: fails if the buffer has no room. */
  method BufWrite(buf: Bytes, capacity: nat, bytes: Bytes) returns (ok: bool, out: Bytes)
    ensures ok <==> |buf| + |bytes| <= capacity
    ensures out == if ok then buf + bytes else buf
  {
    ok := |buf| + |bytes| <= capacity;
    out := if ok then buf + bytes else buf;
  }

  /** random_bytes_to_buf: the next random bytes, also written to the buffer if there is room. */
  method RandomBytesToBuf(random: Bytes, pos: nat, n: nat, buf: Bytes, capacity: nat) returns (ok: bool, r: Bytes, out: Bytes)
    requires pos + n <= |random|
    ensures r == random[pos..pos + n] && (ok <==> |buf| + n <= capacity)
    ensures out == if ok then buf + r else buf
  {
    r := random[pos..pos + n];
    ok, out := BufWrite(buf, capacity, r);
  }

  /** buf_read: takes the next bytes, or fails and takes none. */
  method BufRead(buf: Bytes, n: nat) returns (ok: bool, bytes: Bytes, rest: Bytes)
    ensures ok <==> n <= |buf|
    ensures ok ==> buf == bytes + rest && |bytes| == n
    ensures !ok ==> rest == buf && bytes == Zeros(n)
  {
    ok := n <= |buf|;
    bytes, rest := Zeros(n), buf;
    if ok {
      bytes, rest := buf[..n], buf[n..];
    }
  }

  /** tls1_PRF over the concatenated seed. */
  method OpenvpnPrf(s: Suite, secret: Bytes, purpose: Bytes, clientSeed: Bytes, serverSeed: Bytes, clientSid: Bytes,
      serverSid: Bytes, n: nat)
    returns (out: Bytes)
    requires SuiteOk(s)
    ensures out == Prf(s.md5, s.sha1, secret, purpose + clientSeed + serverSeed + clientSid + serverSid, n)
  {
    var seed := purpose + clientSeed + serverSeed + clientSid + serverSid;
    var buffer := new Octet[n](_ => 0);
    TlsPrf(s.md5, s.sha1, secret, seed, buffer);
    out := buffer[..];
  }

  // ----- key expansion

  function Master(s: Suite, l: Labels, k: KeySource2): Bytes
    requires SuiteOk(s)
  {
    Prf(s.md5, s.sha1, k.client.preMaster, l.masterSecret + k.client.random1 + k.server.random1 + [] + [], MASTER)
  }

  /** The block of two keys, each a cipher part and an HMAC part. */
  function KeyBlock(s: Suite, l: Labels, k: KeySource2, clientSid: Bytes, serverSid: Bytes): (b: Bytes)
    requires SuiteOk(s)
    ensures |b| == 2 * (s.cipherLength + s.hmacLength)
  {
    Prf(s.md5, s.sha1, Master(s, l, k), l.keyExpansion + k.client.random2 + k.server.random2 + clientSid + serverSid,
        2 * (s.cipherLength + s.hmacLength))
  }

  function KeyOf(s: Suite, block: Bytes, i: nat): (k: Bytes)
    requires SuiteOk(s) && |block| == 2 * (s.cipherLength + s.hmacLength) && i < 2
    ensures |k| == s.cipherLength + s.hmacLength
  {
    var n := s.cipherLength + s.hmacLength;
    s.fixup(if i == 0 then block[..n] else block[n..])
  }

  /** The implicit IV in the HMAC part of a key. */
  function ImplicitIv(s: Suite, key: Bytes): (iv: Bytes)
    requires SuiteOk(s) && |key| == s.cipherLength + s.hmacLength
    ensures |iv| == s.ivLength
  {
    key[s.cipherLength..][..s.ivLength]
  }

  predicate GoodBlock(s: Suite, block: Bytes)
    requires SuiteOk(s) && |block| == 2 * (s.cipherLength + s.hmacLength)
  {
    s.check(KeyOf(s, block, 0)) && s.check(KeyOf(s, block, 1))
  }

  lemma Taken(random: Bytes, i: nat, j: nat)
    requires i <= j <= |random|
    ensures random[..i] + random[i..j] == random[..j]
  {
  }

  /** The message is what was taken from the random source. */
  lemma MessageOf(random: Bytes, k: KeySource, server: bool)
    requires var b := if server then 0 else PRE_MASTER;
      b + 2 * RANDOM <= |random| && (server || k.preMaster == random[..b]) &&
      k.random1 == random[b..b + RANDOM] && k.random2 == random[b + RANDOM..b + 2 * RANDOM]
    ensures KeyMessage(k, server) == random[..2 * RANDOM + if server then 0 else PRE_MASTER]
  {
    var b := if server then 0 else PRE_MASTER;
    Taken(random, b, b + RANDOM);
    Taken(random, b + RANDOM, b + 2 * RANDOM);
    assert random[..b] + k.random1 == (if server then [] else k.preMaster) + k.random1;
  }

  class Peer {
    const server: bool
    const suite: Suite
    const labels: Labels
    const sessionId: Bytes
    var sessionIdRemote: Bytes
    var keySrc: KeySource2
    var keys: Option<ChannelKeys>

    ghost predicate Valid()
      reads this
    {
      SuiteOk(suite) && Sources2Ok(keySrc)
    }

    /** The source material of this side, and of the other. */
    ghost function Own(): KeySource reads this { if server then keySrc.server else keySrc.client }
    ghost function Other(): KeySource reads this { if server then keySrc.client else keySrc.server }

    constructor (server: bool, suite: Suite, labels: Labels, sessionId: Bytes)
      requires SuiteOk(suite)
      ensures Valid() && this.server == server && this.suite == suite && this.labels == labels && this.sessionId == sessionId
      ensures sessionIdRemote == [] && keySrc == KeySource2(CLEAR, CLEAR) && keys.None?
    {
      this.server, this.suite, this.labels, this.sessionId := server, suite, labels, sessionId;
      sessionIdRemote, keySrc, keys := [], KeySource2(CLEAR, CLEAR), None;
    }

    method SetOwn(k: KeySource)
      requires Valid() && SourceOk(k)
      modifies this`keySrc
      ensures Valid() && Own() == k && Other() == old(Other())
    {
      keySrc := if server then keySrc.(server := k) else keySrc.(client := k);
    }

    method SetOther(k: KeySource)
      requires Valid() && SourceOk(k)
      modifies this`keySrc
      ensures Valid() && Other() == k && Own() == old(Own())
    {
      keySrc := if server then keySrc.(client := k) else keySrc.(server := k);
    }

    /** key_source2_randomize_write: material of our own from the bytes that the random source gives, written as our
        message. Where the buffer is full the material ends after the part that did not fit. */
    method RandomizeWrite(capacity: nat, random: Bytes) returns (ok: bool, message: Bytes)
      requires Valid() && |random| >= PRE_MASTER + 2 * RANDOM
      modifies this`keySrc
      ensures Valid() && Other() == old(Other())
      ensures var b := if server then 0 else PRE_MASTER;
        && (ok <==> capacity >= b + 2 * RANDOM)
        && (ok ==> message == random[..b + 2 * RANDOM] == KeyMessage(Own(), server))
        && Own().preMaster == (if server then Zeros(PRE_MASTER) else random[..PRE_MASTER])
        && Own().random1 == (if capacity >= b then random[b..b + RANDOM] else Zeros(RANDOM))
        && Own().random2 == (if capacity >= b + RANDOM then random[b + RANDOM..b + 2 * RANDOM] else Zeros(RANDOM))
    {
      hide Zeros, SuiteOk, Sources2Ok, KeyMessage;
      ok, message := true, [];
      var k, pos := CLEAR, 0;
      SetOwn(k);
      var r;
      if !server {
        ok, r, message := RandomBytesToBuf(random, 0, PRE_MASTER, message, capacity);
        k, pos := k.(preMaster := r), PRE_MASTER;
        SetOwn(k);
        if !ok { return; }
      }
      Taken(random, 0, pos);
      ok, r, message := RandomBytesToBuf(random, pos, RANDOM, message, capacity);
      k := k.(random1 := r);
      SetOwn(k);
      if !ok { return; }
      Taken(random, pos, pos + RANDOM);
      ok, r, message := RandomBytesToBuf(random, pos + RANDOM, RANDOM, message, capacity);
      k := k.(random2 := r);
      SetOwn(k);
      Taken(random, pos + RANDOM, pos + 2 * RANDOM);
      MessageOf(random, k, server);
    }

    /** key_source2_read: the material of the other side, from its message. */
    method Read(message: Bytes) returns (ok: bool, rest: Bytes)
      requires Valid()
      modifies this`keySrc
      ensures Valid() && Own() == old(Own())
      ensures ok <==> |message| >= 2 * RANDOM + if server then PRE_MASTER else 0
      ensures ok ==> message == KeyMessage(Other(), !server) + rest && (!server ==> Other().preMaster == Zeros(PRE_MASTER))
      ensures var b := if server then PRE_MASTER else 0;
        && (ok ==> rest == message[b + 2 * RANDOM..])
        && Other().preMaster == (if server && |message| >= b then message[..b] else Zeros(PRE_MASTER))
        && Other().random1 == (if |message| >= b + RANDOM then message[b..b + RANDOM] else Zeros(RANDOM))
        && Other().random2 == (if |message| >= b + 2 * RANDOM then message[b + RANDOM..b + 2 * RANDOM] else Zeros(RANDOM))
    {
      hide Zeros, SuiteOk, Sources2Ok;
      var k := CLEAR;
      SetOther(k);
      ok, rest := true, message;
      var r;
      if server {
        ok, r, rest := BufRead(rest, PRE_MASTER);
        k := k.(preMaster := r);
        SetOther(k);
        if !ok { return; }
      }
      ok, r, rest := BufRead(rest, RANDOM);
      k := k.(random1 := r);
      SetOther(k);
      if !ok { return; }
      ok, r, rest := BufRead(rest, RANDOM);
      k := k.(random2 := r);
      SetOther(k);
    }

    function ClientSid(): Bytes reads this { if server then sessionIdRemote else sessionId }
    function ServerSid(): Bytes reads this { if server then sessionId else sessionIdRemote }

    /** The keys this side derives: it encrypts with the IV of the key numbered by its role and decrypts with the other. */
    ghost function Derived(): ChannelKeys
      requires Valid()
      reads this
    {
      var block := KeyBlock(suite, labels, keySrc, ClientSid(), ServerSid());
      var mine, theirs := KeyOf(suite, block, if server then 1 else 0), KeyOf(suite, block, if server then 0 else 1);
      ChannelKeys(block, ImplicitIv(suite, mine), ImplicitIv(suite, theirs))
    }

    /** How the seeds of the two rounds are put together. */
    lemma SeedsJoined(k: KeySource2)
      requires Valid()
      ensures labels.masterSecret + k.client.random1 + k.server.random1 + [] + [] ==
        labels.masterSecret + k.client.random1 + k.server.random1
      ensures labels.keyExpansion + k.client.random2 + k.server.random2 + ClientSid() + ServerSid() ==
        labels.keyExpansion + k.client.random2 + k.server.random2 +
        if server then sessionIdRemote + sessionId else sessionId + sessionIdRemote
    {
    }

    /** tls_session_generate_data_channel_keys: works once, and erases the source material in any case. */
    method GenerateDataChannelKeys() returns (ok: bool)
      requires Valid()
      modifies this`keys, this`keySrc
      ensures Valid() && keySrc == KeySource2(CLEAR, CLEAR)
      ensures ok <==> old(keys.None? && GoodBlock(suite, Derived().block))
      ensures keys == if ok then Some(old(Derived())) else old(keys)
      ensures ok ==> var k, s := old(keySrc), suite;
        var sids := if server then sessionIdRemote + sessionId else sessionId + sessionIdRemote;
        var master := Prf(s.md5, s.sha1, k.client.preMaster, labels.masterSecret + k.client.random1 + k.server.random1, MASTER);
        keys.value.block == Prf(s.md5, s.sha1, master, labels.keyExpansion + k.client.random2 + k.server.random2 + sids,
                                2 * (s.cipherLength + s.hmacLength))
      ensures ok ==> |keys.value.block| == 2 * (suite.cipherLength + suite.hmacLength)
      ensures ok ==> var b, n, c, v := keys.value.block, suite.cipherLength + suite.hmacLength, suite.cipherLength, suite.ivLength;
        && keys.value.encryptIv == suite.fixup(if server then b[n..] else b[..n])[c..c + v]
        && keys.value.decryptIv == suite.fixup(if server then b[..n] else b[n..])[c..c + v]
    {
      hide Prf;
      SeedsJoined(keySrc);
      ok := GenerateKeyExpansion(ClientSid(), ServerSid());
      keySrc := KeySource2(CLEAR, CLEAR);
    }

    /** generate_key_expansion */
    method GenerateKeyExpansion(clientSid: Bytes, serverSid: Bytes) returns (ok: bool)
      requires Valid() && clientSid == ClientSid() && serverSid == ServerSid()
      modifies this`keys
      ensures Valid()
      ensures ok <==> old(keys.None? && GoodBlock(suite, Derived().block))
      ensures keys == if ok then Some(old(Derived())) else old(keys)
    {
      if keys.Some? { return false; }
      var k, l, n := keySrc, labels, suite.cipherLength + suite.hmacLength;
      var master := OpenvpnPrf(suite, k.client.preMaster, l.masterSecret, k.client.random1, k.server.random1, [], [], MASTER);
      var block := OpenvpnPrf(suite, master, l.keyExpansion, k.client.random2, k.server.random2, clientSid, serverSid, 2 * n);
      var key2 := [suite.fixup(block[..n]), suite.fixup(block[n..])];
      if !suite.check(key2[0]) || !suite.check(key2[1]) { return false; }
      var out := if server then 1 else 0;
      keys := Some(ChannelKeys(block, key2[out][suite.cipherLength..][..suite.ivLength],
        key2[1 - out][suite.cipherLength..][..suite.ivLength]));
      ok := true;
    }
  }

  /** Two peers that know each other's session ids and use the same suite. */
  ghost predicate Partners(client: Peer, server: Peer)
    reads client, server
  {
    && client != server && client.Valid() && server.Valid() && !client.server && server.server
    && client.suite == server.suite && client.labels == server.labels
    && client.sessionIdRemote == server.sessionId && server.sessionIdRemote == client.sessionId
  }

  /** A message that was read gives back the material that was written. */
  lemma SameMaterial(k: KeySource, j: KeySource, server: bool, rest: Bytes)
    requires SourceOk(k) && SourceOk(j) && KeyMessage(k, server) == KeyMessage(j, server) + rest &&
      (server ==> k.preMaster == j.preMaster)
    ensures k == j && rest == []
  {
    var m, n := KeyMessage(k, server), KeyMessage(j, server) + rest;
    assert |m| == |n|;
    var b := if server then 0 else PRE_MASTER;
    assert m[..b] == (if server then [] else k.preMaster) && n[..b] == (if server then [] else j.preMaster);
    assert m[b..b + RANDOM] == k.random1 && n[b..b + RANDOM] == j.random1;
    assert m[b + RANDOM..b + 2 * RANDOM] == k.random2 && n[b + RANDOM..b + 2 * RANDOM] == j.random2;
  }

  /** The exchange: the client writes, the server reads and writes, the client reads. Both then hold the same material,
      which is what the random source of each gave it. */
  method Exchange(client: Peer, server: Peer, capacity: nat, mine: Bytes, theirs: Bytes)
    requires Partners(client, server) && capacity >= PRE_MASTER + 2 * RANDOM
    requires |mine| == |theirs| == PRE_MASTER + 2 * RANDOM
    modifies client`keySrc, server`keySrc
    ensures Partners(client, server) && client.keySrc == server.keySrc
    ensures client.keySrc.client == KeySource(mine[..PRE_MASTER], mine[PRE_MASTER..PRE_MASTER + RANDOM], mine[PRE_MASTER + RANDOM..])
    ensures client.keySrc.server == KeySource(Zeros(PRE_MASTER), theirs[..RANDOM], theirs[RANDOM..2 * RANDOM])
  {
    hide Zeros, SuiteOk, Sources2Ok;
    var ok, hello := client.RandomizeWrite(capacity, mine);
    var read, rest := server.Read(hello);
    SameMaterial(client.Own(), server.Other(), false, rest);
    var answer;
    ok, answer := server.RandomizeWrite(capacity, theirs);
    read, rest := client.Read(answer);
    SameMaterial(server.Own(), client.Other(), true, rest);
  }

  /** Both sides then accept or reject together, hold the same key block, and each encrypts with the IV that the other
      decrypts with. */
  method Agree(client: Peer, server: Peer, capacity: nat, mine: Bytes, theirs: Bytes) returns (ok: bool)
    requires Partners(client, server) && capacity >= PRE_MASTER + 2 * RANDOM && client.keys.None? && server.keys.None?
    requires |mine| == |theirs| == PRE_MASTER + 2 * RANDOM
    modifies client, server
    ensures ok <==> client.keys.Some?
    ensures ok <==> server.keys.Some?
    ensures ok ==> client.keys.value.block == server.keys.value.block
    ensures ok ==>
      client.keys.value.encryptIv == server.keys.value.decryptIv && server.keys.value.encryptIv == client.keys.value.decryptIv
  {
    hide KeyBlock, Prf, KeyOf, ImplicitIv, GoodBlock;
    Exchange(client, server, capacity, mine, theirs);
    SameDerived(client, server);
    var clientOk := client.GenerateDataChannelKeys();
    var serverOk := server.GenerateDataChannelKeys();
    ok := clientOk && serverOk;
  }

  lemma SameDerived(client: Peer, server: Peer)
    requires Partners(client, server) && client.keySrc == server.keySrc
    ensures client.Derived().block == server.Derived().block
    ensures client.Derived().encryptIv == server.Derived().decryptIv && server.Derived().encryptIv == client.Derived().decryptIv
  {
  }
}
