/** OpenVPN's control channel: three sessions, each with a primary and a retiring key, moved by handshakes, soft
    resets, promotion, errors and expiry. The TLS library and the reliability layer are an arbitrary environment. */
module ControlChannel {
  import opened Words
  import opened Wrappers

  // Key states, in the order the code compares them in.
  type State = s: int | -1 <= s <= 7
  const S_ERROR: State := -1
  const S_UNDEF: State := 0
  const S_INITIAL: State := 1
  const S_PRE_START: State := 2
  const S_START: State := 3
  const S_SENT_KEY: State := 4
  const S_GOT_KEY: State := 5
  const S_ACTIVE: State := 6
  const S_NORMAL_OP: State := 7

  const TM_ACTIVE: nat := 0
  const TM_UNTRUSTED: nat := 1
  const TM_LAME_DUCK: nat := 2
  const TM_SIZE: nat := 3

  datatype Opcode = Unknown | HardReset(client: bool, version: nat) | SoftReset | Control | Ack

  /** With key method 0, any hard reset. */
  predicate IsHardReset(op: Opcode, keyMethod: nat) {
    op.HardReset? && (keyMethod == 0 || (keyMethod == 1 && op.version == 1) || (keyMethod >= 2 && op.version == 2))
  }

  datatype Options = Options(
    server: bool, singleSession: bool, keyMethod: nat, keyIdBits: nat, handshakeWindow: nat, transitionWindow: nat,
    renegotiateSeconds: nat, renegotiateBytes: int, renegotiatePackets: nat)

  /** What the code asserts of its options, and a key id of at least two bits. */
  predicate OptionsOk(o: Options) { (o.keyMethod == 1 || o.keyMethod == 2) && o.keyIdBits >= 2 }

  /** A key exchange message sent or received. */
  datatype KeyEvent = Wrote | Got

  /** A key. Undefined session ids and addresses are 0; `history` records the key exchanges that succeeded on it. */
  datatype KeyState = KeyState(
    state: State, keyId: nat, initialOpcode: Opcode, mustNegotiate: nat, mustDie: nat, established: nat,
    sessionIdRemote: nat, remoteAddr: nat, history: seq<KeyEvent>)

  datatype Session = Session(
    sessionId: nat, initialOpcode: Opcode, keyId: nat, primary: KeyState, lame: KeyState, burst: bool, untrustedAddr: nat)

  const CLEAR_KEY := KeyState(S_UNDEF, 0, Unknown, 0, 0, 0, 0, 0, [])
  const CLEAR_SESSION := Session(0, Unknown, 0, CLEAR_KEY, CLEAR_KEY, false, 0)

  /** Key ids run up to the mask and then start again from 1; 0 is the first key only. */
  function NextKeyId(o: Options, k: nat): (n: nat)
  {
    var n := (k + 1) % Pow2(o.keyIdBits);
    if n == 0 then 1 else n
  }

  lemma NextKeyIdDiffers(o: Options, k: nat)
    requires OptionsOk(o) && k < Pow2(o.keyIdBits)
    ensures NextKeyId(o, k) != k && 0 < NextKeyId(o, k) < Pow2(o.keyIdBits)
  {
    FourOrMore(o.keyIdBits);
    hide Pow2;
    WrapsAround(k, Pow2(o.keyIdBits));
  }

  lemma FourOrMore(bits: nat)
    requires bits >= 2
    ensures Pow2(bits) >= 4
  {
    assert Pow2(bits) == 2 * Pow2(bits - 1);
    assert Pow2(bits - 1) == 2 * Pow2(bits - 2);
    hide Pow2;
  }

  lemma WrapsAround(k: nat, p: nat)
    requires k < p
    ensures (k + 1) % p == if k + 1 < p then k + 1 else 0
  {
  }

  // ----- what a key may be

  /** How far a key exchange has come; the server receives before it sends. */
  function Rank(o: Options, s: State): int {
    if o.server && s == S_SENT_KEY then 5 else if o.server && s == S_GOT_KEY then 4 else s
  }

  /** The exchanges behind a state. */
  function Exchanges(o: Options, s: State): seq<KeyEvent> {
    if Rank(o, s) < 4 then []
    else if Rank(o, s) == 4 then [if o.server then Got else Wrote]
    else if o.server then [Got, Wrote] else [Wrote, Got]
  }

  /** A key in use: its exchanges are those of its state, in the order of the role. */
  predicate LiveKey(o: Options, k: KeyState) {
    && k.state >= S_INITIAL && k.history == Exchanges(o, k.state) && k.keyId < Pow2(o.keyIdBits)
    && (k.state == S_INITIAL ==> k.mustNegotiate == 0) && (k.state >= S_ACTIVE ==> k.established > 0)
  }

  /** A retiring key: none, or one that has an expiry. */
  predicate RetiringKey(o: Options, k: KeyState) {
    k.state == S_UNDEF || (LiveKey(o, k) && k.mustDie != 0 && k.state >= DecryptThreshold(o))
  }

  /** DECRYPT_KEY_ENABLED: from this state on a key can decrypt. */
  function DecryptThreshold(o: Options): State { if o.server then S_SENT_KEY else S_GOT_KEY }

  /** A key can decrypt exactly once the peer's key has been received. */
  lemma DecryptsOnceGot(o: Options, k: KeyState)
    requires LiveKey(o, k)
    ensures k.state >= DecryptThreshold(o) <==> Got in k.history
  {
    hide Pow2;
  }

  /** A session in use; its two keys have successive ids. */
  predicate LiveSession(o: Options, s: Session) {
    && s.sessionId != 0 && LiveKey(o, s.primary) && RetiringKey(o, s.lame) && s.keyId == NextKeyId(o, s.primary.keyId)
    && s.initialOpcode == SoftReset
    && (s.lame.state != S_UNDEF ==> s.primary.keyId == NextKeyId(o, s.lame.keyId))
  }

  /** A session that only keeps a retiring key. */
  predicate RetiredSession(o: Options, s: Session) {
    (s.primary.state == S_UNDEF || s.primary.state == S_ERROR) && RetiringKey(o, s.lame)
  }

  /** What holds of the three sessions between any two calls. */
  predicate SessionsOk(o: Options, ss: seq<Session>) {
    && |ss| == TM_SIZE && OptionsOk(o) && LiveSession(o, ss[TM_ACTIVE]) && RetiredSession(o, ss[TM_LAME_DUCK])
    && (if o.singleSession then ss[TM_UNTRUSTED] == ss[TM_LAME_DUCK] == CLEAR_SESSION else LiveSession(o, ss[TM_UNTRUSTED]))
  }

  /** The two keys of a session in use can be told apart by their ids. */
  lemma KeyIdsDiffer(o: Options, s: Session)
    requires OptionsOk(o) && LiveSession(o, s) && s.lame.state != S_UNDEF
    ensures s.primary.keyId != s.lame.keyId
  {
    NextKeyIdDiffers(o, s.lame.keyId);
  }

  // ----- initialisation

  /** A fresh primary key, which uses up the session's next key id. */
  function NewPrimary(o: Options, s: Session): Session {
    s.(initialOpcode := SoftReset, keyId := NextKeyId(o, s.keyId),
       primary := CLEAR_KEY.(state := S_INITIAL, keyId := s.keyId, initialOpcode := s.initialOpcode))
  }

  /** The primary key retires with a deadline; its successor keeps only the peer. */
  function Renewed(o: Options, s: Session, now: nat): Session {
    var n := NewPrimary(o, s.(lame := s.primary.(mustDie := now + o.transitionWindow)));
    n.(primary := n.primary.(sessionIdRemote := s.primary.sessionIdRemote, remoteAddr := s.primary.remoteAddr))
  }

  /** Renewing a session keeps it in use and gives its two keys different ids. */
  lemma RenewedIsLive(o: Options, s: Session, now: nat)
    requires OptionsOk(o) && LiveSession(o, s) && s.primary.state >= DecryptThreshold(o) && now > 0
    ensures LiveSession(o, Renewed(o, s, now)) && Renewed(o, s, now).primary.keyId != Renewed(o, s, now).lame.keyId
  {
    NextKeyIdDiffers(o, s.primary.keyId);
  }

  /** key_state_init for the primary key */
  method KeyStateInit(o: Options, session: Session) returns (s: Session)
    requires OptionsOk(o) && session.keyId < Pow2(o.keyIdBits)
    ensures s == NewPrimary(o, session)
    ensures LiveKey(o, s.primary)
  {
    var ks := CLEAR_KEY;
    s := session;
    ks := ks.(initialOpcode := s.initialOpcode);
    s := s.(initialOpcode := SoftReset);
    ks := ks.(state := S_INITIAL, keyId := s.keyId);
    s := s.(keyId := (s.keyId + 1) % Pow2(o.keyIdBits));
    if s.keyId == 0 {
      s := s.(keyId := 1);
    }
    s := s.(primary := ks);
  }

  /** A session that has just begun: its first key, no retiring one and no peer. */
  predicate Restarted(o: Options, s: Session) {
    LiveSession(o, s) && s.primary.state == S_INITIAL && s.primary.keyId == 0 && s.primary.sessionIdRemote == 0 &&
      s.lame == CLEAR_KEY
  }

  /** tls_session_init: a new session with a random id other than 0. */
  method SessionInit(o: Options) returns (s: Session)
    requires OptionsOk(o)
    ensures Restarted(o, s)
    ensures s.primary.initialOpcode == HardReset(!o.server, if o.keyMethod == 1 then 1 else 2)
  {
    var id: nat :| id > 0;
    s := CLEAR_SESSION.(sessionId := id, initialOpcode := HardReset(!o.server, if o.keyMethod == 1 then 1 else 2));
    NextKeyIdDiffers(o, 0);
    s := KeyStateInit(o, s);
  }

  /** key_state_soft_reset */
  method KeyStateSoftReset(o: Options, session: Session, now: nat) returns (s: Session)
    requires OptionsOk(o) && LiveSession(o, session) && session.primary.state >= DecryptThreshold(o) && now > 0
    ensures s == Renewed(o, session, now) && LiveSession(o, s)
  {
    RenewedIsLive(o, session, now);
    s := session.(primary := session.primary.(mustDie := now + o.transitionWindow));
    s := s.(lame := s.primary);
    s := KeyStateInit(o, s);
    s := s.(primary := s.primary.(sessionIdRemote := s.lame.sessionIdRemote, remoteAddr := s.lame.remoteAddr));
  }

  /** lame_duck_must_die: the assertion that a retiring key has an expiry cannot fail. */
  method LameDuckMustDie(o: Options, lame: KeyState, now: nat) returns (die: bool)
    requires RetiringKey(o, lame)
    ensures die <==> lame.state >= S_INITIAL && lame.mustDie <= now
  {
    if lame.state >= S_INITIAL {
      assert lame.mustDie != 0;
      die := !(now < lame.mustDie);
    } else {
      die := lame.state == S_ERROR;
    }
  }

  // ----- tls_process

  datatype Status = Failed | Nothing | Done

  /** What the environment does during one turn of the loop of tls_process. */
  datatype Turn = Turn(
    now: nat,
    outputBuf: bool,      // the reliability layer has a buffer for an outgoing packet
    fullSync: bool,       // no acknowledgements are pending
    sending: bool,        // the link is free and a packet can be sent
    incoming: Status,     // handing received ciphertext to the TLS object
    readPlain: Status,    // reading plaintext from the TLS object
    writeBufEmpty: bool,
    keyWritten: bool,     // composing our key message succeeds
    readBufFull: bool,
    keyRead: bool,        // the peer's key message is accepted
    writePlain: Status,   // handing plaintext to the TLS object
    cipherOut: Status)    // reading ciphertext to be sent

  const IDLE: Turn := Turn(0, false, false, false, Nothing, Nothing, false, false, false, false, Nothing, Nothing)

  datatype Next = Continue | Break | Error

  /** The key moved on, not back, and nothing else about it changed but its times. */
  predicate Advanced(o: Options, a: KeyState, b: KeyState) {
    && Rank(o, a.state) <= Rank(o, b.state) && a.history <= b.history
    && b == a.(state := b.state, mustNegotiate := b.mustNegotiate, established := b.established, history := b.history)
  }

  /** The state after acknowledgements came in. */
  function Acknowledged(o: Options, s: State, fullSync: bool): State {
    if fullSync && s == S_PRE_START then S_START else if fullSync && Rank(o, s) == 5 then S_ACTIVE else s
  }

  /** Negotiation has taken too long. A key without a buffer for its first packet has no deadline yet and counts as late;
      only the arbitrary environment of this model withholds that buffer, a fresh reliability list has one. */
  predicate TimedOut(o: Options, k: KeyState, t: Turn) {
    k.state < S_ACTIVE && if k.state == S_INITIAL then !t.outputBuf || o.handshakeWindow == 0 else k.mustNegotiate <= t.now
  }

  /** The deadline is set with the first packet and dropped when normal operation begins. */
  function Deadline(o: Options, k: KeyState, t: Turn): nat {
    if k.state == S_INITIAL then t.now + o.handshakeWindow
    else if k.state >= S_ACTIVE && k.mustNegotiate <= t.now then 0
    else k.mustNegotiate
  }

  /** It is our turn to send a key, or the peer's key is awaited and has arrived. */
  predicate SendsKey(o: Options, k: KeyState, t: Turn) {
    t.writeBufEmpty && k.state == if o.server then S_GOT_KEY else S_START
  }

  predicate ReceivesKey(o: Options, k: KeyState, t: Turn) {
    t.readBufFull && if o.server then k.state == S_START else k.state == S_SENT_KEY || SendsKey(o, k, t)
  }

  /** The key after its first packet, the deadline and the acknowledgements. */
  function Greeted(o: Options, k: KeyState, t: Turn): KeyState {
    var s := if k.state < S_ACTIVE then Acknowledged(o, if k.state == S_INITIAL then S_PRE_START else k.state, t.fullSync)
      else if k.mustNegotiate <= t.now then S_NORMAL_OP else k.state;
    k.(state := s, mustNegotiate := Deadline(o, k, t), established := if k.state < S_ACTIVE <= s then t.now else k.established)
  }

  /** The key after its messages were sent and received. */
  function Exchanged(o: Options, k: KeyState, t: Turn): KeyState {
    k.(state := if ReceivesKey(o, k, t) then S_GOT_KEY else if SendsKey(o, k, t) then S_SENT_KEY else k.state,
       history := k.history + (if SendsKey(o, k, t) then [Wrote] else []) + (if ReceivesKey(o, k, t) then [Got] else []))
  }

  predicate KeysFail(o: Options, k: KeyState, t: Turn) {
    (SendsKey(o, k, t) && !t.keyWritten) || (ReceivesKey(o, k, t) && !t.keyRead)
  }

  /** The part of a turn up to sending: initial packet, time-out, acknowledgements. */
  method HandshakeSteps(o: Options, key: KeyState, t: Turn) returns (ks: KeyState, change: bool, next: Next)
    requires LiveKey(o, key) && t.now > 0
    ensures next == if TimedOut(o, key, t) then Error else Continue
    ensures next.Continue? ==> LiveKey(o, ks) && Advanced(o, key, ks) && ks.state != S_INITIAL
    ensures next.Continue? && key.state < S_ACTIVE ==>
      ks.state == Acknowledged(o, if key.state == S_INITIAL then S_PRE_START else key.state, t.fullSync)
    ensures next.Continue? ==> ks.established == if key.state < S_ACTIVE <= ks.state then t.now else key.established
    ensures next.Continue? ==> ks.mustNegotiate == Deadline(o, key, t)
    ensures key.state >= S_ACTIVE ==> ks.state == if key.mustNegotiate <= t.now then S_NORMAL_OP else key.state
    ensures next.Continue? ==> (change <==> key.state < S_ACTIVE && ks.state != key.state)
    ensures next.Continue? && ks.state < S_ACTIVE ==> t.now < ks.mustNegotiate
    ensures next.Continue? && key.state >= S_ACTIVE ==> ks.state >= S_ACTIVE
    ensures next.Continue? ==> ks == Greeted(o, key, t)
  {
    ks, change, next := key, false, Continue;
    if ks.state == S_INITIAL && t.outputBuf {
      ks := ks.(mustNegotiate := t.now + o.handshakeWindow, state := S_PRE_START);
      change := true;
    }
    if t.now >= ks.mustNegotiate {
      if ks.state < S_ACTIVE {
        next := Error;
        return;
      }
      ks := ks.(state := S_NORMAL_OP, mustNegotiate := 0);
    }
    if ks.state == S_PRE_START && t.fullSync {
      ks := ks.(state := S_START);
      change := true;
    }
    if ((ks.state == S_GOT_KEY && !o.server) || (ks.state == S_SENT_KEY && o.server)) && t.fullSync {
      ks := ks.(established := t.now, state := S_ACTIVE);
      change := true;
    }
  }

  /** Sending and receiving key messages. */
  method KeySteps(o: Options, key: KeyState, t: Turn) returns (ks: KeyState, change: bool, next: Next)
    requires LiveKey(o, key) && key.state != S_INITIAL
    ensures next == if KeysFail(o, key, t) then Error else Continue
    ensures next.Continue? ==> ks == Exchanged(o, key, t)
    ensures next.Continue? ==>
      ks.history == key.history + (if SendsKey(o, key, t) then [Wrote] else []) + (if ReceivesKey(o, key, t) then [Got] else [])
    ensures next.Continue? ==>
      LiveKey(o, ks) && Advanced(o, key, ks) && ks.mustNegotiate == key.mustNegotiate && ks.established == key.established
    ensures next.Continue? && (ks.state >= S_ACTIVE || !change) ==> ks == key
    ensures next.Continue? ==>
      (change <==> ks.state != key.state) && (ks.state < S_ACTIVE <==> key.state < S_ACTIVE) && ks.state != S_INITIAL
  {
    ks, change, next := key, false, Continue;
    if t.writeBufEmpty && ((ks.state == S_START && !o.server) || (ks.state == S_GOT_KEY && o.server)) {
      if !t.keyWritten {
        next := Error;
        return;
      }
      ks := ks.(state := S_SENT_KEY, history := ks.history + [Wrote]);
      change := true;
    }
    if t.readBufFull && ((ks.state == S_SENT_KEY && !o.server) || (ks.state == S_START && o.server)) {
      if !t.keyRead {
        next := Error;
        return;
      }
      ks := ks.(state := S_GOT_KEY, history := ks.history + [Got]);
      change := true;
    }
  }

  /** Ciphertext for the peer is taken once the handshake has begun and there is a buffer for it. */
  predicate SendsCipher(k: KeyState, t: Turn) { k.state >= S_START && t.outputBuf }

  /** The environment takes or gives something. */
  predicate MovesData(k: KeyState, t: Turn) {
    t.incoming.Done? || t.readPlain.Done? || t.writePlain.Done? || (SendsCipher(k, t) && t.cipherOut.Done?)
  }

  /** A turn fails when negotiation is late, or when, short of sending a packet, the TLS object or a key message fails. */
  predicate TurnFails(o: Options, k: KeyState, t: Turn) {
    TimedOut(o, k, t) ||
    (!t.sending &&
     (t.incoming.Failed? || t.readPlain.Failed? || KeysFail(o, Greeted(o, k, t), t) || t.writePlain.Failed? ||
      (SendsCipher(AfterTurn(o, k, t), t) && t.cipherOut.Failed?)))
  }

  /** The key after a turn; one that sends a packet ends there, and exchanges no key. */
  function AfterTurn(o: Options, k: KeyState, t: Turn): KeyState {
    if t.sending then Greeted(o, k, t) else Exchanged(o, Greeted(o, k, t), t)
  }

  /** There is another turn: a key that is not active has moved, or data has. */
  predicate Repeats(o: Options, k: KeyState, t: Turn) {
    !t.sending && ((k.state < S_ACTIVE && AfterTurn(o, k, t).state != k.state) || MovesData(AfterTurn(o, k, t), t))
  }

  /** The key that the turns of one call make of `k`, or none if one of them fails. After the last turn nothing happens. */
  function Negotiated(o: Options, k: KeyState, turns: seq<Turn>, now: nat): Option<KeyState>
    decreases |turns|
  {
    var t := if turns == [] then IDLE.(now := now) else turns[0];
    if TurnFails(o, k, t) then None
    else if turns != [] && Repeats(o, k, t) then Negotiated(o, AfterTurn(o, k, t), turns[1..], t.now)
    else Some(AfterTurn(o, k, t))
  }

  lemma AdvancedTransitive(o: Options, a: KeyState, b: KeyState, c: KeyState)
    requires Advanced(o, a, b) && Advanced(o, b, c)
    ensures Advanced(o, a, c) && (a.state == c.state ==> b.state == a.state)
  {
  }

  /** A turn that does not fail keeps the key well formed and moves it forward. */
  lemma TurnAdvances(o: Options, k: KeyState, t: Turn)
    requires LiveKey(o, k) && t.now > 0 && !TurnFails(o, k, t)
    ensures LiveKey(o, AfterTurn(o, k, t)) && Advanced(o, k, AfterTurn(o, k, t)) && AfterTurn(o, k, t).state > S_INITIAL
    ensures AfterTurn(o, k, t).state < S_ACTIVE ==> t.now < AfterTurn(o, k, t).mustNegotiate
  {
    hide Pow2;
  }

  lemma {:induction false} NegotiatedAdvances(o: Options, k: KeyState, turns: seq<Turn>, now: nat)
    requires LiveKey(o, k) && now > 0 && forall t :: t in turns ==> t.now > 0
    ensures var r := Negotiated(o, k, turns, now); r.Some? ==>
      LiveKey(o, r.value) && Advanced(o, k, r.value) && r.value.state > S_INITIAL
    decreases |turns|
  {
    hide LiveKey, Advanced, TurnFails, Repeats, AfterTurn;
    var t := if turns == [] then IDLE.(now := now) else turns[0];
    if !TurnFails(o, k, t) {
      TurnAdvances(o, k, t);
      if turns != [] && Repeats(o, k, t) {
        NegotiatedAdvances(o, AfterTurn(o, k, t), turns[1..], t.now);
        var r := Negotiated(o, AfterTurn(o, k, t), turns[1..], t.now);
        if r.Some? {
          AdvancedTransitive(o, k, AfterTurn(o, k, t), r.value);
        }
      }
    }
  }

  /** One turn of the loop. */
  method OneTurn(o: Options, key: KeyState, t: Turn) returns (ks: KeyState, change: bool, next: Next)
    requires LiveKey(o, key) && t.now > 0
    ensures next.Error? <==> TurnFails(o, key, t)
    ensures next.Break? <==> !TurnFails(o, key, t) && t.sending
    ensures !next.Error? ==> ks == AfterTurn(o, key, t)
    ensures next.Continue? ==> (change <==> Repeats(o, key, t))
    ensures !next.Error? ==> LiveKey(o, ks) && Advanced(o, key, ks) && (ks.state < S_ACTIVE ==> t.now < ks.mustNegotiate)
  {
    hide LiveKey, Exchanges, Acknowledged, Pow2, Advanced, Rank, SendsKey, ReceivesKey, Deadline, Greeted, Exchanged;
    ks, change, next := HandshakeSteps(o, key, t);
    if next.Error? { return; }
    if t.sending { return ks, true, Break; }
    if t.incoming.Failed? { return ks, change, Error; }
    if t.incoming.Done? { change := true; }
    if t.readPlain.Failed? { return ks, change, Error; }
    if t.readPlain.Done? { change := true; }
    var keyChange;
    ghost var greeted := ks;
    ks, keyChange, next := KeySteps(o, ks, t);
    if next.Error? { return; }
    AdvancedTransitive(o, key, greeted, ks);
    change := change || keyChange;
    if t.writePlain.Failed? { return ks, change, Error; }
    if t.writePlain.Done? { change := true; }
    if ks.state >= S_START && t.outputBuf {
      if t.cipherOut.Failed? { return ks, change, Error; }
      if t.cipherOut.Done? { change := true; }
    }
  }

  /** One call of tls_process: the time and traffic counters at entry, and the turns until the environment is idle. */
  datatype Visit = Visit(now: nat, bytes: int, packets: nat, closeToWrap: bool, turns: seq<Turn>)

  predicate VisitOk(v: Visit) { v.now > 0 && forall i :: 0 <= i < |v.turns| ==> v.turns[i].now > 0 }

  /** Should a new key be negotiated? */
  predicate WantsRenewal(o: Options, k: KeyState, v: Visit) {
    && k.state >= S_ACTIVE
    && ((o.renegotiateSeconds != 0 && v.now >= k.established + o.renegotiateSeconds)
        || (o.renegotiateBytes > 0 && v.bytes >= o.renegotiateBytes)
        || (o.renegotiatePackets != 0 && v.packets >= o.renegotiatePackets)
        || v.closeToWrap)
  }

  /** The session as the loop of tls_process finds it. */
  function AtEntry(o: Options, s: Session, v: Visit): Session {
    var r := if WantsRenewal(o, s.primary, v) then Renewed(o, s, v.now) else s;
    if r.lame.state >= S_INITIAL && r.lame.mustDie <= v.now then r.(lame := CLEAR_KEY) else r
  }

  lemma AtEntryIsLive(o: Options, s: Session, v: Visit)
    requires OptionsOk(o) && LiveSession(o, s) && v.now > 0
    ensures LiveSession(o, AtEntry(o, s, v))
  {
    if WantsRenewal(o, s.primary, v) {
      RenewedIsLive(o, s, v.now);
    }
  }

  /** The key is renewed exactly when it is active and time, bytes, packets or packet ids run out; its successor keeps the
      peer, and it retires for the transition window. Otherwise nothing goes but a retiring key that has expired. */
  lemma AtEntryRenews(o: Options, s: Session, v: Visit)
    requires OptionsOk(o) && LiveSession(o, s) && v.now > 0
    ensures var r, k := AtEntry(o, s, v), s.primary;
      var due := k.state >= S_ACTIVE &&
        ((o.renegotiateSeconds != 0 && v.now >= k.established + o.renegotiateSeconds) || v.closeToWrap ||
         (o.renegotiateBytes > 0 && v.bytes >= o.renegotiateBytes) || (o.renegotiatePackets != 0 && v.packets >= o.renegotiatePackets));
      && (due <==> r.primary.keyId != k.keyId)
      && (due ==> r.primary.state == S_INITIAL && r.primary.initialOpcode == SoftReset)
      && (due ==> r.primary.sessionIdRemote == k.sessionIdRemote && r.primary.remoteAddr == k.remoteAddr)
      && (due ==> r.lame == if o.transitionWindow == 0 then CLEAR_KEY else k.(mustDie := v.now + o.transitionWindow))
      && (!due ==> r.primary == k)
      && (!due ==> r.lame == if s.lame.state != S_UNDEF && s.lame.mustDie <= v.now then CLEAR_KEY else s.lame)
  {
    hide Pow2;
    NextKeyIdDiffers(o, s.primary.keyId);
  }

  /** The start of tls_process: renew the key if it is time, and drop a retiring key that has expired. */
  method PrepareSession(o: Options, session: Session, v: Visit) returns (s: Session)
    requires OptionsOk(o) && LiveSession(o, session) && VisitOk(v)
    ensures s == AtEntry(o, session, v) && LiveSession(o, s)
  {
    hide Pow2, LiveKey, NextKeyId, Rank, Exchanges;
    AtEntryIsLive(o, session, v);
    s := session;
    if s.primary.state >= S_ACTIVE
       && ((o.renegotiateSeconds != 0 && v.now >= s.primary.established + o.renegotiateSeconds)
           || (o.renegotiateBytes > 0 && v.bytes >= o.renegotiateBytes)
           || (o.renegotiatePackets != 0 && v.packets >= o.renegotiatePackets)
           || v.closeToWrap) {
      s := KeyStateSoftReset(o, s, v.now);
    }
    var die := LameDuckMustDie(o, s.lame, v.now);
    if die {
      s := s.(lame := CLEAR_KEY);
    }
  }

  lemma LiveSessionKey(o: Options, s: Session)
    requires LiveSession(o, s)
    ensures LiveKey(o, s.primary)
  {
  }

  /** A session stays in use while its primary key moves on. */
  lemma AdvancedIsLive(o: Options, s: Session, ks: KeyState)
    requires LiveSession(o, s) && Advanced(o, s.primary, ks) && LiveKey(o, ks)
    ensures LiveSession(o, s.(primary := ks))
  {
  }

  lemma NothingRepeats(o: Options, k: KeyState, now: nat)
    requires LiveKey(o, k) && !TurnFails(o, k, IDLE.(now := now))
    ensures !Repeats(o, k, IDLE.(now := now))
  {
  }

  lemma NoMoreTurns(o: Options, k: KeyState, t: Turn)
    requires t.sending
    ensures !Repeats(o, k, t)
  {
  }

  /** tls_process: the turns make of the key what Negotiated says, and put it into S_ERROR exactly if one of them fails. */
  method TlsProcess(o: Options, session: Session, v: Visit) returns (s: Session, now: nat)
    requires OptionsOk(o) && LiveSession(o, session) && VisitOk(v)
    ensures now > 0 && s == AtEntry(o, session, v).(primary := s.primary)
    ensures match Negotiated(o, AtEntry(o, session, v).primary, v.turns, v.now)
      case None => s.primary.state == S_ERROR
      case Some(k) =>
        && s.primary == k && LiveSession(o, s) && Advanced(o, AtEntry(o, session, v).primary, k)
        && k.state > S_INITIAL && (k.state < S_ACTIVE ==> now < k.mustNegotiate)
  {
    hide Pow2, LiveKey, RetiringKey, NextKeyId, AtEntry, LiveSession, Advanced, TurnFails, Repeats, AfterTurn;
    s := PrepareSession(o, session, v);
    now := v.now;
    ghost var s0 := s;
    LiveSessionKey(o, s);
    NegotiatedAdvances(o, s0.primary, v.turns, v.now);
    var n := 0;
    var change := true;
    while change
      invariant now > 0 && s == s0.(primary := s.primary) && LiveKey(o, s.primary)
      invariant change ==> n <= |v.turns|
      invariant change ==> Negotiated(o, s.primary, v.turns[n..], now) == Negotiated(o, s0.primary, v.turns, v.now)
      invariant !change ==> Negotiated(o, s0.primary, v.turns, v.now) == Some(s.primary)
      invariant !change && s.primary.state < S_ACTIVE ==> now < s.primary.mustNegotiate
      decreases if change then |v.turns| + 1 - n else 0
    {
      var t := IDLE.(now := now);
      if n < |v.turns| {
        t := v.turns[n];
        assert v.turns[n..][1..] == v.turns[n + 1..];
      }
      var ks, next;
      ks, change, next := OneTurn(o, s.primary, t);
      if next.Error? {
        s := s.(primary := ks.(state := S_ERROR));
        return;
      }
      if n == |v.turns| { NothingRepeats(o, s.primary, now); }
      if next.Break? { NoMoreTurns(o, s.primary, t); }
      s, now := s.(primary := ks), t.now;
      if next.Break? { break; }
      n := n + 1;
    }
    AdvancedIsLive(o, s0, s.primary);
  }

  // ----- progress

  /** Nothing that the environment does in this turn goes wrong. */
  predicate Succeeding(t: Turn) {
    !t.incoming.Failed? && !t.readPlain.Failed? && !t.writePlain.Failed? && !t.cipherOut.Failed? && t.keyWritten && t.keyRead
  }

  /** What a key in this state waits for arrives: a buffer for its first packet, acknowledgements, room for its message or
      the peer's message, the server waiting for the client's first. */
  predicate Awaited(o: Options, s: State, t: Turn) {
    if s == S_INITIAL then t.outputBuf && o.handshakeWindow > 0
    else if s == S_PRE_START then t.fullSync
    else if s == S_START then !t.sending && if o.server then t.readBufFull else t.writeBufEmpty
    else if s == S_SENT_KEY then if o.server then t.fullSync else !t.sending && t.readBufFull
    else s == S_GOT_KEY && if o.server then !t.sending && t.writeBufEmpty else t.fullSync
  }

  /** Every turn that brings in time what the key waits for takes it at least one step up. */
  lemma AwaitedMovesUp(o: Options, k: KeyState, t: Turn)
    requires LiveKey(o, k) && k.state < S_ACTIVE && Succeeding(t) && Awaited(o, k.state, t)
    requires k.state != S_INITIAL ==> t.now < k.mustNegotiate
    ensures !TurnFails(o, k, t) && Rank(o, k.state) < Rank(o, AfterTurn(o, k, t).state)
  {
    hide Pow2;
  }

  /** The environment holds nothing back in this turn. */
  predicate Cooperates(t: Turn) {
    Succeeding(t) && t.outputBuf && t.fullSync && !t.sending && t.writeBufEmpty && t.readBufFull
  }

  lemma {:induction false} StaysActive(o: Options, k: KeyState, turns: seq<Turn>, now: nat)
    requires k.state >= S_ACTIVE && forall t :: t in turns ==> Cooperates(t)
    ensures var r := Negotiated(o, k, turns, now); r.Some? && r.value.state >= S_ACTIVE && r.value.history == k.history
    decreases |turns|
  {
    assert turns != [] ==> turns[0] in turns;
    if turns != [] && Repeats(o, k, turns[0]) {
      StaysActive(o, AfterTurn(o, k, turns[0]), turns[1..], turns[0].now);
    }
  }

  lemma FirstTurn(o: Options, k: KeyState, t: Turn)
    requires LiveKey(o, k) && k.state == S_INITIAL && t.now > 0 && o.handshakeWindow > 0 && Cooperates(t)
    ensures !TurnFails(o, k, t) && Repeats(o, k, t)
    ensures var a := AfterTurn(o, k, t);
      a.state == S_GOT_KEY && a.mustNegotiate == t.now + o.handshakeWindow && a.history == if o.server then [Got] else [Wrote, Got]
  {
    hide Pow2;
  }

  lemma SecondTurn(o: Options, k: KeyState, t: Turn)
    requires k.state == S_GOT_KEY && t.now < k.mustNegotiate && Cooperates(t)
    ensures !TurnFails(o, k, t) && Repeats(o, k, t)
    ensures var a := AfterTurn(o, k, t);
      a == k.(state := a.state, established := a.established, history := k.history + if o.server then [Wrote] else [])
      && a.state == if o.server then S_SENT_KEY else S_ACTIVE
  {
  }

  lemma ThirdTurn(o: Options, k: KeyState, t: Turn)
    requires o.server && k.state == S_SENT_KEY && t.now < k.mustNegotiate && Cooperates(t)
    ensures !TurnFails(o, k, t) && Repeats(o, k, t)
    ensures AfterTurn(o, k, t).state == S_ACTIVE && AfterTurn(o, k, t).history == k.history
  {
  }

  /** Three turns that hold nothing back take a new key all the way, on either side, each message in the order of the role. */
  lemma Completes(o: Options, k: KeyState, turns: seq<Turn>, now: nat)
    requires LiveKey(o, k) && k.state == S_INITIAL && |turns| >= 3 && turns[0].now > 0
    requires forall t :: t in turns ==> Cooperates(t) && t.now < turns[0].now + o.handshakeWindow
    ensures var r := Negotiated(o, k, turns, now);
      r.Some? && r.value.state >= S_ACTIVE && r.value.history == if o.server then [Got, Wrote] else [Wrote, Got]
  {
    hide Pow2;
    assert turns[0] in turns && turns[1] in turns && turns[2] in turns;
    var a := AfterTurn(o, k, turns[0]);
    var b := AfterTurn(o, a, turns[1]);
    var c := AfterTurn(o, b, turns[2]);
    FirstTurn(o, k, turns[0]);
    hide TurnFails, Repeats, AfterTurn, LiveKey;
    assert turns[1..][0] == turns[1] && turns[1..][1..] == turns[2..] && turns[2..][0] == turns[2] && turns[2..][1..] == turns[3..];
    if o.server {
      SecondTurn(o, a, turns[1]);
      ThirdTurn(o, b, turns[2]);
      StaysActive(o, c, turns[3..], turns[2].now);
    } else {
      SecondTurn(o, a, turns[1]);
      StaysActive(o, b, turns[2..], turns[1].now);
    }
  }

  /** With an environment that holds nothing back a client's key and a server's come all the way in one call. */
  method Negotiate(o: Options, session: Session, v: Visit) returns (s: Session)
    requires OptionsOk(o) && LiveSession(o, session) && session.primary.state == S_INITIAL && VisitOk(v) && |v.turns| >= 3
    requires forall i :: 0 <= i < |v.turns| ==> Cooperates(v.turns[i]) && v.turns[i].now < v.turns[0].now + o.handshakeWindow
    ensures LiveSession(o, s) && s.primary.state >= S_ACTIVE && s.primary.keyId == session.primary.keyId
    ensures s.primary.history == if o.server then [Got, Wrote] else [Wrote, Got]
  {
    hide Negotiated, LiveSession, RetiringKey, Pow2, Cooperates;
    var now;
    LiveSessionKey(o, session);
    Completes(o, session.primary, v.turns, v.now);
    s, now := TlsProcess(o, session, v);
  }

  // ----- the sessions of one peer

  /** A control packet as it was received; a session id of 0 stands for a missing one. */
  datatype Packet = Packet(op: Opcode, keyId: nat, sid: nat, from: nat, authentic: bool, wellFormed: bool, now: nat)

  predicate PacketOk(p: Packet) { p.from != 0 && p.now > 0 }

  /** The session a control packet belongs to: the one in use with its session id and address, or for a hard reset the
      active one if it has no peer yet, or else the untrusted one. */
  function Receiver(o: Options, ss: seq<Session>, nSessions: nat, p: Packet): (i: int)
    requires |ss| == TM_SIZE
    ensures i == -1 || i == TM_ACTIVE || i == TM_UNTRUSTED
  {
    if p.op.Unknown? || p.sid == 0 || !p.authentic || (p.op.HardReset? && p.op.client != o.server) then -1
    else if ss[TM_ACTIVE].primary.sessionIdRemote == p.sid then
      if ss[TM_ACTIVE].primary.remoteAddr == p.from then TM_ACTIVE else -1
    else if ss[TM_UNTRUSTED].primary.sessionIdRemote == p.sid then
      if ss[TM_UNTRUSTED].primary.remoteAddr == p.from then TM_UNTRUSTED else -1
    else if ss[TM_LAME_DUCK].primary.sessionIdRemote == p.sid || !IsHardReset(p.op, o.keyMethod) then -1
    else if ss[TM_ACTIVE].primary.sessionIdRemote == 0 then
      if o.singleSession && nSessions > 0 then -1 else TM_ACTIVE
    else if o.singleSession then -1 else TM_UNTRUSTED
  }

  /** Only authentic packets reach a session. Once the active session has a peer, only that peer's session id and address
      reach it; the untrusted one is reached by its peer, or by a first packet once the active one has a peer. */
  lemma StrangersCannotReachActive(o: Options, ss: seq<Session>, nSessions: nat, p: Packet)
    requires |ss| == TM_SIZE
    ensures Receiver(o, ss, nSessions, p) != -1 ==> p.authentic && p.sid != 0
    ensures Receiver(o, ss, nSessions, p) == TM_ACTIVE && ss[TM_ACTIVE].primary.sessionIdRemote != 0 ==>
      p.sid == ss[TM_ACTIVE].primary.sessionIdRemote && p.from == ss[TM_ACTIVE].primary.remoteAddr
    ensures Receiver(o, ss, nSessions, p) == TM_UNTRUSTED ==> p.sid != ss[TM_ACTIVE].primary.sessionIdRemote
    ensures Receiver(o, ss, nSessions, p) == TM_UNTRUSTED && p.sid == ss[TM_UNTRUSTED].primary.sessionIdRemote ==>
      p.from == ss[TM_UNTRUSTED].primary.remoteAddr
    ensures Receiver(o, ss, nSessions, p) == TM_UNTRUSTED && p.sid != ss[TM_UNTRUSTED].primary.sessionIdRemote ==>
      p.op.HardReset? && p.op.client == o.server && ss[TM_ACTIVE].primary.sessionIdRemote != 0 && !o.singleSession
  {
  }

  /** The first packet that a peer of the other role sends reaches a session without a peer; a reset of another version
      of the protocol, or of our own role, reaches none. */
  lemma FirstPacketOpens(o: Options, ss: seq<Session>, nSessions: nat, p: Packet)
    requires OptionsOk(o) && |ss| == TM_SIZE && p.authentic && p.sid != 0 && p.op.HardReset?
    requires forall i :: 0 <= i < TM_SIZE ==> ss[i].primary.sessionIdRemote != p.sid
    ensures p.op == HardReset(o.server, if o.keyMethod == 1 then 1 else 2) ==>
      Receiver(o, ss, nSessions, p) == if ss[TM_ACTIVE].primary.sessionIdRemote != 0
        then if o.singleSession then -1 else TM_UNTRUSTED
        else if o.singleSession && nSessions > 0 then -1 else TM_ACTIVE
    ensures p.op != HardReset(o.server, if o.keyMethod == 1 then 1 else 2) ==> Receiver(o, ss, nSessions, p) == -1
  {
    assert ss[TM_ACTIVE].primary.sessionIdRemote != p.sid && ss[TM_UNTRUSTED].primary.sessionIdRemote != p.sid;
    assert ss[TM_LAME_DUCK].primary.sessionIdRemote != p.sid;
  }

  /** The peer asks for a new key, and the present one can decrypt. */
  predicate AsksForRenewal(o: Options, a: Session, p: Packet) { p.op.SoftReset? && a.primary.state >= DecryptThreshold(o) }

  /** What a received packet does to the session it belongs to: it may renew the key, and a first packet names the peer.
      A first packet to the active session and an answer to our own renewal ask once for a quick retransmission. */
  predicate ReceivedBy(o: Options, a: Session, p: Packet, i: nat, first: bool, b: Session) {
    var m := if AsksForRenewal(o, a, p) then Renewed(o, a, p.now) else a;
    && b == m.(primary := m.primary.(sessionIdRemote := p.sid, remoteAddr := p.from), burst := b.burst,
               untrustedAddr := if first then p.from else a.untrustedAddr)
    && (b.burst <==> a.burst || (first && i == TM_ACTIVE) || (p.op.SoftReset? && !AsksForRenewal(o, a, p)))
  }

  /** The packet is the first from its peer. */
  predicate OpensSession(ss: seq<Session>, p: Packet)
    requires |ss| == TM_SIZE
  {
    p.sid != ss[TM_ACTIVE].primary.sessionIdRemote && p.sid != ss[TM_UNTRUSTED].primary.sessionIdRemote
  }

  /** A packet that is not authentic would have opened the active session, which notes its address before it knows. */
  predicate NotesAddress(o: Options, ss: seq<Session>, nSessions: nat, p: Packet)
    requires |ss| == TM_SIZE
  {
    !p.authentic && OpensSession(ss, p) && Receiver(o, ss, nSessions, p.(authentic := true)) == TM_ACTIVE
  }

  /** What a received packet makes of the sessions: only its receiver is touched. */
  predicate Delivered(o: Options, ss: seq<Session>, nSessions: nat, p: Packet, tt: seq<Session>, nAfter: nat)
    requires |ss| == |tt| == TM_SIZE
  {
    var i := Receiver(o, ss, nSessions, p);
    && (forall j :: 0 <= j < TM_SIZE && j != i ==>
          tt[j] == if j == TM_ACTIVE && NotesAddress(o, ss, nSessions, p) then ss[j].(untrustedAddr := p.from) else ss[j])
    && (i != -1 ==> ReceivedBy(o, ss[i], p, i, OpensSession(ss, p), tt[i]))
    && nAfter == nSessions + if i != -1 && OpensSession(ss, p) then 1 else 0
  }

  /** The active session learns its address from the link before its first packet. */
  function WithAddress(i: nat, s: Session, linkAddr: nat): Session {
    if i == TM_ACTIVE && s.primary.state == S_INITIAL && linkAddr != 0
      then s.(primary := s.primary.(remoteAddr := linkAddr)) else s
  }

  lemma AddressedIsLive(o: Options, i: nat, s: Session, linkAddr: nat, v: Visit)
    requires OptionsOk(o) && VisitOk(v) && i < TM_SIZE
    ensures LiveSession(o, s) ==> LiveSession(o, WithAddress(i, s, linkAddr)) && LiveSession(o, AtEntry(o, WithAddress(i, s, linkAddr), v))
  {
    if LiveSession(o, s) {
      AtEntryIsLive(o, WithAddress(i, s, linkAddr), v);
    }
  }

  /** What a visit makes of a session: one in use that has a peer address is handled, and then fails and starts afresh,
      or goes on with the key that the turns have made of the one at entry. */
  predicate Visited(o: Options, i: nat, a: Session, v: Visit, linkAddr: nat, handled: bool, failed: bool, b: Session) {
    var s := WithAddress(i, a, linkAddr);
    && (handled <==> s.primary.state >= S_INITIAL && s.primary.remoteAddr != 0)
    && var r := Negotiated(o, AtEntry(o, s, v).primary, v.turns, v.now);
    && (failed <==> handled && r.None?)
    && if failed then Restarted(o, b) else if !handled then b == s else b == AtEntry(o, s, v).(primary := r.value)
  }

  /** What is left at entry of the active session's retiring key. */
  function Survivor(o: Options, ss: seq<Session>, v: Visit, linkAddr: nat): KeyState
    requires |ss| == TM_SIZE
  {
    AtEntry(o, WithAddress(TM_ACTIVE, ss[TM_ACTIVE], linkAddr), v).lame
  }

  /** What a call of tls_multi_process makes of the lame duck session: the failed active session takes its place if its
      retiring key is still active, and otherwise it stays; either way it goes when its key has expired. */
  predicate LameDuckAfter(o: Options, ss: seq<Session>, visits: seq<Visit>, linkAddr: nat, later: nat, failed: set<nat>, l: Session)
    requires |ss| == |visits| == TM_SIZE
  {
    var k := Survivor(o, ss, visits[TM_ACTIVE], linkAddr);
    if TM_ACTIVE in failed && !o.singleSession && k.state >= S_ACTIVE then
      if k.mustDie <= later then l == CLEAR_SESSION else l.lame == k && l.primary.state == S_ERROR
    else if ss[TM_LAME_DUCK].lame.state >= S_INITIAL && ss[TM_LAME_DUCK].lame.mustDie <= later then l == CLEAR_SESSION
    else l == ss[TM_LAME_DUCK]
  }

  /** What a call of tls_multi_process makes of the sessions. A promoted session takes the place
      of the active one as its visit left it. */
  predicate Processed(o: Options, ss: seq<Session>, visits: seq<Visit>, linkAddr: nat, later: nat,
      handled: set<nat>, failed: set<nat>, promoted: bool, tt: seq<Session>)
    requires |ss| == |tt| == |visits| == TM_SIZE
  {
    var stays := if promoted then TM_ACTIVE else TM_UNTRUSTED;
    && Visited(o, TM_UNTRUSTED, ss[TM_UNTRUSTED], visits[TM_UNTRUSTED], linkAddr,
               TM_UNTRUSTED in handled, TM_UNTRUSTED in failed, tt[stays])
    && LameDuckAfter(o, ss, visits, linkAddr, later, failed, tt[TM_LAME_DUCK])
    && (promoted <==> tt[stays].primary.state >= DecryptThreshold(o))
    && if promoted then Restarted(o, tt[TM_UNTRUSTED])
       else Visited(o, TM_ACTIVE, ss[TM_ACTIVE], visits[TM_ACTIVE], linkAddr, TM_ACTIVE in handled, TM_ACTIVE in failed, tt[TM_ACTIVE])
  }

  class TlsMulti {
    const opt: Options
    var session: seq<Session>
    var nSessions: nat
    var nSoftErrors: nat
    var nHardErrors: nat

    ghost predicate Valid()
      reads this
    {
      SessionsOk(opt, session)
    }

    /** tls_multi_init and tls_multi_init_finalize */
    constructor (opt: Options)
      requires OptionsOk(opt)
      ensures Valid() && this.opt == opt && nSessions == nSoftErrors == nHardErrors == 0
    {
      this.opt := opt;
      session := [CLEAR_SESSION, CLEAR_SESSION, CLEAR_SESSION];
      nSessions, nSoftErrors, nHardErrors := 0, 0, 0;
      new;
      var s := SessionInit(opt);
      session := session[TM_ACTIVE := s];
      if !opt.singleSession {
        s := SessionInit(opt);
        session := session[TM_UNTRUSTED := s];
      }
    }

    /** move_session with reinit_src */
    method MoveSession(dest: nat, src: nat)
      requires OptionsOk(opt) && |session| == TM_SIZE && src < TM_SIZE && dest < TM_SIZE && src != dest
      modifies this`session
      ensures |session| == TM_SIZE && session[dest] == old(session[src])
      ensures Restarted(opt, session[src])
      ensures forall i :: 0 <= i < TM_SIZE && i != src && i != dest ==> session[i] == old(session[i])
    {
      session := session[dest := session[src]];
      var s := SessionInit(opt);
      session := session[src := s];
    }

    method ResetSession(i: nat)
      requires OptionsOk(opt) && |session| == TM_SIZE && i < TM_SIZE
      modifies this`session
      ensures |session| == TM_SIZE && Restarted(opt, session[i])
      ensures forall j :: 0 <= j < TM_SIZE && j != i ==> session[j] == old(session[j])
    {
      var s := SessionInit(opt);
      session := session[i := s];
    }

    /** One round of the loop of tls_multi_process. A session whose key fails starts afresh; a retiring key that is still
        active survives in the lame duck session. */
    method VisitSession(i: nat, v: Visit, linkAddr: nat) returns (handled: bool, failed: bool)
      requires Valid() && i < TM_SIZE && VisitOk(v)
      modifies this`session, this`nSoftErrors
      ensures Valid() && nSoftErrors == old(nSoftErrors) + (if failed then 1 else 0)
      ensures (handled ==> i != TM_LAME_DUCK) && (failed ==> handled)
      ensures if i == TM_ACTIVE && failed && !opt.singleSession && Survivor(opt, old(session), v, linkAddr).state >= S_ACTIVE
        then session[TM_LAME_DUCK].lame == Survivor(opt, old(session), v, linkAddr) && session[TM_LAME_DUCK].primary.state == S_ERROR
        else session[TM_LAME_DUCK] == old(session[TM_LAME_DUCK])
      ensures |session| == TM_SIZE && Visited(opt, i, old(session[i]), v, linkAddr, handled, failed, session[i])
      ensures forall j :: 0 <= j < TM_SIZE && j != i && j != TM_LAME_DUCK ==> session[j] == old(session[j])
    {
      hide Negotiated, AtEntry, Pow2, LiveKey, RetiringKey, NextKeyId, Advanced;
      AddressedIsLive(opt, i, session[i], linkAddr, v);
      var s := session[i];
      if i == TM_ACTIVE && s.primary.state == S_INITIAL && linkAddr != 0 {
        s := s.(primary := s.primary.(remoteAddr := linkAddr));
      }
      session := session[i := s];
      assert s == WithAddress(i, old(session)[i], linkAddr);
      handled, failed := false, false;
      if s.primary.state >= S_INITIAL && s.primary.remoteAddr != 0 {
        handled := true;
        var now;
        s, now := TlsProcess(opt, s, v);
        session := session[i := s];
        if s.primary.state == S_ERROR {
          failed := true;
          nSoftErrors := nSoftErrors + 1;
          if i == TM_ACTIVE && s.lame.state >= S_ACTIVE && !opt.singleSession {
            MoveSession(TM_LAME_DUCK, TM_ACTIVE);
          } else {
            ResetSession(i);
          }
        }
      }
    }

    /** tls_multi_process: visits the sessions in use, drops an expired lame duck, promotes an untrusted session whose key
        can decrypt, and counts an error as hard if no active key is left. The lame duck session is never handled. */
    method TlsMultiProcess(visits: seq<Visit>, linkAddr: nat, later: nat)
        returns (handled: set<nat>, failed: set<nat>, promoted: bool)
      requires Valid() && |visits| == TM_SIZE && forall i :: 0 <= i < TM_SIZE ==> VisitOk(visits[i])
      modifies this
      ensures Valid() && failed <= handled && TM_LAME_DUCK !in handled && nSessions == old(nSessions)
      ensures nSoftErrors == old(nSoftErrors) + |failed|
      ensures nHardErrors == old(nHardErrors) + if TM_ACTIVE in failed && session[TM_ACTIVE].primary.state < S_ACTIVE &&
        session[TM_ACTIVE].lame.state < S_ACTIVE && session[TM_LAME_DUCK].lame.state < S_ACTIVE then 1 else 0
      ensures |session| == TM_SIZE && Processed(opt, old(session), visits, linkAddr, later, handled, failed, promoted, session)
      ensures session[TM_UNTRUSTED].primary.state < DecryptThreshold(opt)
      ensures session[TM_LAME_DUCK].lame.state >= S_INITIAL ==> later < session[TM_LAME_DUCK].lame.mustDie
      ensures var k, l := Survivor(opt, old(session), visits[TM_ACTIVE], linkAddr), old(session[TM_LAME_DUCK]);
        if TM_ACTIVE in failed && !opt.singleSession && k.state >= S_ACTIVE
        then if k.mustDie <= later then session[TM_LAME_DUCK] == CLEAR_SESSION
             else session[TM_LAME_DUCK].lame == k && session[TM_LAME_DUCK].primary.state == S_ERROR
        else session[TM_LAME_DUCK] == if l.lame.state >= S_INITIAL && l.lame.mustDie <= later then CLEAR_SESSION else l
    {
      hide LiveSession, RetiredSession, AtEntry, RetiringKey, Pow2, WithAddress, LiveKey, Advanced, Visited, Restarted;
      handled, failed := VisitSessions(visits, linkAddr);
      ExpireLameDuck(later);
      promoted := PromoteUntrusted();
      if TM_ACTIVE in failed && !SomeKeyActive(session) {
        nHardErrors := nHardErrors + 1;
      }
    }

    method VisitSessions(visits: seq<Visit>, linkAddr: nat) returns (handled: set<nat>, failed: set<nat>)
      requires Valid() && |visits| == TM_SIZE && forall i :: 0 <= i < TM_SIZE ==> VisitOk(visits[i])
      modifies this`session, this`nSoftErrors
      ensures Valid() && failed <= handled && TM_LAME_DUCK !in handled
      ensures nSoftErrors == old(nSoftErrors) + |failed|
      ensures var k := Survivor(opt, old(session), visits[TM_ACTIVE], linkAddr);
        if TM_ACTIVE in failed && !opt.singleSession && k.state >= S_ACTIVE
        then session[TM_LAME_DUCK].lame == k && session[TM_LAME_DUCK].primary.state == S_ERROR
        else session[TM_LAME_DUCK] == old(session[TM_LAME_DUCK])
      ensures forall i :: 0 <= i < TM_LAME_DUCK ==>
        Visited(opt, i, old(session)[i], visits[i], linkAddr, i in handled, i in failed, session[i])
    {
      hide LiveSession, RetiredSession, AtEntry, RetiringKey, Pow2, WithAddress, LiveKey, Advanced, Visited, Survivor;
      ghost var k := Survivor(opt, session, visits[TM_ACTIVE], linkAddr);
      handled, failed := {}, {};
      for i := 0 to TM_SIZE
        invariant Valid() && failed <= handled && (forall j :: j in handled ==> j < i) && TM_LAME_DUCK !in handled
        invariant nSoftErrors == old(nSoftErrors) + |failed|
        invariant i == 0 ==> session == old(session)
        invariant forall j :: i <= j < TM_LAME_DUCK ==> session[j] == old(session)[j]
        invariant forall j :: 0 <= j < i && j < TM_LAME_DUCK ==>
          Visited(opt, j, old(session)[j], visits[j], linkAddr, j in handled, j in failed, session[j])
        invariant if TM_ACTIVE in failed && !opt.singleSession && k.state >= S_ACTIVE
          then session[TM_LAME_DUCK].lame == k && session[TM_LAME_DUCK].primary.state == S_ERROR
          else session[TM_LAME_DUCK] == old(session[TM_LAME_DUCK])
      {
        var h, f := VisitSession(i, visits[i], linkAddr);
        if h { handled := handled + {i}; }
        if f { failed := failed + {i}; }
      }
    }

    /** The keys in key_scan. */
    static predicate SomeKeyActive(ss: seq<Session>)
      requires |ss| == TM_SIZE
    {
      ss[TM_ACTIVE].primary.state >= S_ACTIVE || ss[TM_ACTIVE].lame.state >= S_ACTIVE || ss[TM_LAME_DUCK].lame.state >= S_ACTIVE
    }

    method ExpireLameDuck(later: nat)
      requires Valid()
      modifies this`session
      ensures Valid()
      ensures session == old(session) || session == old(session)[TM_LAME_DUCK := CLEAR_SESSION]
      ensures var lame := old(session[TM_LAME_DUCK]).lame;
        session[TM_LAME_DUCK] == if lame.state >= S_INITIAL && lame.mustDie <= later then CLEAR_SESSION
          else old(session[TM_LAME_DUCK])
    {
      hide LiveKey;
      var die := LameDuckMustDie(opt, session[TM_LAME_DUCK].lame, later);
      if die {
        session := session[TM_LAME_DUCK := CLEAR_SESSION];
      }
    }

    method PromoteUntrusted() returns (promoted: bool)
      requires Valid()
      modifies this`session
      ensures Valid() && |session| == TM_SIZE && session[TM_LAME_DUCK] == old(session[TM_LAME_DUCK])
      ensures promoted <==> old(session[TM_UNTRUSTED]).primary.state >= DecryptThreshold(opt)
      ensures if promoted then session[TM_ACTIVE] == old(session[TM_UNTRUSTED]) &&
        Restarted(opt, session[TM_UNTRUSTED]) else session == old(session)
      ensures session[TM_UNTRUSTED].primary.state < DecryptThreshold(opt)
    {
      hide LiveKey;
      promoted := session[TM_UNTRUSTED].primary.state >= DecryptThreshold(opt);
      if promoted {
        MoveSession(TM_ACTIVE, TM_UNTRUSTED);
      }
    }

    /** The control packet half of tls_pre_decrypt: its assertions hold, and exactly the receiver is touched. */
    method TlsPreDecrypt(p: Packet) returns (ret: bool)
      requires Valid() && PacketOk(p)
      modifies this`session, this`nSessions, this`nSoftErrors
      ensures Valid()
      ensures |session| == TM_SIZE && ret == (Receiver(opt, old(session), old(nSessions), p) != -1)
      ensures Delivered(opt, old(session), old(nSessions), p, session, nSessions)
      ensures var i := Receiver(opt, old(session), old(nSessions), p);
        nSoftErrors == old(nSoftErrors) + (if i == -1 || session[i].primary.keyId != p.keyId || !p.wellFormed then 1 else 0)
    {
      hide LiveSession, RetiredSession, Pow2, NextKeyId, Renewed;
      var i, newLink := Route(p);
      if i == -1 || !p.authentic {
        nSoftErrors := nSoftErrors + 1;
        return false;
      }
      Accept(p, i, newLink);
      if session[i].primary.keyId != p.keyId || !p.wellFormed {
        nSoftErrors := nSoftErrors + 1;
      }
      ret := true;
    }

    /** Finds the session of a packet that is yet to be authenticated, or -1. */
    method Route(p: Packet) returns (i: int, newLink: bool)
      requires Valid() && PacketOk(p)
      modifies this`session
      ensures Valid() && |session| == TM_SIZE && (p.authentic ==> i == Receiver(opt, old(session), nSessions, p))
      ensures i == -1 || i == TM_ACTIVE || i == TM_UNTRUSTED
      ensures i != -1 ==> newLink == OpensSession(old(session), p) && LiveSession(opt, session[i])
      ensures i != -1 && !newLink ==> session[i].primary.sessionIdRemote == p.sid && session[i].primary.remoteAddr == p.from
      ensures newLink ==> p.op.HardReset? && (i == TM_ACTIVE || (i == TM_UNTRUSTED && p.authentic))
      ensures session == if newLink then old(session)[i := old(session)[i].(untrustedAddr := p.from)] else old(session)
      ensures !p.authentic ==> (newLink <==> NotesAddress(opt, old(session), nSessions, p))
    {
      hide LiveKey, RetiringKey, Pow2, NextKeyId;
      i, newLink := 0, false;
      if p.op.Unknown? || (p.op.HardReset? && p.op.client != opt.server) || p.sid == 0 { return -1, false; }
      while i < TM_SIZE && session[i].primary.sessionIdRemote != p.sid
        invariant 0 <= i <= TM_SIZE && forall j :: 0 <= j < i ==> session[j].primary.sessionIdRemote != p.sid
      {
        i := i + 1;
      }
      if i == TM_LAME_DUCK { return -1, false; }
      if i == TM_SIZE && IsHardReset(p.op, 0) {
        if !IsHardReset(p.op, opt.keyMethod) { return -1, false; }
        if session[TM_ACTIVE].primary.sessionIdRemote == 0 {
          if opt.singleSession && nSessions > 0 { return -1, false; }
          newLink, i := true, TM_ACTIVE;
          session := session[i := session[i].(untrustedAddr := p.from)];
        }
      }
      if i == TM_SIZE && IsHardReset(p.op, 0) {
        if opt.singleSession || !IsHardReset(p.op, opt.keyMethod) || !p.authentic { return -1, false; }
        newLink, i := true, TM_UNTRUSTED;
        session := session[i := session[i].(untrustedAddr := p.from)];
      } else if i != TM_ACTIVE && i != TM_UNTRUSTED {
        return -1, false;
      } else if !newLink && session[i].primary.remoteAddr != p.from {
        return -1, false;
      }
    }

    /** Delivers an authentic packet to its session. */
    method Accept(p: Packet, i: nat, newLink: bool)
      requires Valid() && PacketOk(p) && (i == TM_ACTIVE || i == TM_UNTRUSTED) && LiveSession(opt, session[i])
      requires newLink ==> p.op.HardReset? && session[i].untrustedAddr == p.from
      requires !newLink ==> session[i].primary.sessionIdRemote == p.sid && session[i].primary.remoteAddr == p.from
      modifies this`session, this`nSessions
      ensures Valid() && |session| == TM_SIZE && session == old(session)[i := session[i]]
      ensures ReceivedBy(opt, old(session[i]), p, i, newLink, session[i])
      ensures nSessions == old(nSessions) + if newLink then 1 else 0
    {
      hide Pow2, NextKeyId;
      var s := session[i];
      var doBurst := newLink && i == TM_ACTIVE;
      if p.op.SoftReset? && s.primary.state >= DecryptThreshold(opt) {
        s := KeyStateSoftReset(opt, s, p.now);
      } else if p.op.SoftReset? {
        doBurst := true;
      }
      assert s.primary.state != S_UNDEF && s.primary.state != S_ERROR && s.sessionId != 0;
      if newLink {
        s := s.(primary := s.primary.(sessionIdRemote := p.sid, remoteAddr := p.from));
        nSessions := nSessions + 1;
      }
      if doBurst && !s.burst {
        s := s.(burst := true);
      }
      session := session[i := s];
    }
  }

  // ----- whole runs

  datatype Event = Process(visits: seq<Visit>, linkAddr: nat, later: nat) | Receive(packet: Packet)

  predicate EventOk(e: Event) {
    match e
    case Process(visits, _, _) => |visits| == TM_SIZE && forall i :: 0 <= i < TM_SIZE ==> VisitOk(visits[i])
    case Receive(p) => PacketOk(p)
  }

  /** The sessions of a peer between two calls. */
  datatype Snapshot = Snapshot(session: seq<Session>, nSessions: nat)

  /** What a call reports: the sessions handed to tls_process, those that failed, and whether one was promoted. */
  datatype Outcome = Outcome(handled: set<nat>, failed: set<nat>, promoted: bool)

  /** One call leads from `s` to `t`. */
  predicate StepOk(o: Options, s: Snapshot, e: Event, r: Outcome, t: Snapshot) {
    && SessionsOk(o, s.session) && SessionsOk(o, t.session) && EventOk(e) && TM_LAME_DUCK !in r.handled && r.failed <= r.handled
    && match e
       case Process(visits, linkAddr, later) =>
         Processed(o, s.session, visits, linkAddr, later, r.handled, r.failed, r.promoted, t.session) && t.nSessions == s.nSessions
       case Receive(p) => r == Outcome({}, {}, false) && Delivered(o, s.session, s.nSessions, p, t.session, t.nSessions)
  }

  /** A run: snapshots with one call between each and the next. */
  predicate IsRun(o: Options, trace: seq<Snapshot>, events: seq<Event>, outcomes: seq<Outcome>) {
    && |trace| == |events| + 1 && |outcomes| == |events|
    && (forall n :: 0 <= n < |trace| ==> SessionsOk(o, trace[n].session))
    && forall n :: 0 <= n < |events| ==> StepOk(o, trace[n], events[n], outcomes[n], trace[n + 1])
  }

  /** Any sequence of calls, from initialisation on, is a run: the sessions stay well formed, no assertion on a key can
      fail, and the lame duck session is never handed to tls_process. */
  method Run(opt: Options, events: seq<Event>) returns (multi: TlsMulti, trace: seq<Snapshot>, outcomes: seq<Outcome>)
    requires OptionsOk(opt) && forall n :: 0 <= n < |events| ==> EventOk(events[n])
    ensures multi.Valid() && multi.opt == opt && IsRun(opt, trace, events, outcomes)
    ensures trace[|events|] == Snapshot(multi.session, multi.nSessions)
  {
    hide SessionsOk, Processed, Delivered, Pow2, LiveSession, Visited;
    multi := new TlsMulti(opt);
    trace, outcomes := [Snapshot(multi.session, multi.nSessions)], [];
    for n := 0 to |events|
      invariant multi.Valid() && multi.opt == opt && fresh(multi) && |outcomes| == n && |trace| == n + 1
      invariant trace[n] == Snapshot(multi.session, multi.nSessions)
      invariant forall k :: 0 <= k <= n ==> SessionsOk(opt, trace[k].session)
      invariant forall k :: 0 <= k < n ==> StepOk(opt, trace[k], events[k], outcomes[k], trace[k + 1])
    {
      assert EventOk(events[n]);
      var r := Call(multi, events[n]);
      outcomes, trace := outcomes + [r], trace + [Snapshot(multi.session, multi.nSessions)];
    }
  }

  method Call(multi: TlsMulti, e: Event) returns (r: Outcome)
    requires multi.Valid() && EventOk(e)
    modifies multi
    ensures multi.Valid()
    ensures StepOk(multi.opt, old(Snapshot(multi.session, multi.nSessions)), e, r, Snapshot(multi.session, multi.nSessions))
  {
    hide LiveSession, RetiredSession, Visited, Restarted, ReceivedBy, Receiver, Pow2;
    match e {
      case Process(visits, linkAddr, later) =>
        var handled, failed, promoted := multi.TlsMultiProcess(visits, linkAddr, later);
        r := Outcome(handled, failed, promoted);
      case Receive(p) =>
        var _ := multi.TlsPreDecrypt(p);
        r := Outcome({}, {}, false);
    }
  }

  /** What that means between calls. */
  lemma BetweenCalls(o: Options, ss: seq<Session>)
    requires SessionsOk(o, ss)
    ensures ss[TM_ACTIVE].primary.state != S_UNDEF && ss[TM_ACTIVE].primary.state != S_ERROR && ss[TM_ACTIVE].sessionId != 0
    ensures ss[TM_LAME_DUCK].primary.state < S_INITIAL
    ensures forall i :: 0 <= i < TM_SIZE && ss[i].lame.state >= S_INITIAL ==> ss[i].lame.mustDie != 0
    ensures forall i :: 0 <= i < TM_SIZE && ss[i].primary.state >= S_INITIAL && ss[i].lame.state >= S_INITIAL ==>
      ss[i].primary.keyId != ss[i].lame.keyId
    ensures forall i :: 0 <= i < TM_SIZE && ss[i].primary.state >= S_ACTIVE ==>
      ss[i].primary.history == if o.server then [Got, Wrote] else [Wrote, Got]
    ensures forall i :: 0 <= i < TM_SIZE && ss[i].lame.state >= S_ACTIVE ==>
      ss[i].lame.history == if o.server then [Got, Wrote] else [Wrote, Got]
  {
    hide Pow2, NextKeyId;
    forall i | 0 <= i < TM_SIZE && ss[i].primary.state >= S_INITIAL && ss[i].lame.state >= S_INITIAL
      ensures ss[i].primary.keyId != ss[i].lame.keyId
    {
      KeyIdsDiffer(o, ss[i]);
    }
  }

  // ----- how keys move along a run

  /** It is still the same key, not further back in its exchange. */
  predicate KeyMoved(o: Options, k: KeyState, l: KeyState) {
    l.keyId == k.keyId && l.initialOpcode == k.initialOpcode && Rank(o, k.state) <= Rank(o, l.state) && k.history <= l.history
  }

  /** The key that takes the place of `k` on renewal, moved on from its beginning. */
  predicate Succeeds(o: Options, k: KeyState, l: KeyState) {
    Advanced(o, CLEAR_KEY.(state := S_INITIAL, keyId := NextKeyId(o, k.keyId), initialOpcode := SoftReset,
                           sessionIdRemote := l.sessionIdRemote, remoteAddr := l.remoteAddr), l)
  }

  /** The call renews the primary key of session `i`: traffic or time is up, or the peer asks for it. */
  predicate Renews(o: Options, s: Snapshot, e: Event, r: Outcome, i: nat)
    requires |s.session| == TM_SIZE && EventOk(e) && i < TM_SIZE
  {
    match e
    case Process(visits, _, _) => i in r.handled && WantsRenewal(o, s.session[i].primary, visits[i])
    case Receive(p) => Receiver(o, s.session, s.nSessions, p) == i && AsksForRenewal(o, s.session[i], p)
  }

  /** The primary key that session `i` goes on with. */
  predicate KeyGoesOn(o: Options, renews: bool, a: Session, b: Session) {
    if renews then a.primary.state >= DecryptThreshold(o) && Succeeds(o, a.primary, b.primary)
      else KeyMoved(o, a.primary, b.primary)
  }

  lemma VisitMovesKey(o: Options, i: nat, a: Session, v: Visit, linkAddr: nat, handled: bool, failed: bool, b: Session)
    requires OptionsOk(o) && VisitOk(v) && (LiveSession(o, a) || a == CLEAR_SESSION)
    requires Visited(o, i, a, v, linkAddr, handled, failed, b) && !failed
    ensures KeyGoesOn(o, handled && WantsRenewal(o, a.primary, v), a, b)
  {
    hide Pow2, NextKeyId, Exchanges, Negotiated;
    if handled {
      var s := WithAddress(i, a, linkAddr);
      AtEntryIsLive(o, s, v);
      NegotiatedAdvances(o, AtEntry(o, s, v).primary, v.turns, v.now);
    }
  }

  lemma FailedRestarts(o: Options, i: nat, a: Session, v: Visit, linkAddr: nat, handled: bool, b: Session)
    requires Visited(o, i, a, v, linkAddr, handled, true, b)
    ensures Restarted(o, b) && b.primary.state < DecryptThreshold(o)
  {
    hide Pow2, NextKeyId, Exchanges;
  }

  /** A packet that is delivered names its sender as the peer, and renews the key exactly if it asks for that and the
      peer's key has been received. */
  lemma DeliveryMovesKey(o: Options, a: Session, p: Packet, i: nat, first: bool, b: Session)
    requires OptionsOk(o) && LiveSession(o, a) && ReceivedBy(o, a, p, i, first, b)
    ensures KeyGoesOn(o, AsksForRenewal(o, a, p), a, b)
    ensures b.primary.keyId != a.primary.keyId <==> p.op.SoftReset? && Got in a.primary.history
    ensures b.primary.sessionIdRemote == p.sid && b.primary.remoteAddr == p.from
  {
    hide Pow2, NextKeyId, Exchanges;
    DecryptsOnceGot(o, a.primary);
    NextKeyIdDiffers(o, a.primary.keyId);
  }

  /** A role-dependent rank never falls back: a primary key moves on, is renewed, fails and starts afresh, or is promoted
      and with it replaces the active one. */
  lemma StepMovesKeys(o: Options, s: Snapshot, e: Event, r: Outcome, t: Snapshot, i: nat)
    requires StepOk(o, s, e, r, t) && (i == TM_ACTIVE || i == TM_UNTRUSTED)
    ensures if r.promoted then
              if i == TM_UNTRUSTED then Restarted(o, t.session[TM_UNTRUSTED])
              else KeyGoesOn(o, Renews(o, s, e, r, TM_UNTRUSTED), s.session[TM_UNTRUSTED], t.session[TM_ACTIVE])
            else if i in r.failed then Restarted(o, t.session[i])
            else KeyGoesOn(o, Renews(o, s, e, r, i), s.session[i], t.session[i])
  {
    hide KeyGoesOn, ReceivedBy, Visited, Restarted, LiveKey, RetiringKey, Pow2, NextKeyId, RetiredSession,
      WantsRenewal, AsksForRenewal;
    var from := if r.promoted then TM_UNTRUSTED else i;
    var to := if r.promoted then TM_ACTIVE else i;
    match e
    case Process(visits, linkAddr, _) =>
      if from in r.failed {
        FailedRestarts(o, from, s.session[from], visits[from], linkAddr, from in r.handled, t.session[to]);
      } else {
        VisitMovesKey(o, from, s.session[from], visits[from], linkAddr, from in r.handled, false, t.session[to]);
      }
    case Receive(p) =>
      if Receiver(o, s.session, s.nSessions, p) == i {
        DeliveryMovesKey(o, s.session[i], p, i, OpensSession(s.session, p), t.session[i]);
      } else {
        Untouched(o, s.session[i], t.session[i]);
      }
  }

  lemma Untouched(o: Options, a: Session, b: Session)
    requires b.primary == a.primary
    ensures KeyGoesOn(o, false, a, b)
  {
  }

  /** Nothing replaces the primary key of session `i` in this step. */
  predicate Quiet(o: Options, s: Snapshot, e: Event, r: Outcome, i: nat)
    requires |s.session| == TM_SIZE && EventOk(e) && i < TM_SIZE
  {
    !r.promoted && i !in r.failed && !Renews(o, s, e, r, i)
  }

  /** Over any stretch of a run without renewal, failure or promotion it is one key, and its rank and its exchanges grow. */
  lemma {:induction false} RankOverRun(o: Options, trace: seq<Snapshot>, events: seq<Event>, outcomes: seq<Outcome>,
      i: nat, n: nat, m: nat)
    requires IsRun(o, trace, events, outcomes) && (i == TM_ACTIVE || i == TM_UNTRUSTED) && n <= m <= |events|
    requires forall k :: n <= k < m ==>
      StepOk(o, trace[k], events[k], outcomes[k], trace[k + 1]) && Quiet(o, trace[k], events[k], outcomes[k], i)
    ensures |trace[n].session| == |trace[m].session| == TM_SIZE
    ensures KeyMoved(o, trace[n].session[i].primary, trace[m].session[i].primary)
  {
    hide LiveSession, RetiredSession, Processed, Delivered, Renews;
    if n < m {
      RankOverRun(o, trace, events, outcomes, i, n, m - 1);
      StepMovesKeys(o, trace[m - 1], events[m - 1], outcomes[m - 1], trace[m], i);
    }
  }
}
