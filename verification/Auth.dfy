/**
 The authentication option (dhcpcd/auth.c): writing it into a message and validating a received
 one.  The keyed hash is a parameter: any function from message and key to sixteen bytes.
 */
module Auth {
  import opened Common

  const TOKEN := 0
  const DELAYED := 1
  const DELAYED_REALM := 2
  const RECONF_KEY := 3
  const HMAC_MD5 := 1
  const MONOTONIC := 0
  const MAC := 16
  const PREFIX := 11        // protocol, algorithm, replay method and replay counter

  const HOPS := 3           // where struct dhcp_message has hwopcount and giaddr
  const GIADDR := 24

  const U64_LIMIT := 0x1_0000_0000_0000_0000
  type uint64 = x: int | 0 <= x < U64_LIMIT witness 0

  function Be64(v: uint64): (s: seq<byte>)
    ensures |s| == 8 && FromBe64(s) == v
  {
    var (hi, lo) := (Be32(v / U32_LIMIT), Be32(v % U32_LIMIT));
    assert (hi + lo)[..4] == hi && (hi + lo)[4..] == lo;
    hi + lo
  }

  function FromBe64(s: seq<byte>): uint64
    requires |s| == 8
  {
    U32_LIMIT * FromBe32(s[..4]) + FromBe32(s[4..])
  }

  /** Unsigned 64-bit subtraction. */
  function Minus(a: uint64, b: uint64): uint64 {
    if b <= a then a - b else U64_LIMIT + a - b
  }

  datatype Token = Token(secretid: uint32, realm: seq<byte>, key: seq<byte>, expire: nat)

  datatype Settings = Settings(send: bool, protocol: byte, algorithm: byte, rdm: byte, tokens: seq<Token>)

  type Hash = (seq<byte>, seq<byte>) -> seq<byte>

  ghost predicate IsHash(h: Hash) {
    forall m, k :: |h(m, k)| == MAC
  }

  predicate Expired(t: Token, now: nat) {
    t.expire != 0 && t.expire < now
  }

  /** First configured token for this secret and realm; the length when there is none. */
  function Match(ts: seq<Token>, secretid: uint32, realm: seq<byte>): (i: nat)
    ensures i <= |ts|
    ensures i < |ts| ==> ts[i].secretid == secretid && ts[i].realm == realm
  {
    if ts == [] then 0
    else if ts[0].secretid == secretid && ts[0].realm == realm then 0
    else 1 + Match(ts[1..], secretid, realm)
  }

  method FindToken(ts: seq<Token>, secretid: uint32, realm: seq<byte>) returns (i: nat)
    ensures i == Match(ts, secretid, realm)
  {
    i := 0;
    while i < |ts| && !(ts[i].secretid == secretid && ts[i].realm == realm)
      invariant 0 <= i <= |ts| && Match(ts, secretid, realm) == i + Match(ts[i..], secretid, realm)
    {
      assert ts[i..][1..] == ts[i + 1..];
      i := i + 1;
    }
  }

  // ----- encoding

  datatype Choice = NoToken | Use(t: Option<Token>)

  /** Which token dhcp_auth_encode works with, or the error of not finding a usable one. */
  function Choose(a: Settings, given: Option<Token>, now: nat): Choice {
    if a.protocol == TOKEN && given == None then
      var i := Match(a.tokens, 0, []);
      if i == |a.tokens| || Expired(a.tokens[i], now) then NoToken else Use(Some(a.tokens[i]))
    else Use(given)
  }

  predicate Supported(a: Settings) {
    a.protocol <= DELAYED_REALM && a.algorithm == HMAC_MD5 && a.rdm == MONOTONIC
  }

  /** The size pass: how many bytes the option needs. */
  function Size(a: Settings, t: Option<Token>, info: bool): nat
    requires a.protocol == TOKEN ==> t.Some?
  {
    if a.protocol == TOKEN then PREFIX + |t.value.key|
    else if !info || t == None then PREFIX
    else PREFIX + (if a.protocol == DELAYED_REALM then |t.value.realm| else 0) + 4 + MAC
  }

  /** Section 5.2 of RFC 3118: hops and giaddr do not enter the hash. */
  function Hashed(m: seq<byte>, v4: bool): (r: seq<byte>)
    requires v4 ==> |m| >= GIADDR + 4
    ensures |r| == |m|
  {
    if v4 then Overwritten(Overwritten(m, HOPS, [0]), GIADDR, [0, 0, 0, 0]) else m
  }

  /** Hops and giaddr are put back as they were in u. */
  function Restored(m: seq<byte>, u: seq<byte>, v4: bool): (r: seq<byte>)
    requires |m| == |u| && (v4 ==> |m| >= GIADDR + 4)
    ensures |r| == |m|
  {
    if v4 then Overwritten(Overwritten(m, HOPS, [u[HOPS]]), GIADDR, u[GIADDR..GIADDR + 4]) else m
  }

  /** An option behind the fixed header is not touched by blanking and restoring. */
  lemma RestoredIs(u: seq<byte>, v4: bool, at: nat, mac: seq<byte>)
    requires at + |mac| <= |u| && (v4 ==> GIADDR + 4 <= at)
    ensures Restored(Overwritten(Hashed(u, v4), at, mac), u, v4) == Overwritten(u, at, mac)
  {
    hide Overwritten;
  }

  /** Where the MAC goes once realm and secret id are written. */
  function MacOffset(a: Settings, t: Token, off: nat): nat {
    off + PREFIX + (if a.protocol == DELAYED_REALM then |t.realm| else 0) + 4
  }

  function OptionPrefix(a: Settings, replay: uint64): (s: seq<byte>)
    ensures |s| == PREFIX
  {
    [a.protocol, a.algorithm, a.rdm] + Be64(replay)
  }

  /** Realm and secret id, as the protocol asks. */
  function Identity(a: Settings, t: Token): (s: seq<byte>)
    ensures |s| == (if a.protocol == DELAYED_REALM then |t.realm| else 0) + 4
  {
    (if a.protocol == DELAYED_REALM then t.realm else []) + Be32(t.secretid)
  }

  /** The message with everything but the MAC in place and the MAC zero. */
  function Unsigned(a: Settings, t: Token, m: seq<byte>, off: nat, dlen: nat, replay: uint64): (r: seq<byte>)
    requires off + dlen <= |m| && |Identity(a, t)| + PREFIX <= dlen
    ensures |r| == |m|
  {
    Overwritten(m, off, OptionPrefix(a, replay) + Identity(a, t) + Zeros(dlen - PREFIX - |Identity(a, t)|))
  }

  datatype Encoding = Encoding(result: int, m: seq<byte>)

  /** dhcp_auth_encode's write pass over the option at m[off..off + dlen]. */
  function Encode(a: Settings, t: Option<Token>, m: seq<byte>, v4: bool, info: bool, off: nat, dlen: nat,
                  replay: uint64, h: Hash): Encoding
    requires (v4 ==> |m| >= GIADDR + 4) && IsHash(h)
    requires off + dlen <= |m| ==> MacFits(a, t, info, dlen, |m| - off)
  {
    if dlen < PREFIX || off + dlen > |m| then Encoding(-1, m)
    else
      var m1 := Overwritten(m, off, OptionPrefix(a, replay));
      var left := dlen - PREFIX;
      if a.protocol == TOKEN then
        if t == None || left < |t.value.key| then Encoding(-1, m1)
        else Encoding(left - |t.value.key|, Overwritten(m1, off + PREFIX, t.value.key))
      else if !info then Encoding(left, m1)
      else if t == None then Encoding(0, m1)
      else if a.protocol == DELAYED_REALM && left < |t.value.realm| then Encoding(-1, m1)
      else if left < |Identity(a, t.value)| then
        Encoding(-1, if a.protocol == DELAYED_REALM then Overwritten(m1, off + PREFIX, t.value.realm) else m1)
      else
        var u := Unsigned(a, t.value, m, off, dlen, replay);
        var z := Hashed(u, v4);
        Encoding(left - |Identity(a, t.value)| - MAC,
                 Restored(Overwritten(z, MacOffset(a, t.value, off), h(z, t.value.key)), u, v4))
  }

  /** Sixteen bytes of MAC are copied unchecked, past the end of a short option: the message must have
      room for them. */
  predicate MacFits(a: Settings, t: Option<Token>, info: bool, dlen: nat, room: int) {
    a.protocol != TOKEN && info && t.Some? && PREFIX + |Identity(a, t.value)| <= dlen ==>
      PREFIX + |Identity(a, t.value)| + MAC <= room
  }

  // ----- validation

  datatype TokenRef = Configured(i: nat) | Reconf

  /** The state of a session: the token it is bound to, the last replay counter, and the key a
      server sent for reconfiguration. */
  datatype Session = Session(replay: uint64, token: Option<TokenRef>, reconf: Option<seq<byte>>)

  datatype Outcome = Rejected | Accepted(who: TokenRef, s: Session)

  /** What memcmp compares n bytes with: the hash, and behind it whatever the stack holds. */
  function Compared(mac: seq<byte>, n: nat, junk: nat -> byte): seq<byte>
    requires |mac| == MAC
  {
    seq(n, i requires 0 <= i < n => if i < MAC then mac[i] else junk(i - MAC))
  }

  lemma ComparedIsMac(mac: seq<byte>, junk: nat -> byte)
    requires |mac| == MAC
    ensures Compared(mac, MAC, junk) == mac
  {
  }

  /** The last part of dhcp_auth_validate, once the token is known; d is where the MAC or key is. */
  function Verify(s: Session, a: Settings, m: seq<byte>, v4: bool, protocol: byte, algorithm: byte, d: nat, dlen: nat,
                  replay: uint64, who: TokenRef, key: seq<byte>, h: Hash, junk: nat -> byte): Outcome
    requires d + dlen <= |m| && (v4 ==> |m| >= GIADDR + 4) && IsHash(h)
  {
    if s.token.Some? && s.token.value != who then Rejected
    else
      var done := Accepted(who, s.(replay := replay, token := Some(who)));
      if protocol == TOKEN then (if m[d..d + dlen] == key then done else Rejected)
      else if algorithm != HMAC_MD5 then Rejected
      else
        var mac := h(Hashed(Overwritten(m, d, Zeros(dlen)), v4), key);
        if m[d..d + dlen] == Compared(mac, dlen, junk) then done else Rejected
  }

  function VerifyConfigured(s: Session, a: Settings, m: seq<byte>, v4: bool, protocol: byte, algorithm: byte, d: nat, dlen: nat,
                            replay: uint64, secretid: uint32, realm: seq<byte>, now: nat, h: Hash, junk: nat -> byte): Outcome
    requires d + dlen <= |m| && (v4 ==> |m| >= GIADDR + 4) && IsHash(h)
  {
    var i := Match(a.tokens, secretid, realm);
    if i == |a.tokens| || Expired(a.tokens[i], now) then Rejected
    else Verify(s, a, m, v4, protocol, algorithm, d, dlen, replay, Configured(i), a.tokens[i].key, h, junk)
  }

  /** dhcp_auth_validate on the option at m[off..off + len]; `isReply` says that the message may
      carry a reconfigure key. */
  function Validate(s: Session, a: Settings, m: seq<byte>, v4: bool, isReply: bool, off: nat, len: nat,
                    now: nat, h: Hash, junk: nat -> byte): Outcome
    requires (v4 ==> |m| >= GIADDR + 4) && IsHash(h)
  {
    if len < PREFIX || off + len > |m| then Rejected
    else
      var (protocol, algorithm, rdm) := (m[off], m[off + 1], m[off + 2]);
      if !a.send && protocol != RECONF_KEY then Rejected
      else if a.send && (protocol != a.protocol || algorithm != a.algorithm || rdm != a.rdm) then Rejected
      else
        var replay := FromBe64(m[off + 3..off + PREFIX]);
        var (d, dlen) := (off + PREFIX, len - PREFIX);
        // an unsigned difference is at most zero only when it is zero
        if s.token.Some? && Minus(replay, s.replay) <= 0 then Rejected
        else if protocol == TOKEN then
          VerifyConfigured(s, a, m, v4, protocol, algorithm, d, dlen, replay, 0, [], now, h, junk)
        else if protocol == DELAYED then
          if dlen < 4 + MAC then Rejected
          else VerifyConfigured(s, a, m, v4, protocol, algorithm, d + 4, dlen - 4, replay, FromBe32(m[d..d + 4]), [], now, h, junk)
        else if protocol == DELAYED_REALM then
          if dlen < 4 + MAC then Rejected
          else
            var n := dlen - (4 + MAC);
            VerifyConfigured(s, a, m, v4, protocol, algorithm, d + n + 4, dlen - n - 4, replay,
                             FromBe32(m[d + n..d + n + 4]), m[d..d + n], now, h, junk)
        else if protocol == RECONF_KEY then
          if dlen != 1 + 16 then Rejected
          else if m[d] == 1 then
            if isReply then Accepted(Reconf, s.(reconf := Some(m[d + 1..d + 17]))) else Rejected
          else if m[d] == 2 && s.reconf.Some? then
            Verify(s, a, m, v4, protocol, algorithm, d + 1, dlen - 1, replay, Reconf, s.reconf.value, h, junk)
          else Rejected
        else Rejected
  }

  // ----- proofs

  /** The token a validator will look up for what this token's options carry. */
  predicate FirstMatch(a: Settings, i: nat) {
    && i < |a.tokens|
    && Match(a.tokens, a.tokens[i].secretid, a.tokens[i].realm) == i
    && (a.protocol == TOKEN ==> a.tokens[i].secretid == 0 && a.tokens[i].realm == [])
    && (a.protocol == DELAYED ==> a.tokens[i].realm == [])
  }

  /** The session accepts this token and has not just seen this counter. */
  predicate Fresh(s: Session, i: nat, replay: uint64) {
    s.token == None || (s.token == Some(Configured(i)) && replay != s.replay)
  }

  /** The size pass is what the write pass consumes: nothing is left over. */
  lemma SizeIsConsumed(a: Settings, i: nat, m: seq<byte>, v4: bool, info: bool, off: nat, replay: uint64, h: Hash)
    requires Supported(a) && i < |a.tokens| && IsHash(h) && (v4 ==> |m| >= GIADDR + 4)
    requires off + Size(a, Some(a.tokens[i]), info) <= |m|
    ensures MacFits(a, Some(a.tokens[i]), info, Size(a, Some(a.tokens[i]), info), |m| - off)
    ensures Encode(a, Some(a.tokens[i]), m, v4, info, off, Size(a, Some(a.tokens[i]), info), replay, h).result == 0
  {
    hide Overwritten, Hashed, Unsigned, OptionPrefix, Match, Restored;
  }

  /** Left to choose for itself, the token protocol takes a first match that has not expired. */
  lemma ChoiceIsFirstMatch(a: Settings, now: nat)
    requires a.protocol == TOKEN && Choose(a, None, now) != NoToken
    ensures var i := Match(a.tokens, 0, []);
      FirstMatch(a, i) && !Expired(a.tokens[i], now) && Choose(a, None, now) == Use(Some(a.tokens[i]))
  {
  }

  /** A token-protocol option is accepted. */
  lemma TokenAccepted(s: Session, a: Settings, i: nat, m: seq<byte>, v4: bool, info: bool, isReply: bool, off: nat,
                      replay: uint64, now: nat, h: Hash, junk: nat -> byte)
    requires a.send && a.protocol == TOKEN && Supported(a) && FirstMatch(a, i) && !Expired(a.tokens[i], now)
    requires Fresh(s, i, replay) && IsHash(h) && (v4 ==> |m| >= GIADDR + 4)
    requires off + PREFIX + |a.tokens[i].key| <= |m|
    ensures var len := PREFIX + |a.tokens[i].key|;
      Validate(s, a, Encode(a, Some(a.tokens[i]), m, v4, info, off, len, replay, h).m, v4, isReply, off, len, now, h, junk)
        == Accepted(Configured(i), s.(replay := replay, token := Some(Configured(i))))
  {
    hide Overwritten, Be64, FromBe64, Match;
    var key := a.tokens[i].key;
    var m1 := Overwritten(m, off, OptionPrefix(a, replay));
    var m2 := Overwritten(m1, off + PREFIX, key);
    assert m2[off + PREFIX..off + PREFIX + |key|] == key;
    PrefixFields(a, m2, off, replay);
  }

  lemma PrefixFields(a: Settings, m: seq<byte>, off: nat, replay: uint64)
    requires off + PREFIX <= |m| && forall i :: 0 <= i < PREFIX ==> m[off + i] == OptionPrefix(a, replay)[i]
    ensures m[off] == a.protocol && m[off + 1] == a.algorithm && m[off + 2] == a.rdm
    ensures FromBe64(m[off + 3..off + PREFIX]) == replay
  {
    hide FromBe64, Be64;
    var p := OptionPrefix(a, replay);
    assert m[off + 0] == p[0] && m[off + 1] == p[1] && m[off + 2] == p[2];
    assert m[off + 3..off + PREFIX] == p[3..] == Be64(replay);
  }

  /** What signing leaves in the message: prefix, identity, MAC, and everything else as it was. */
  lemma SignedFields(a: Settings, t: Token, m: seq<byte>, v4: bool, off: nat, replay: uint64, mac: seq<byte>)
    requires |mac| == MAC && off + PREFIX + |Identity(a, t)| + MAC <= |m|
    ensures var n := PREFIX + |Identity(a, t)|; var dlen := n + MAC;
      var u := Unsigned(a, t, m, off, dlen, replay); var r := Overwritten(u, off + n, mac);
      && (forall i :: 0 <= i < PREFIX ==> r[off + i] == OptionPrefix(a, replay)[i])
      && r[off + PREFIX..off + n] == Identity(a, t)
      && r[off + n..off + dlen] == mac
      && (forall i :: 0 <= i < |m| && !(off <= i < off + dlen) ==> r[i] == m[i])
      && Overwritten(r, off + n, Zeros(MAC)) == u
  {
    hide Overwritten, OptionPrefix, Identity;
    WrittenOver(m, off, OptionPrefix(a, replay), Identity(a, t), mac);
  }

  lemma WrittenOver(m: seq<byte>, off: nat, p: seq<byte>, id: seq<byte>, mac: seq<byte>)
    requires |mac| == MAC && off + |p| + |id| + MAC <= |m|
    ensures var n := |p| + |id|; var u := Overwritten(m, off, p + id + Zeros(MAC)); var r := Overwritten(u, off + n, mac);
      && (forall i :: 0 <= i < |p| ==> r[off + i] == p[i])
      && r[off + |p|..off + n] == id
      && r[off + n..off + n + MAC] == mac
      && (forall i :: 0 <= i < |m| && !(off <= i < off + n + MAC) ==> r[i] == m[i])
      && Overwritten(r, off + n, Zeros(MAC)) == u
  {
    hide Overwritten;
    var n := |p| + |id|;
    var all := p + id + Zeros(MAC);
    var u := Overwritten(m, off, all);
    var r := Overwritten(u, off + n, mac);
    assert forall i :: 0 <= i < |p| ==> r[off + i] == u[off + i] == all[i] == p[i];
    assert forall i :: 0 <= i < |id| ==> r[off + |p| + i] == u[off + |p| + i] == all[|p| + i] == id[i];
    assert forall i :: off + n <= i < off + n + MAC ==> u[i] == all[i - off] == 0;
    assert Overwritten(r, off + n, Zeros(MAC)) == u;
  }

  /** The receiver hashes what the sender hashed, and finds the same MAC. */
  lemma DelayedAccepted(s: Session, a: Settings, i: nat, m: seq<byte>, v4: bool, isReply: bool, off: nat,
                        replay: uint64, now: nat, h: Hash, junk: nat -> byte)
    requires a.send && (a.protocol == DELAYED || a.protocol == DELAYED_REALM) && Supported(a)
    requires FirstMatch(a, i) && !Expired(a.tokens[i], now) && Fresh(s, i, replay) && IsHash(h)
    requires off + Size(a, Some(a.tokens[i]), true) <= |m| && (v4 ==> GIADDR + 4 <= off)
    ensures var len := Size(a, Some(a.tokens[i]), true);
      Validate(s, a, Encode(a, Some(a.tokens[i]), m, v4, true, off, len, replay, h).m, v4, isReply, off, len, now, h, junk)
        == Accepted(Configured(i), s.(replay := replay, token := Some(Configured(i))))
  {
    hide Overwritten, Hashed, Unsigned, Identity, Encode, Validate, Match;
    var t := a.tokens[i];
    var n := PREFIX + |Identity(a, t)|;
    var len := n + MAC;
    var u := Unsigned(a, t, m, off, len, replay);
    var mac := h(Hashed(u, v4), t.key);
    EncodedIs(a, i, m, v4, off, replay, h);
    SignedAccepted(s, a, i, m, v4, isReply, off, replay, now, h, junk);
  }

  /** What a delayed-protocol option does to the message. */
  lemma EncodedIs(a: Settings, i: nat, m: seq<byte>, v4: bool, off: nat, replay: uint64, h: Hash)
    requires (a.protocol == DELAYED || a.protocol == DELAYED_REALM) && Supported(a) && i < |a.tokens| && IsHash(h)
    requires off + Size(a, Some(a.tokens[i]), true) <= |m| && (v4 ==> GIADDR + 4 <= off)
    ensures Size(a, Some(a.tokens[i]), true) == PREFIX + |Identity(a, a.tokens[i])| + MAC
    ensures var t := a.tokens[i]; var n := PREFIX + |Identity(a, t)|; var u := Unsigned(a, t, m, off, n + MAC, replay);
      && MacFits(a, Some(t), true, n + MAC, |m| - off)
      && Encode(a, Some(t), m, v4, true, off, n + MAC, replay, h).m == Overwritten(u, off + n, h(Hashed(u, v4), t.key))
  {
    hide Overwritten, Be64, OptionPrefix, Hashed, Unsigned, Restored;
    var t := a.tokens[i];
    var n := PREFIX + |Identity(a, t)|;
    var u := Unsigned(a, t, m, off, n + MAC, replay);
    RestoredIs(u, v4, off + n, h(Hashed(u, v4), t.key));
  }

  lemma SignedAccepted(s: Session, a: Settings, i: nat, m: seq<byte>, v4: bool, isReply: bool, off: nat,
                       replay: uint64, now: nat, h: Hash, junk: nat -> byte)
    requires a.send && (a.protocol == DELAYED || a.protocol == DELAYED_REALM) && Supported(a)
    requires FirstMatch(a, i) && !Expired(a.tokens[i], now) && Fresh(s, i, replay) && IsHash(h)
    requires off + PREFIX + |Identity(a, a.tokens[i])| + MAC <= |m| && (v4 ==> GIADDR + 4 <= off)
    ensures var t := a.tokens[i]; var n := PREFIX + |Identity(a, t)|; var u := Unsigned(a, t, m, off, n + MAC, replay);
      Validate(s, a, Overwritten(u, off + n, h(Hashed(u, v4), t.key)), v4, isReply, off, n + MAC, now, h, junk)
        == Accepted(Configured(i), s.(replay := replay, token := Some(Configured(i))))
  {
    hide Overwritten, Be64, FromBe64, Match, OptionPrefix, Hashed, Unsigned, Identity, FromBe32, Be32, Compared;
    var t := a.tokens[i];
    var id := Identity(a, t);
    var n := PREFIX + |id|;
    var len := n + MAC;
    var u := Unsigned(a, t, m, off, len, replay);
    var mac := h(Hashed(u, v4), t.key);
    var r := Overwritten(u, off + n, mac);
    SignedFields(a, t, m, v4, off, replay, mac);
    PrefixFields(a, r, off, replay);
    IdentityFields(a, t);
    var d := off + PREFIX;
    var k := |id| - 4;
    Slices(r, d, |id|, k);
    ComparedIsMac(mac, junk);
  }

  lemma Slices(r: seq<byte>, d: nat, n: nat, k: nat)
    requires d + n <= |r| && k <= n
    ensures r[d..d + n][..k] == r[d..d + k] && r[d..d + n][k..] == r[d + k..d + n]
  {
  }

  lemma IdentityFields(a: Settings, t: Token)
    ensures var id := Identity(a, t); var k := |id| - 4;
      && id[k..] == Be32(t.secretid)
      && id[..k] == (if a.protocol == DELAYED_REALM then t.realm else [])
      && FromBe32(Be32(t.secretid)) == t.secretid
  {
    hide Be32;
  }

  /** The round trip of section 5.2 of RFC 3118: an option written with the first matching,
      unexpired token is accepted, binds the session to it, and leaves hops, giaddr and the rest
      of the message outside the option untouched. */
  lemma RoundTrip(s: Session, a: Settings, i: nat, m: seq<byte>, v4: bool, info: bool, isReply: bool, off: nat,
                  replay: uint64, now: nat, h: Hash, junk: nat -> byte)
    requires a.send && Supported(a) && FirstMatch(a, i) && !Expired(a.tokens[i], now)
    requires Fresh(s, i, replay) && IsHash(h) && (v4 ==> GIADDR + 4 <= off)
    requires a.protocol != TOKEN ==> info
    requires off + Size(a, Some(a.tokens[i]), info) <= |m|
    ensures var len := Size(a, Some(a.tokens[i]), info);
      MacFits(a, Some(a.tokens[i]), info, len, |m| - off) &&
      var e := Encode(a, Some(a.tokens[i]), m, v4, info, off, len, replay, h);
      && e.result == 0
      && Validate(s, a, e.m, v4, isReply, off, len, now, h, junk)
           == Accepted(Configured(i), s.(replay := replay, token := Some(Configured(i))))
      && |e.m| == |m| && (forall j :: 0 <= j < |m| && !(off <= j < off + len) ==> e.m[j] == m[j])
  {
    hide Overwritten, Be64, FromBe64, Match, OptionPrefix, Hashed, Unsigned, Validate, Restored;
    SizeIsConsumed(a, i, m, v4, info, off, replay, h);
    if a.protocol == TOKEN {
      TokenAccepted(s, a, i, m, v4, info, isReply, off, replay, now, h, junk);
    } else {
      DelayedAccepted(s, a, i, m, v4, isReply, off, replay, now, h, junk);
      var t := a.tokens[i];
      var u := Unsigned(a, t, m, off, Size(a, Some(t), true), replay);
      RestoredIs(u, v4, MacOffset(a, t, off), h(Hashed(u, v4), t.key));
      SignedFields(a, t, m, v4, off, replay, h(Hashed(u, v4), t.key));
    }
  }

  /** In a session bound to the token, the replay check turns away exactly the counter seen last: an
      older one passes as well as a newer one. */
  lemma ReplayRejectsOnlyRepeats(s: Session, a: Settings, i: nat, m: seq<byte>, v4: bool, info: bool, isReply: bool, off: nat,
                                 replay: uint64, now: nat, h: Hash, junk: nat -> byte)
    requires a.send && Supported(a) && FirstMatch(a, i) && !Expired(a.tokens[i], now)
    requires s.token == Some(Configured(i)) && IsHash(h) && (v4 ==> GIADDR + 4 <= off)
    requires a.protocol != TOKEN ==> info
    requires off + Size(a, Some(a.tokens[i]), info) <= |m|
    ensures var len := Size(a, Some(a.tokens[i]), info);
      MacFits(a, Some(a.tokens[i]), info, len, |m| - off) &&
      var e := Encode(a, Some(a.tokens[i]), m, v4, info, off, len, replay, h);
      Validate(s, a, e.m, v4, isReply, off, len, now, h, junk) == Rejected <==> replay == s.replay
  {
    hide Encode, Be64, FromBe64, Match, Verify;
    if replay != s.replay {
      RoundTrip(s, a, i, m, v4, info, isReply, off, replay, now, h, junk);
    } else {
      var len := Size(a, Some(a.tokens[i]), info);
      var e := Encode(a, Some(a.tokens[i]), m, v4, info, off, len, replay, h);
      EncodedPrefix(a, i, m, v4, info, off, replay, h);
      PrefixFields(a, e.m, off, replay);
    }
  }

  lemma EncodedPrefix(a: Settings, i: nat, m: seq<byte>, v4: bool, info: bool, off: nat, replay: uint64, h: Hash)
    requires Supported(a) && i < |a.tokens| && IsHash(h) && (v4 ==> GIADDR + 4 <= off)
    requires a.protocol != TOKEN ==> info
    requires off + Size(a, Some(a.tokens[i]), info) <= |m|
    requires MacFits(a, Some(a.tokens[i]), info, Size(a, Some(a.tokens[i]), info), |m| - off)
    ensures var e := Encode(a, Some(a.tokens[i]), m, v4, info, off, Size(a, Some(a.tokens[i]), info), replay, h);
      |e.m| == |m| && forall j :: 0 <= j < PREFIX ==> e.m[off + j] == OptionPrefix(a, replay)[j]
  {
    hide Overwritten, Be64, Match, OptionPrefix, Hashed, Unsigned, Restored;
    var t := a.tokens[i];
    if a.protocol != TOKEN {
      var u := Unsigned(a, t, m, off, Size(a, Some(t), true), replay);
      RestoredIs(u, v4, MacOffset(a, t, off), h(Hashed(u, v4), t.key));
      SignedFields(a, t, m, v4, off, replay, h(Hashed(u, v4), t.key));
    }
  }

  // ----- the program's own way

  lemma UnsignedInSteps(a: Settings, t: Token, m: seq<byte>, off: nat, dlen: nat, replay: uint64)
    requires off + dlen <= |m| && |Identity(a, t)| + PREFIX <= dlen
    ensures Overwritten(Overwritten(Overwritten(m, off, OptionPrefix(a, replay)), off + PREFIX, Identity(a, t)),
                off + PREFIX + |Identity(a, t)|, Zeros(dlen - PREFIX - |Identity(a, t)|))
      == Unsigned(a, t, m, off, dlen, replay)
  {
    hide Overwritten, OptionPrefix, Identity;
  }

  lemma PutTwice(m: seq<byte>, at: nat, a: seq<byte>, b: seq<byte>)
    requires at + |a| + |b| <= |m|
    ensures Overwritten(Overwritten(m, at, a), at + |a|, b) == Overwritten(m, at, a + b)
  {
    hide Overwritten;
  }

  /** dhcp_auth_encode's write pass on the message itself: it blanks hops and giaddr, hashes the
      whole message, stores the MAC and puts the two fields back. */
  method EncodeInPlace(a: Settings, t: Option<Token>, m: array<byte>, v4: bool, info: bool, off: nat, dlen: nat,
                       replay: uint64, h: Hash) returns (r: int)
    requires IsHash(h)
    requires v4 ==> m.Length >= GIADDR + 4
    requires off + dlen <= m.Length ==> MacFits(a, t, info, dlen, m.Length - off)
    modifies m
    ensures Encode(a, t, old(m[..]), v4, info, off, dlen, replay, h) == Encoding(r, m[..])
  {
    hide Overwritten, OptionPrefix, Unsigned, Hashed, Restored;
    if dlen < PREFIX || off + dlen > m.Length {
      return -1;
    }
    ghost var before := m[..];
    Store(m, off, OptionPrefix(a, replay));
    var d, left := off + PREFIX, dlen - PREFIX;
    if a.protocol == TOKEN {
      if t == None || left < |t.value.key| {
        return -1;
      }
      Store(m, d, t.value.key);
      return left - |t.value.key|;
    }
    if !info {
      return left;
    }
    if t == None {
      return 0;
    }
    var realm := if a.protocol == DELAYED_REALM then t.value.realm else [];
    if left < |realm| {
      return -1;
    }
    Store(m, d, realm);
    PutNothing(Overwritten(before, off, OptionPrefix(a, replay)), d);
    if left - |realm| < 4 {
      return -1;
    }
    Store(m, d + |realm|, Be32(t.value.secretid));
    PutTwice(Overwritten(before, off, OptionPrefix(a, replay)), d, realm, Be32(t.value.secretid));
    d, left := d + |realm| + 4, left - |realm| - 4;
    Store(m, d, Zeros(left));
    UnsignedInSteps(a, t.value, before, off, dlen, replay);
    SignAt(m, v4, d, t.value.key, h);
    r := left - MAC;
  }

  lemma PutNothing(m: seq<byte>, at: nat)
    requires at <= |m|
    ensures Overwritten(m, at, []) == m
  {
  }

  method SignAt(m: array<byte>, v4: bool, d: nat, key: seq<byte>, h: Hash)
    requires IsHash(h) && d + MAC <= m.Length && (v4 ==> m.Length >= GIADDR + 4)
    modifies m
    ensures var u := old(m[..]); var z := Hashed(u, v4); m[..] == Restored(Overwritten(z, d, h(z, key)), u, v4)
  {
    hide Overwritten;
    var hops: byte, giaddr: seq<byte> := 0, [];
    if v4 {
      hops := m[HOPS];
      Store(m, HOPS, [0]);
      giaddr := m[GIADDR..GIADDR + 4];
      Store(m, GIADDR, [0, 0, 0, 0]);
    }
    var mac := h(m[..], key);
    Store(m, d, mac);
    if v4 {
      Store(m, HOPS, [hops]);
      Store(m, GIADDR, giaddr);
    }
  }

  /** The session of one interface. */
  class AuthState {
    var replay: uint64
    var token: Option<TokenRef>
    var reconf: Option<seq<byte>>

    function View(): Session
      reads this
    {
      Session(replay, token, reconf)
    }

    /** dhcp_auth_validate: a token on success, and the session remembers it. */
    method ValidateOption(a: Settings, m: seq<byte>, v4: bool, isReply: bool, off: nat, len: nat, now: nat, h: Hash, junk: nat -> byte)
      returns (found: Option<TokenRef>)
      requires (v4 ==> |m| >= GIADDR + 4) && IsHash(h)
      modifies this
      ensures match Validate(old(View()), a, m, v4, isReply, off, len, now, h, junk)
        case Rejected => found == None && View() == old(View())
        case Accepted(who, s) => found == Some(who) && View() == s
    {
      hide Be64, FromBe64, FromBe32, Verify, Match;
      if len < PREFIX || off + len > |m| {
        return None;
      }
      var protocol, algorithm, rdm := m[off], m[off + 1], m[off + 2];
      if !a.send {
        if protocol != RECONF_KEY {
          return None;
        }
      } else if protocol != a.protocol || algorithm != a.algorithm || rdm != a.rdm {
        return None;
      }
      var counter := FromBe64(m[off + 3..off + PREFIX]);
      var d, dlen := off + PREFIX, len - PREFIX;
      if token.Some? && Minus(counter, replay) <= 0 {
        return None;
      }
      var who, key := Reconf, [];
      if protocol == RECONF_KEY {
        if dlen != 1 + 16 {
          return None;
        }
        if m[d] == 1 {
          if !isReply {
            return None;
          }
          reconf := Some(m[d + 1..d + 17]);
          return Some(Reconf);
        }
        if m[d] != 2 || reconf == None {
          return None;
        }
        key, d, dlen := reconf.value, d + 1, dlen - 1;
      } else {
        var secretid, realm := 0, [];
        if protocol == DELAYED || protocol == DELAYED_REALM {
          if dlen < 4 + MAC {
            return None;
          }
          if protocol == DELAYED_REALM {
            var n := dlen - (4 + MAC);
            realm, d, dlen := m[d..d + n], d + n, dlen - n;
          }
          secretid, d, dlen := FromBe32(m[d..d + 4]), d + 4, dlen - 4;
        } else if protocol != TOKEN {
          return None;
        }
        var i := FindToken(a.tokens, secretid, realm);
        if i == |a.tokens| || Expired(a.tokens[i], now) {
          return None;
        }
        who, key := Configured(i), a.tokens[i].key;
      }
      found := Conclude(a, m, v4, protocol, algorithm, d, dlen, counter, who, key, h, junk);
    }

    /** The token is known: compare key or MAC, and remember both token and counter. */
    method Conclude(a: Settings, m: seq<byte>, v4: bool, protocol: byte, algorithm: byte, d: nat, dlen: nat,
                    counter: uint64, who: TokenRef, key: seq<byte>, h: Hash, junk: nat -> byte)
      returns (found: Option<TokenRef>)
      requires d + dlen <= |m| && (v4 ==> |m| >= GIADDR + 4) && IsHash(h)
      modifies this
      ensures match Verify(old(View()), a, m, v4, protocol, algorithm, d, dlen, counter, who, key, h, junk)
        case Rejected => found == None && View() == old(View())
        case Accepted(w, s) => found == Some(w) && View() == s
    {
      hide Hashed, Overwritten, Compared;
      if token.Some? && token.value != who {
        return None;
      }
      if protocol == TOKEN {
        if m[d..d + dlen] != key {
          return None;
        }
      } else {
        if algorithm != HMAC_MD5 {
          return None;
        }
        var mac := h(Hashed(Overwritten(m, d, Zeros(dlen)), v4), key);
        if m[d..d + dlen] != Compared(mac, dlen, junk) {
          return None;
        }
      }
      replay, token := counter, Some(who);
      found := Some(who);
    }
  }
}
