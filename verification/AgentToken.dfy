/** robofleet/agents_config.py: minting and verifying agent tokens, static and expiring. */
module AgentToken {
  import opened OptionType
  import opened Text
  import opened Base64Url

  const UNSIGNED := "UNSIGNED"

  datatype Payload = Payload(id: string, role: string, team: string, iat: real, exp: real)

  /** A decoded JSON value, as far as verification looks; `Num` covers every value Python counts as a number. */
  datatype Json = Str(text: string) | Num(value: real) | Other
  datatype Loaded = Malformed | NotAnObject | Object(fields: map<string, Json>)

  /**
   The libraries behind the token: a keyed hash, a JSON writer and reader, and lower-casing. Nothing is assumed of the
   hash but that its output is hexadecimal, and of the codec but that it reads back the one payload a token carries.
   */
  datatype Codec = Codec(
    mac: (string, string) -> string,
    dumps: Payload -> seq<Byte>,
    loads: seq<Byte> -> Loaded,
    lower: string -> string)

  function FieldsOf(p: Payload): map<string, Json> {
    map["id" := Str(p.id), "role" := Str(p.role), "team" := Str(p.team), "iat" := Num(p.iat), "exp" := Num(p.exp)]
  }

  predicate IsHex(s: string) {
    s != "" && forall i | 0 <= i < |s| :: '0' <= s[i] <= '9' || 'a' <= s[i] <= 'f'
  }

  ghost predicate HexMac(c: Codec, key: string) {
    forall message :: IsHex(c.mac(key, message))
  }

  predicate ReadsBack(c: Codec, p: Payload) {
    c.loads(c.dumps(p)) == Object(FieldsOf(p))
  }

  predicate IsAscii(s: string) {
    forall i | 0 <= i < |s| :: s[i] as int < 128
  }

  function Norm(c: Codec, s: string): string {
    c.lower(Strip(s))
  }

  /** The identity a token speaks for: id, role and team, each stripped and lower-cased. */
  function Identity(c: Codec, id: string, role: string, team: string): (string, string, string) {
    (Norm(c, id), Norm(c, role), Norm(c, team))
  }

  function SigningPayload(t: (string, string, string)): string {
    t.0 + ":" + t.1 + ":" + t.2
  }

  /** The payload of an expiring token. */
  function PayloadOf(t: (string, string, string), ttl: real, now: real): Payload {
    Payload(t.0, t.1, t.2, now, now + ttl)
  }

  predicate Armed(secret: Option<string>) {
    secret.Some? && secret.value != ""
  }

  /** `issue_agent_token`: without a lifetime the bare hash of the identity, with one a signed payload. */
  function Issue(c: Codec, secret: Option<string>, id: string, role: string, team: string,
                 ttl: Option<real>, now: real): string
  {
    if !Armed(secret) then UNSIGNED
    else
      var t := Identity(c, id, role, team);
      match ttl
      case None => c.mac(secret.value, SigningPayload(t))
      case Some(seconds) =>
        var pb := Encode(c.dumps(PayloadOf(t, seconds, now)));
        pb + "." + c.mac(secret.value, pb)
  }

  /** Verification answers, or raises where the hash comparison or the payload lookup does. */
  datatype Verdict = Accepts | Rejects | Raises

  /** `token.rpartition(".")`: the index of the last dot. */
  function LastDot(token: string): (n: nat)
    requires '.' in token
    ensures n < |token| && token[n] == '.' && '.' !in token[n + 1..]
  {
    if token[|token| - 1] == '.' then |token| - 1
    else
      assert token == token[..|token| - 1] + [token[|token| - 1]];
      LastDot(token[..|token| - 1])
  }

  function JudgeFields(fields: map<string, Json>, expected: (string, string, string), now: real): Verdict {
    if "exp" !in fields || !fields["exp"].Num? then Rejects
    else if
      && "id" in fields && fields["id"] == Str(expected.0)
      && "role" in fields && fields["role"] == Str(expected.1)
      && "team" in fields && fields["team"] == Str(expected.2)
      && fields["exp"].value > now
    then Accepts
    else Rejects
  }

  function VerifyExpiring(c: Codec, token: string, secret: string, expected: (string, string, string), now: real): Verdict
    requires '.' in token
  {
    var n := LastDot(token);
    var pb, sig := token[..n], token[n + 1..];
    if !IsAscii(pb) || !IsAscii(sig) then Raises
    else if c.mac(secret, pb) != sig then Rejects
    else match Decode(pb)
      case None => Rejects
      case Some(bytes) =>
        match c.loads(bytes) {
          case Malformed => Rejects
          case NotAnObject => Raises
          case Object(fields) => JudgeFields(fields, expected, now)
        }
  }

  /** `verify_agent_token` */
  function Verify(c: Codec, secret: Option<string>, token: string, id: string, role: string, team: string, now: real): Verdict {
    if !Armed(secret) || token == "" || token == UNSIGNED then Rejects
    else
      var t := Identity(c, id, role, team);
      if '.' in token then VerifyExpiring(c, token, secret.value, t, now)
      else if !IsAscii(token) then Raises
      else if c.mac(secret.value, SigningPayload(t)) == token then Accepts
      else Rejects
  }

  lemma HexIsPlain(s: string)
    requires IsHex(s)
    ensures '.' !in s && IsAscii(s) && s != UNSIGNED
  {
    assert s[0] != 'U';
  }

  lemma {:induction false} LastDotIs(pb: string, sig: string)
    requires '.' !in sig
    ensures '.' in pb + "." + sig && LastDot(pb + "." + sig) == |pb|
    decreases |sig|
  {
    var token := pb + "." + sig;
    assert token[|pb|] == '.';
    if sig != "" {
      assert token[..|token| - 1] == pb + "." + sig[..|sig| - 1];
      LastDotIs(pb, sig[..|sig| - 1]);
      assert token[|token| - 1] == sig[|sig| - 1];
    }
  }

  /** A signed payload is judged by its fields. */
  lemma SignedIsJudged(c: Codec, key: string, bytes: seq<Byte>, expected: (string, string, string), now: real)
    requires IsHex(c.mac(key, Encode(bytes))) && c.loads(bytes).Object?
    ensures var token := Encode(bytes) + "." + c.mac(key, Encode(bytes));
            && '.' in token && token != "" && token != UNSIGNED
            && VerifyExpiring(c, token, key, expected, now) == JudgeFields(c.loads(bytes).fields, expected, now)
  {
    hide IsHex, Encode, Decode, LastDot, JudgeFields, IsAscii;
    SentinelHasNoDot();
    var pb := Encode(bytes);
    var sig := c.mac(key, pb);
    HexIsPlain(sig);
    CutAtLastDot(pb + "." + sig, pb, sig);
    PlainIsAscii(bytes);
    RoundTrip(bytes);
  }

  lemma PlainIsAscii(bytes: seq<Byte>)
    ensures IsAscii(Encode(bytes))
  {
    hide Encode;
    EncodedIsPlain(bytes);
  }

  lemma OwnFieldsJudged(p: Payload, expected: (string, string, string), now: real)
    ensures JudgeFields(FieldsOf(p), expected, now) ==
            if (p.id, p.role, p.team) == expected && now < p.exp then Accepts else Rejects
  {
  }

  /**
   A minted expiring token is accepted exactly for the identities whose parts are the same once stripped and lower-cased,
   and strictly before its expiry; in every other case verification answers no, and it never raises.
   */
  lemma ExpiringTokenRoundTrip(c: Codec, secret: Option<string>, ttl: real, minted: real, now: real,
                               id: string, role: string, team: string, id': string, role': string, team': string)
    requires secret.Some? && secret.value != "" && HexMac(c, secret.value)
    requires ReadsBack(c, Payload(c.lower(Strip(id)), c.lower(Strip(role)), c.lower(Strip(team)), minted, minted + ttl))
    ensures Verify(c, secret, Issue(c, secret, id, role, team, Some(ttl), minted), id', role', team', now) ==
            if && c.lower(Strip(id)) == c.lower(Strip(id')) && c.lower(Strip(role)) == c.lower(Strip(role'))
               && c.lower(Strip(team)) == c.lower(Strip(team')) && now < minted + ttl
            then Accepts else Rejects
  {
    hide Strip, IsHex, Encode, VerifyExpiring, JudgeFields, FieldsOf;
    var t, t' := Identity(c, id, role, team), Identity(c, id', role', team');
    var p := PayloadOf(t, ttl, minted);
    assert IsHex(c.mac(secret.value, Encode(c.dumps(p))));
    SignedIsJudged(c, secret.value, c.dumps(p), t', now);
    OwnFieldsJudged(p, t', now);
  }

  /** The fields name the identity and have not expired. */
  lemma JudgedExactly(c: Codec, fields: map<string, Json>, id: string, role: string, team: string, now: real)
    ensures JudgeFields(fields, Identity(c, id, role, team), now) ==
            if && "id" in fields && fields["id"] == Str(c.lower(Strip(id)))
               && "role" in fields && fields["role"] == Str(c.lower(Strip(role)))
               && "team" in fields && fields["team"] == Str(c.lower(Strip(team)))
               && "exp" in fields && fields["exp"].Num? && fields["exp"].value > now
            then Accepts else Rejects
  {
    hide Strip;
  }

  /** Which tokens with a dot are accepted: a payload signed with this secret that names the identity and is not expired. */
  lemma AcceptedIffSignedAndCurrent(c: Codec, secret: Option<string>, token: string,
                                    id: string, role: string, team: string, now: real)
    requires secret.Some? && secret.value != "" && HexMac(c, secret.value) && '.' in token
    ensures Verify(c, secret, token, id, role, team, now) == Accepts <==>
            exists pb: string, fields: map<string, Json> ::
              && token == pb + "." + c.mac(secret.value, pb) && IsAscii(pb)
              && Decode(pb).Some? && c.loads(Decode(pb).value) == Object(fields)
              && "id" in fields && fields["id"] == Str(c.lower(Strip(id)))
              && "role" in fields && fields["role"] == Str(c.lower(Strip(role)))
              && "team" in fields && fields["team"] == Str(c.lower(Strip(team)))
              && "exp" in fields && fields["exp"].Num? && fields["exp"].value > now
  {
    hide Norm, IsHex, Decode, LastDot, JudgeFields, IsAscii, Strip, Identity;
    SentinelHasNoDot();
    var n := LastDot(token);
    assert token == token[..n] + "." + token[n + 1..];
    forall fields: map<string, Json>
      ensures JudgeFields(fields, Identity(c, id, role, team), now) == Accepts <==>
              && "id" in fields && fields["id"] == Str(c.lower(Strip(id)))
              && "role" in fields && fields["role"] == Str(c.lower(Strip(role)))
              && "team" in fields && fields["team"] == Str(c.lower(Strip(team)))
              && "exp" in fields && fields["exp"].Num? && fields["exp"].value > now
    {
      JudgedExactly(c, fields, id, role, team, now);
    }
    forall pb | token == pb + "." + c.mac(secret.value, pb)
      ensures token[..n] == pb && token[n + 1..] == c.mac(secret.value, pb) && IsAscii(c.mac(secret.value, pb))
    {
      HexIsPlain(c.mac(secret.value, pb));
      CutAtLastDot(token, pb, c.mac(secret.value, pb));
    }
  }

  lemma SentinelHasNoDot()
    ensures '.' !in UNSIGNED
  {
  }

  lemma CutAtLastDot(token: string, pb: string, sig: string)
    requires token == pb + "." + sig && '.' !in sig
    ensures '.' in token && token[..LastDot(token)] == pb && token[LastDot(token) + 1..] == sig
  {
    hide LastDot;
    LastDotIs(pb, sig);
  }

  /**
   When verification raises instead of answering, with a secret set: on text that is not ASCII, in the signature or
   before it, and on a payload that is properly signed and JSON, but no object.
   */
  lemma RaisesExactly(c: Codec, secret: Option<string>, token: string,
                      id: string, role: string, team: string, now: real)
    requires secret.Some? && secret.value != ""
    ensures '.' !in token ==> (Verify(c, secret, token, id, role, team, now) == Raises <==> !IsAscii(token))
    ensures '.' in token ==>
              (Verify(c, secret, token, id, role, team, now) == Raises <==>
               exists pb, sig ::
                 && token == pb + "." + sig && '.' !in sig
                 && (|| !IsAscii(token)
                     || (sig == c.mac(secret.value, pb) && Decode(pb).Some? && c.loads(Decode(pb).value).NotAnObject?)))
  {
    hide Norm, Decode, LastDot, JudgeFields, Identity, IsAscii;
    SentinelHasNoDot();
    SentinelIsAscii();
    if '.' in token {
      var n := LastDot(token);
      AsciiAround(token[..n], token[n + 1..]);
      assert token == token[..n] + "." + token[n + 1..];
      forall pb, sig | token == pb + "." + sig && '.' !in sig
        ensures pb == token[..n] && sig == token[n + 1..]
      {
        CutAtLastDot(token, pb, sig);
      }
      FieldsNeverRaise(c, id, role, team, now);
    }
  }

  lemma SentinelIsAscii()
    ensures IsAscii(UNSIGNED) && IsAscii("")
  {
  }

  lemma AsciiAround(pb: string, sig: string)
    ensures IsAscii(pb + "." + sig) <==> IsAscii(pb) && IsAscii(sig)
  {
    var token := pb + "." + sig;
    assert token[..|pb|] == pb && token[|pb| + 1..] == sig;
  }

  lemma FieldsNeverRaise(c: Codec, id: string, role: string, team: string, now: real)
    ensures forall fields :: JudgeFields(fields, Identity(c, id, role, team), now) != Raises
  {
  }

  /** Without a secret nothing but the sentinel is minted and nothing is accepted, the sentinel least of all. */
  lemma FailsClosed(c: Codec, secret: Option<string>, token: string, id: string, role: string, team: string,
                    ttl: Option<real>, now: real)
    ensures secret in [None, Some("")] ==> Issue(c, secret, id, role, team, ttl, now) == "UNSIGNED"
    ensures secret in [None, Some("")] ==> Verify(c, secret, token, id, role, team, now) == Rejects
    ensures Verify(c, secret, "UNSIGNED", id, role, team, now) == Rejects
    ensures secret !in [None, Some("")] && HexMac(c, secret.value) ==>
              Issue(c, secret, id, role, team, ttl, now) != "UNSIGNED"
  {
    hide Norm, IsHex, Encode;
    if Armed(secret) && HexMac(c, secret.value) {
      var t := Identity(c, id, role, team);
      match ttl
      case None =>
        HexIsPlain(c.mac(secret.value, SigningPayload(t)));
      case Some(seconds) =>
        var pb := Encode(c.dumps(PayloadOf(t, seconds, now)));
        HexIsPlain(c.mac(secret.value, pb));
        LastDotIs(pb, c.mac(secret.value, pb));
        assert '.' !in UNSIGNED;
    }
  }

  predicate ColonFree(t: (string, string, string)) {
    ':' !in t.0 && ':' !in t.1 && ':' !in t.2
  }

  /** Joining with colons keeps apart the identities whose parts have none. */
  lemma SigningPayloadInjective(a: (string, string, string), b: (string, string, string))
    requires ColonFree(a) && ColonFree(b)
    ensures SigningPayload(a) == SigningPayload(b) <==> a == b
  {
    hide SplitOn, JoinWith;
    PayloadParts(a);
    PayloadParts(b);
    assert a == (([a.0, a.1, a.2])[0], ([a.0, a.1, a.2])[1], ([a.0, a.1, a.2])[2]);
    assert b == (([b.0, b.1, b.2])[0], ([b.0, b.1, b.2])[1], ([b.0, b.1, b.2])[2]);
  }

  lemma PayloadParts(t: (string, string, string))
    requires ColonFree(t)
    ensures SplitOn(SigningPayload(t), ':') == [t.0, t.1, t.2]
  {
    hide SplitOn;
    var parts := [t.0, t.1, t.2];
    assert parts[1..] == [t.1, t.2] && parts[1..][1..] == [t.2];
    assert JoinWith(parts[1..], ':') == t.1 + ":" + t.2;
    assert JoinWith(parts, ':') == t.0 + ":" + (t.1 + ":" + t.2);
    assert t.0 + ":" + (t.1 + ":" + t.2) == SigningPayload(t);
    SplitJoin(parts, ':');
  }

  /** Under one key, the hash does not collide on these two messages. */
  predicate Separates(c: Codec, key: string, m: string, n: string) {
    c.mac(key, m) == c.mac(key, n) ==> m == n
  }

  /**
   A minted static token is accepted at any time, for exactly the identities whose hash is the same: but for a
   collision, those whose parts, stripped, lower-cased and joined with colons, give the same text, and among identities
   without colons only those whose parts are the same one by one.
   */
  lemma StaticTokenRoundTrip(c: Codec, secret: Option<string>, minted: real, now: real,
                             id: string, role: string, team: string, id': string, role': string, team': string)
    requires secret.Some? && secret.value != "" && HexMac(c, secret.value)
    ensures var a := (c.lower(Strip(id)), c.lower(Strip(role)), c.lower(Strip(team)));
            var b := (c.lower(Strip(id')), c.lower(Strip(role')), c.lower(Strip(team')));
            var m, n := a.0 + ":" + a.1 + ":" + a.2, b.0 + ":" + b.1 + ":" + b.2;
            var verdict := Verify(c, secret, Issue(c, secret, id, role, team, None, minted), id', role', team', now);
            && verdict == (if c.mac(secret.value, m) == c.mac(secret.value, n) then Accepts else Rejects)
            && (Separates(c, secret.value, m, n) ==>
                  && verdict == (if m == n then Accepts else Rejects)
                  && (ColonFree(a) && ColonFree(b) ==> verdict == if a == b then Accepts else Rejects))
  {
    hide Strip, IsHex, ColonFree;
    var a, b := Identity(c, id, role, team), Identity(c, id', role', team');
    var sig := c.mac(secret.value, SigningPayload(a));
    HexIsPlain(sig);
    HexNonempty(sig);
    if ColonFree(a) && ColonFree(b) {
      SigningPayloadInjective(a, b);
    }
  }

  lemma HexNonempty(s: string)
    requires IsHex(s)
    ensures s != ""
  {
  }

  /** With a colon in an id or a role, a static token is accepted for an identity it was not minted for. */
  lemma ColonsConfuseIdentities(c: Codec, secret: Option<string>, minted: real, now: real)
    requires Armed(secret) && HexMac(c, secret.value)
    requires forall s | s in ["a:b", "c", "a", "b:c", ""] :: c.lower(s) == s
    ensures Identity(c, "a:b", "c", "") != Identity(c, "a", "b:c", "")
    ensures Verify(c, secret, Issue(c, secret, "a:b", "c", "", None, minted), "a", "b:c", "", now) == Accepts
  {
    hide IsHex, Strip, Verify, Issue;
    var words := ["a:b", "c", "a", "b:c", ""];
    assert words[0] in words && words[1] in words && words[2] in words && words[3] in words && words[4] in words;
    LettersStrip("a:b");
    LettersStrip("c");
    LettersStrip("a");
    LettersStrip("b:c");
    LettersStrip("");
    var a, b := ("a:b", "c", ""), ("a", "b:c", "");
    assert a.0 != b.0;
    assert SigningPayload(a) == "a:b:c:" == SigningPayload(b);
    StaticTokenRoundTrip(c, secret, minted, now, "a:b", "c", "", "a", "b:c", "");
  }

  lemma LettersAreNoSpace()
    ensures forall ch | 'a' <= ch <= 'z' :: !IsSpace(ch)
  {
  }

  lemma LettersStrip(s: string)
    requires s != "" ==> 'a' <= s[0] <= 'z' && 'a' <= s[|s| - 1] <= 'z'
    ensures Strip(s) == s
  {
    LettersAreNoSpace();
    hide IsSpace, Strip;
    TrimFixed(s);
  }

  // ---- The assumptions can be met ----

  /** Lower-casing for ASCII letters. */
  function LowerAscii(s: string): string {
    if s == "" then ""
    else [if 'A' <= s[0] <= 'Z' then (s[0] as int + 32) as char else s[0]] + LowerAscii(s[1..])
  }

  /** A codec for one payload, with a hash that tells `m` from every other message. */
  function SampleCodec(p: Payload, m: string): Codec {
    Codec((key, message) => if message == m then "a" else "b", q => [], bytes => Object(FieldsOf(p)), LowerAscii)
  }

  /** For every minting there is a codec that the round trips apply to, and it separates any message from `m`. */
  lemma AssumptionsCanBeMet(key: string, id: string, role: string, team: string, ttl: real, minted: real,
                            m: string, n: string)
    ensures var p := Payload(LowerAscii(Strip(id)), LowerAscii(Strip(role)), LowerAscii(Strip(team)), minted, minted + ttl);
            var c := SampleCodec(p, m);
            && HexMac(c, key) && Separates(c, key, m, n)
            && ReadsBack(c, Payload(c.lower(Strip(id)), c.lower(Strip(role)), c.lower(Strip(team)), minted, minted + ttl))
  {
    LettersAreHex();
    hide Strip, IsHex, FieldsOf, LowerAscii;
    var p := Payload(LowerAscii(Strip(id)), LowerAscii(Strip(role)), LowerAscii(Strip(team)), minted, minted + ttl);
    var c := SampleCodec(p, m);
    assert "a"[0] != "b"[0];
  }

  lemma LettersAreHex()
    ensures IsHex("a") && IsHex("b")
  {
  }
}
