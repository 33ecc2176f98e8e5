/** Revocation notifications: what they are about, and what handling them leaves in a cache. */
module Revocation {
  import opened Common
  import opened Hex
  import opened Text

  // ----- Identifiers and payloads ----------------------------------------------------------------

  type Uuid = u: Bytes | |u| == 16 witness seq(16, _ => 0)

  /** Canonical text: lowercase hex in groups of 8, 4, 4, 4 and 12 digits. */
  function UuidText(u: Uuid): (s: string)
    ensures |s| == 36 && forall i :: 0 <= i < |s| ==> IsLowerHex(s[i]) || s[i] == '-'
  {
    HexOf(u[..4]) + ['-'] + HexOf(u[4..6]) + ['-'] + HexOf(u[6..8]) + ['-'] + HexOf(u[8..10]) + ['-'] + HexOf(u[10..])
  }

  lemma UuidParts(u: Uuid)
    ensures var s := UuidText(u);
            && s[..8] == HexOf(u[..4]) && s[9..13] == HexOf(u[4..6]) && s[14..18] == HexOf(u[6..8])
            && s[19..23] == HexOf(u[8..10]) && s[24..] == HexOf(u[10..])
  {
  }

  lemma SameParts(u: Uuid, u': Uuid)
    requires u[..4] == u'[..4] && u[4..6] == u'[4..6] && u[6..8] == u'[6..8] && u[8..10] == u'[8..10] && u[10..] == u'[10..]
    ensures u == u'
  {
    assert u == u[..4] + u[4..6] + u[6..8] + u[8..10] + u[10..];
    assert u' == u'[..4] + u'[4..6] + u'[6..8] + u'[8..10] + u'[10..];
  }

  lemma UuidTextInjective(u: Uuid, u': Uuid)
    requires UuidText(u) == UuidText(u')
    ensures u == u'
  {
    UuidParts(u);
    UuidParts(u');
    HexInjective(u[..4], u'[..4]);
    HexInjective(u[4..6], u'[4..6]);
    HexInjective(u[6..8], u'[6..8]);
    HexInjective(u[8..10], u'[8..10]);
    HexInjective(u[10..], u'[10..]);
    SameParts(u, u');
  }

  const USER_PREFIX := "user:"

  function TokenPayload(t: Uuid): string {
    UuidText(t)
  }

  function UserPayload(u: Uuid): string {
    USER_PREFIX + UuidText(u)
  }

  /** The identifier parser, and the user each token belongs to. */
  datatype Env = Env(parse: string -> Option<Uuid>, owner: Uuid -> Uuid)

  /** Canonical text is read back; of other text nothing is asked. */
  ghost predicate ReadsCanonical(env: Env) {
    forall u: Uuid :: env.parse(UuidText(u)) == Some(u)
  }

  /** The payload names the token or, after the prefix, the user it belongs to. */
  predicate Addresses(env: Env, payload: string, t: Uuid) {
    if USER_PREFIX <= payload then env.parse(Trim(payload[|USER_PREFIX|..])) == Some(env.owner(t))
    else env.parse(Trim(payload)) == Some(t)
  }

  lemma CanonicalText(u: Uuid)
    ensures Trim(UuidText(u)) == UuidText(u) && !(USER_PREFIX <= UuidText(u))
    ensures USER_PREFIX <= UserPayload(u) && UserPayload(u)[|USER_PREFIX|..] == UuidText(u)
  {
    var s := UuidText(u);
    assert !IsWhitespace(s[0]) && !IsWhitespace(s[35]) && s[0] != 'u';
    assert !(USER_PREFIX <= s) by {
      assert USER_PREFIX[0] == 'u';
    }
    assert UserPayload(u)[..|USER_PREFIX|] == USER_PREFIX;
  }

  /** A parser as asked for exists, because no two identifiers have the same text. */
  lemma ReadsCanonicalIsMet(owner: Uuid -> Uuid) returns (env: Env)
    ensures ReadsCanonical(env) && env.owner == owner
  {
    env := Env(s => if exists u: Uuid :: UuidText(u) == s then Some(var u: Uuid :| UuidText(u) == s; u) else None, owner);
    forall u: Uuid ensures env.parse(UuidText(u)) == Some(u) {
      assert env.parse(UuidText(u)).Some?;
      UuidTextInjective(env.parse(UuidText(u)).value, u);
    }
  }

  /** A notification as the repositories send it: about a token, or about a user. */
  ghost predicate Canonical(payload: string) {
    exists u: Uuid :: payload == TokenPayload(u) || payload == UserPayload(u)
  }

  /** A canonical notification is about exactly the token it was sent for, or its user's tokens. */
  lemma CanonicalAddresses(env: Env, payload: string, t: Uuid)
    requires ReadsCanonical(env) && Canonical(payload)
    ensures Addresses(env, payload, t) <==> payload == TokenPayload(t) || payload == UserPayload(env.owner(t))
  {
    var u: Uuid :| payload == TokenPayload(u) || payload == UserPayload(u);
    CanonicalText(u);
    CanonicalText(t);
    CanonicalText(env.owner(t));
  }

  /** A notification about `t` is still queued. */
  ghost predicate Pending(env: Env, queue: seq<string>, t: Uuid) {
    TokenPayload(t) in queue || UserPayload(env.owner(t)) in queue
  }

  /** The cached tokens a payload is not about. */
  function Spared(env: Env, cache: set<Uuid>, payload: string): set<Uuid> {
    set t | t in cache && !Addresses(env, payload, t)
  }

  class TokenCache {
    var tokens: set<Uuid>
    const env: Env

    constructor (env: Env)
      ensures this.env == env && tokens == {}
    {
      this.env := env;
      tokens := {};
    }

    /** Route one notification; what is neither a token nor a user is ignored. */
    method DispatchPayload(payload: string)
      modifies this`tokens
      ensures tokens == Spared(env, old(tokens), payload)
    {
      if USER_PREFIX <= payload {
        var user := env.parse(Trim(payload[|USER_PREFIX|..]));
        if user.Some? {
          tokens := set t | t in tokens && env.owner(t) != user.value;
        }
        return;
      }
      var token := env.parse(Trim(payload));
      if token.Some? {
        tokens := tokens - {token.value};
      }
    }

    /**
     Dispatch the notifications of a connection, until it is lost. Exactly those cached tokens remain
     that no notification is about; where all are canonical, those for which none was sent.
     */
    method RunRecvLoop(payloads: seq<string>)
      modifies this`tokens
      ensures forall t :: t in tokens <==> t in old(tokens) && forall i :: 0 <= i < |payloads| ==> !Addresses(env, payloads[i], t)
      ensures ReadsCanonical(env) && (forall i :: 0 <= i < |payloads| ==> Canonical(payloads[i])) ==>
                forall t :: t in tokens <==> t in old(tokens) && !Pending(env, payloads, t)
    {
      for i := 0 to |payloads|
        invariant forall t :: t in tokens <==> t in old(tokens) && forall j :: 0 <= j < i ==> !Addresses(env, payloads[j], t)
      {
        DispatchPayload(payloads[i]);
      }
      if ReadsCanonical(env) && forall i :: 0 <= i < |payloads| ==> Canonical(payloads[i]) {
        forall t ensures t in tokens <==> t in old(tokens) && !Pending(env, payloads, t) {
          PendingAddresses(env, payloads, t);
        }
      }
    }
  }

  lemma PendingAddresses(env: Env, payloads: seq<string>, t: Uuid)
    requires ReadsCanonical(env) && forall i :: 0 <= i < |payloads| ==> Canonical(payloads[i])
    ensures Pending(env, payloads, t) <==> exists i :: 0 <= i < |payloads| && Addresses(env, payloads[i], t)
  {
    forall i | 0 <= i < |payloads|
      ensures Addresses(env, payloads[i], t) <==> payloads[i] == TokenPayload(t) || payloads[i] == UserPayload(env.owner(t))
    {
      CanonicalAddresses(env, payloads[i], t);
    }
  }
}
