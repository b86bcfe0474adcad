/**
 * Session tokens: `<sid>.<expire_at>.<id>`, where `sid` is a random
 * session id, `expire_at` the expiry time in seconds and `id` the user id.
 */
module Tokens {
  import opened Wrappers
  import opened Text
  import opened Numbers

  datatype Token = Token(id: string, expireAt: int, sid: string)

  /** How long a fresh token lives: 14 days, in seconds. */
  const Lifetime: int := 14 * 24 * 60 * 60

  /**
   * `Token::new`. The clock reading `nowS` (seconds) and the random session id
   * `sid` are parameters here.
   */
  function NewToken(id: string, nowS: int, sid: string): (t: Token)
    ensures t.id == id && t.sid == sid
    ensures t.expireAt == nowS + 1209600
  {
    Token(id, nowS + Lifetime, sid)
  }

  /**
   * `Token::to_string`: the three fields joined with dots; for a token with
   * dot-free strings these are exactly its dot-separated parts.
   */
  function ToString(t: Token): (r: string)
    ensures WellFormed(t) ==> Split(r, '.') == [t.sid, DecimalString(t.expireAt), t.id]
  {
    var e := DecimalString(t.expireAt);
    var r := t.sid + "." + e + "." + t.id;
    if WellFormed(t) then
      assert '.' !in e;
      assert r == t.sid + ['.'] + e + ['.'] + t.id;
      SplitThree(t.sid, e, t.id, '.');
      r
    else r
  }

  /** A token that survives printing and parsing: no dot in its strings, an `i64` expiry. */
  predicate WellFormed(t: Token) {
    '.' !in t.sid && '.' !in t.id && InI64(t.expireAt)
  }

  /**
   * `Token::parse`: exactly three dot-separated parts, the middle one an `i64`.
   */
  function Parse(s: string): (r: Option<Token>)
    ensures var parts := Split(s, '.');
      r.Some? <==> |parts| == 3 && ParseInt(parts[1], 10).Some?
    ensures r.Some? ==> WellFormed(r.value)
    ensures r.Some? ==> var parts := Split(s, '.');
      r.value.sid == parts[0] && r.value.id == parts[2]
      && r.value.expireAt == ParseInt(parts[1], 10).value
  {
    var parts := Split(s, '.');
    if |parts| != 3 then None
    else match ParseInt(parts[1], 10)
      case None => None
      case Some(expireAt) =>
        SplitPartsLackSeparator(s, '.');
        assert parts[0] in parts && parts[2] in parts;
        Some(Token(parts[2], expireAt, parts[0]))
  }

  /** `Token::is_valid`: three dot-separated parts, the middle one an `i64`. */
  function IsValid(s: string): (r: bool)
    ensures r <==> |Split(s, '.')| == 3 && ParseInt(Split(s, '.')[1], 10).Some?
  {
    Parse(s).Some?
  }

  /** Every well-formed token reads back from its printed form. */
  lemma ParseToString(t: Token)
    requires WellFormed(t)
    ensures Parse(ToString(t)) == Some(t)
    ensures IsValid(ToString(t))
  {
    ParseDecimalString(t.expireAt);
  }

  /** A parsed token prints to a string that parses to the same token. */
  lemma ParsedTokenReprints(s: string)
    requires Parse(s).Some?
    ensures Parse(ToString(Parse(s).value)) == Parse(s)
  {
    ParseToString(Parse(s).value);
  }

  /**
   * A fresh token for a server-generated (alphanumeric) user id and session id
   * is well formed as long as its expiry fits in an `i64`.
   */
  lemma NewTokenWellFormed(id: string, nowS: int, sid: string)
    requires IsAlphanumeric(id) && IsAlphanumeric(sid)
    requires InI64(nowS + Lifetime)
    ensures WellFormed(NewToken(id, nowS, sid))
    ensures Parse(ToString(NewToken(id, nowS, sid))) == Some(NewToken(id, nowS, sid))
  {
    ParseToString(NewToken(id, nowS, sid));
  }
}
