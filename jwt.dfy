/**
 * Signed bearer tokens (JSON Web Tokens signed with HMAC-SHA256, "HS256").
 * The message authentication code and the compact serialisation are foreign
 * code; they are function-valued fields of `Codec`, and the only thing the
 * model assumes of them is `Codec.Sound`: a serialised token parses back to
 * itself and is never the empty string.
 */
module Jwt {
  import opened Wrappers

  /** A token payload: claim name to integer value (an identity or an instant). */
  type Claims = map<string, int>

  /** The only signing algorithm the service issues and accepts. */
  const HS256: string := "HS256"

  /** Name of the registered expiry claim, in seconds since the epoch. */
  const EXP: string := "exp"

  /** A parsed token: header algorithm, payload, signature. */
  datatype Jws = Jws(alg: string, payload: Claims, signature: string)

  datatype Codec = Codec(
    mac: (string, string, Claims) -> string,   // mac(key, alg, payload)
    serialize: Jws -> string,
    parse: string -> Option<Jws>)
  {
    /** Parsing undoes serialisation, and a serialised token is never empty. */
    ghost predicate Sound() {
      forall j: Jws :: parse(serialize(j)) == Some(j) && serialize(j) != []
    }
  }

  /** Why a presented token is refused. */
  datatype TokenError = Malformed | DisallowedAlgorithm | BadSignature | Expired

  /** True when the payload carries an expiry at or before `now`. */
  predicate ExpiredAt(claims: Claims, now: int) {
    EXP in claims && claims[EXP] <= now
  }

  /** Signs `claims` with `key` under HS256 and serialises the result. */
  function Encode(codec: Codec, claims: Claims, key: string): (token: string)
    ensures codec.Sound() ==> token != [] && codec.parse(token) == Some(Jws(HS256, claims, codec.mac(key, HS256, claims)))
  {
    codec.serialize(Jws(HS256, claims, codec.mac(key, HS256, claims)))
  }

  /**
   * Parses `token`, accepts only HS256, checks the signature under `key`,
   * then refuses a payload whose expiry is at or before `now`.
   */
  function Decode(codec: Codec, token: string, key: string, now: int): (r: Result<Claims, TokenError>)
    ensures r.Success? <==>
      (codec.parse(token).Some?
       && codec.parse(token).value.alg == HS256
       && codec.parse(token).value.signature == codec.mac(key, HS256, codec.parse(token).value.payload)
       && !ExpiredAt(codec.parse(token).value.payload, now))
    ensures r.Success? ==> r.value == codec.parse(token).value.payload
  {
    match codec.parse(token)
    case None => Failure(Malformed)
    case Some(j) =>
      if j.alg != HS256 then Failure(DisallowedAlgorithm)
      else if j.signature != codec.mac(key, j.alg, j.payload) then Failure(BadSignature)
      else if ExpiredAt(j.payload, now) then Failure(Expired)
      else Success(j.payload)
  }

  /**
   * Round trip: a token this service signed decodes, under the same key, to
   * exactly the claims it was made from until its expiry, and is refused as
   * expired from then on.
   */
  lemma DecodeEncode(codec: Codec, claims: Claims, key: string, now: int)
    requires codec.Sound()
    ensures Decode(codec, Encode(codec, claims, key), key, now)
         == if ExpiredAt(claims, now) then Failure(Expired) else Success(claims)
  {
    var j := Jws(HS256, claims, codec.mac(key, HS256, claims));
    assert codec.parse(codec.serialize(j)) == Some(j);
  }

  /**
   * A token whose signature was made under another key (one whose code
   * differs) is refused whatever the time.
   */
  lemma ForeignKeyRejected(codec: Codec, claims: Claims, signer: string, key: string, now: int)
    requires codec.Sound()
    requires codec.mac(signer, HS256, claims) != codec.mac(key, HS256, claims)
    ensures Decode(codec, Encode(codec, claims, signer), key, now) == Failure(BadSignature)
  {
    var j := Jws(HS256, claims, codec.mac(signer, HS256, claims));
    assert codec.parse(codec.serialize(j)) == Some(j);
  }
}
