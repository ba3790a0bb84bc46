/** The bearer-token codec. Signing and verification belong to the `jsonwebtoken`
    library and are parameters here; only the header parsing is modelled in full. */
module Jwt {
  import opened Wrappers

  /** The payload login signs: `{ userId, email, role }`. `role` is optional because a
      verified token from elsewhere need not carry one. */
  datatype Claims = Claims(userId: string, email: string, role: Option<string>)

  /** `verifyToken`: a total function that answers `null` for every failure (bad
      signature, malformed token, expiry) instead of throwing. */
  type Verifier = string -> Option<Claims>

  /** The `expiresIn: '1d'` option, in seconds. */
  const OneDaySeconds: nat := 86400

  /** What is handed to `jwt.sign`: the payload and its lifetime. */
  datatype SignRequest = SignRequest(payload: Claims, expiresInSeconds: nat)

  /** `jwt.sign` under the server secret. */
  type Signer = SignRequest -> string

  const BearerPrefix := "Bearer "

  /** `getTokenFromRequest`: the Authorization header with its case-sensitive
      `Bearer ` prefix removed, or nothing when the header is absent or differs. */
  function TokenFromHeader(authorization: Option<string>): (token: Option<string>)
    ensures token.Some? <==> authorization.Some? && BearerPrefix <= authorization.value
    ensures token.Some? ==> BearerPrefix + token.value == authorization.value
    ensures token.Some? ==> |token.value| == |authorization.value| - |BearerPrefix|
  {
    if authorization.None? || !(BearerPrefix <= authorization.value) then None
    else
      var t := authorization.value[|BearerPrefix|..];
      assert BearerPrefix + t == authorization.value;
      Some(t)
  }

  /** Extraction inverts prefixing: a header built as `Bearer <t>` yields `t`. */
  lemma TokenFromBearerHeader(t: string)
    ensures TokenFromHeader(Some(BearerPrefix + t)) == Some(t)
  {
    assert BearerPrefix <= BearerPrefix + t;
    assert (BearerPrefix + t)[|BearerPrefix|..] == t;
  }

  /** The header `"Bearer "` on its own yields the empty token; a lower-case scheme yields none. */
  lemma TokenFromHeaderEdges()
    ensures TokenFromHeader(Some("Bearer ")) == Some("")
    ensures TokenFromHeader(Some("bearer abc")) == None
    ensures TokenFromHeader(None) == None
  {
    TokenFromBearerHeader("");
    assert !(BearerPrefix <= "bearer abc") by { assert "bearer abc"[0] != BearerPrefix[0]; }
  }

  /** `generateToken`: signs `payload` with the fixed one-day lifetime. */
  function GenerateToken(sign: Signer, payload: Claims): (token: string)
    ensures exists req: SignRequest :: req.payload == payload && req.expiresInSeconds == 86400 && token == sign(req)
  {
    var req := SignRequest(payload, OneDaySeconds);
    assert req.payload == payload && req.expiresInSeconds == 86400;
    sign(req)
  }
}
