/** The auth gate in front of every route: a bearer-header check, the token cut out of
    the header, and the outcome of an external token verifier. */
module AuthGate {
  import opened Js

  /** What the verifier decodes from a valid token; the email may be absent. */
  datatype Claims = Claims(uid: string, email: Option<string>)

  /** How a request leaves the gate: rejected with 401 or 403, or passed on with claims. */
  datatype GateOutcome = Unauth401 | Forbidden403 | Proceed(claims: Claims)

  const Bearer: string := "Bearer "

  /** `s.startsWith(p)` */
  predicate StartsWith(s: string, p: string)
  {
    |p| <= |s| && s[..|p|] == p
  }

  /** `authHeader && authHeader.startsWith('Bearer ')`: present and prefixed by
      "Bearer " with exactly that case (an empty header has no such prefix). */
  predicate HasBearer(header: Option<string>)
  {
    header.Some? && StartsWith(header.value, Bearer)
  }

  /** `rest.split('Bearer ')[0]`: the text before the first occurrence of "Bearer ". */
  function UpToBearer(rest: string): string
  {
    if rest == [] then []
    else if StartsWith(rest, Bearer) then []
    else [rest[0]] + UpToBearer(rest[1..])
  }

  /** `header.split('Bearer ')[1]` for a header that starts with "Bearer ". */
  function Token(header: string): string
    requires StartsWith(header, Bearer)
  {
    UpToBearer(header[|Bearer|..])
  }

  /** The outcome of the gate for a header, given the verifier (`None` is a rejected token). */
  function Gate(header: Option<string>, verify: string -> Option<Claims>): GateOutcome
  {
    if !HasBearer(header) then Unauth401
    else
      match verify(Token(header.value))
      case Some(c) => Proceed(c)
      case None => Forbidden403
  }

  /** The token is the longest prefix of the text after "Bearer " in which no further
      "Bearer " starts: all of that text when there is none, else up to the next one. */
  lemma {:induction false} UpToBearerSpec(rest: string)
    ensures var t := UpToBearer(rest);
      && |t| <= |rest| && t == rest[..|t|]
      && (forall i :: 0 <= i < |t| ==> !StartsWith(rest[i..], Bearer))
      && (|t| == |rest| || StartsWith(rest[|t|..], Bearer))
  {
    if rest != [] && !StartsWith(rest, Bearer) {
      UpToBearerSpec(rest[1..]);
      var t := UpToBearer(rest);
      forall i | 0 <= i < |t|
        ensures !StartsWith(rest[i..], Bearer)
      {
        if i > 0 {
          assert rest[i..] == rest[1..][i - 1..];
        }
      }
      assert rest[|t|..] == rest[1..][|t| - 1..];
    }
  }

  /** Those three facts single the token out: no other prefix has them. */
  lemma UpToBearerUnique(rest: string, t: string)
    requires |t| <= |rest| && t == rest[..|t|]
    requires forall i :: 0 <= i < |t| ==> !StartsWith(rest[i..], Bearer)
    requires |t| == |rest| || StartsWith(rest[|t|..], Bearer)
    ensures t == UpToBearer(rest)
  {
    UpToBearerSpec(rest);
    var u := UpToBearer(rest);
    // neither can stop before the other: at the shorter length a "Bearer " starts
    // (or the text ends), which the longer one rules out
    assert |u| == |rest| || StartsWith(rest[|u|..], Bearer);
    assert |t| == |rest| || StartsWith(rest[|t|..], Bearer);
    assert |t| == |u|;
  }

  /** A missing or malformed header is refused with 401 whatever the verifier would
      say: the verifier is not consulted. */
  lemma BadHeaderSkipsVerifier(header: Option<string>, v1: string -> Option<Claims>, v2: string -> Option<Claims>)
    requires !HasBearer(header)
    ensures Gate(header, v1) == Gate(header, v2) == Unauth401
  {
  }

  /** With a bearer header the outcome depends on the verifier's answer for the token
      alone: claims pass on, a rejection is a 403. */
  lemma GateFollowsVerifier(header: Option<string>, verify: string -> Option<Claims>, other: string -> Option<Claims>)
    requires HasBearer(header)
    ensures verify(Token(header.value)).Some? ==> Gate(header, verify) == Proceed(verify(Token(header.value)).value)
    ensures verify(Token(header.value)).None? ==> Gate(header, verify) == Forbidden403
    ensures other(Token(header.value)) == verify(Token(header.value)) ==> Gate(header, other) == Gate(header, verify)
  {
  }

  /** The request and response objects as far as the gate touches them. */
  class Exchange {
    const authorization: Option<string>
    /** `req.usuario` */
    var usuario: Option<Claims>
    /** The status of the response written, if one was. */
    var status: Option<int>
    /** How many times `next()` was called. */
    var nextCalls: nat

    constructor (authorization: Option<string>)
      ensures this.authorization == authorization
      ensures usuario == None && status == None && nextCalls == 0
    {
      this.authorization := authorization;
      usuario := None;
      status := None;
      nextCalls := 0;
    }
  }

  /** `verificarToken`: either a response (401 or 403) is written and `next` is not
      called, or the claims are attached as `req.usuario` and `next` is called once
      with no response written. */
  method VerificarToken(ex: Exchange, verify: string -> Option<Claims>) returns (outcome: GateOutcome)
    modifies ex
    ensures outcome == Gate(ex.authorization, verify)
    ensures outcome.Proceed? ==>
      ex.usuario == Some(outcome.claims) && ex.nextCalls == old(ex.nextCalls) + 1 && ex.status == old(ex.status)
    ensures !outcome.Proceed? ==>
      && ex.usuario == old(ex.usuario) && ex.nextCalls == old(ex.nextCalls)
      && ex.status == Some(if outcome.Unauth401? then 401 else 403)
  {
    var authHeader := ex.authorization;
    if authHeader.None? || authHeader.value == "" || !StartsWith(authHeader.value, Bearer) {
      ex.status := Some(401);
      return Unauth401;
    }
    var idToken := Token(authHeader.value);
    var decodedToken := verify(idToken);
    if decodedToken.None? {
      ex.status := Some(403);
      return Forbidden403;
    }
    ex.usuario := decodedToken;
    ex.nextCalls := ex.nextCalls + 1;
    outcome := Proceed(decodedToken.value);
  }
}
