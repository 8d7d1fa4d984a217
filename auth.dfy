/** Session tokens and sign-in: a token is the URL-safe base64 of the JSON
    payload `{ sub, iat }`, a dot, and the URL-safe base64 of its
    HMAC-SHA256 under a fixed secret. */
module Auth {
  import opened Wrappers
  import opened Strings
  import opened Numbers
  import opened Db

  /** The demo signing secret. */
  const SECRET: string := "demo-secret-key-change-me"

  datatype SessionPayload = SessionPayload(sub: string, iat: int)

  /** The library calls the tokens are built from, taken as given:
      `base64OfUtf8` is base64 of the UTF-8 bytes of a string,
      `utf8OfBase64` its inverse (`None` where decoding throws),
      `hmacBase64(input, key)` base64 of HMAC-SHA256, and `stringify` and
      `parse` are `JSON.stringify` and `JSON.parse` of a payload. */
  datatype Primitives = Primitives(
    base64OfUtf8: string -> string,
    utf8OfBase64: string -> Option<string>,
    hmacBase64: (string, string) -> string,
    stringify: SessionPayload -> string,
    parse: string -> Option<SessionPayload>)

  // ------------------------------------------------------------- base64

  predicate InAlphabet(c: char) {
    'A' <= c <= 'Z' || 'a' <= c <= 'z' || '0' <= c <= '9' || c == '+' || c == '/'
  }

  /** Number of `=` characters ending `s`. */
  function PadCount(s: string): (n: nat)
    ensures n <= |s|
    ensures forall k :: |s| - n <= k < |s| ==> s[k] == '='
    ensures n < |s| ==> s[|s| - n - 1] != '='
  {
    if s != [] && s[|s| - 1] == '=' then PadCount(s[..|s| - 1]) + 1 else 0
  }

  /** Canonical padded base64: whole quartets of alphabet characters, the
      last one ending in at most two `=`. */
  predicate IsBase64(b: string) {
    |b| % 4 == 0 && PadCount(b) <= 2 &&
    forall i :: 0 <= i < |b| - PadCount(b) ==> InAlphabet(b[i])
  }

  /** The three letters URL-safe base64 changes: `+` to `-`, `/` to `_`, and
      trailing `=` dropped. */
  function UrlChar(c: char): char {
    if c == '+' then '-' else if c == '/' then '_' else c
  }

  function FromUrlChar(c: char): char {
    if c == '-' then '+' else if c == '_' then '/' else c
  }

  /** `.replace(/\+/g, "-").replace(/\//g, "_").replace(/=+$/g, "")`. */
  function ToUrlSafe(b64: string): (u: string)
    ensures |u| == |b64| - PadCount(b64)
    ensures forall i :: 0 <= i < |u| ==> u[i] == UrlChar(b64[i])
    ensures '+' !in u && '/' !in u && (u == [] || u[|u| - 1] != '=')
  {
    var n := |b64| - PadCount(b64);
    seq(n, i requires 0 <= i < n => UrlChar(b64[i]))
  }

  function Pads(n: nat): (r: string)
    ensures |r| == n && forall i :: 0 <= i < n ==> r[i] == '='
  {
    if n == 0 then "" else Pads(n - 1) + "="
  }

  /** The inverse replacements of `b64urlDecode`, then `=` padding up to a
      multiple of four characters. */
  function FromUrlSafe(u: string): (b: string)
    ensures |b| % 4 == 0 && |u| <= |b| < |u| + 4
    ensures forall i :: 0 <= i < |u| ==> b[i] == FromUrlChar(u[i])
    ensures forall i :: |u| <= i < |b| ==> b[i] == '='
  {
    var b := seq(|u|, i requires 0 <= i < |u| => FromUrlChar(u[i]));
    var pad := |b| % 4;
    if pad != 0 then b + Pads(4 - pad) else b
  }

  /** Canonical base64 survives the trip through its URL-safe form. */
  lemma UrlSafeRoundTrip(b: string)
    requires IsBase64(b)
    ensures FromUrlSafe(ToUrlSafe(b)) == b
  {
    var u := ToUrlSafe(b);
    var r := FromUrlSafe(u);
    var n := PadCount(b);
    assert |u| % 4 == (4 - n) % 4;
    assert |r| == |b|;
    forall i | 0 <= i < |b| ensures r[i] == b[i] {
      if i < |u| {
        assert InAlphabet(b[i]);
      }
    }
  }

  /** URL-safe base64 never holds the token separator. */
  lemma UrlSafeHasNoDot(b: string)
    requires IsBase64(b)
    ensures '.' !in ToUrlSafe(b)
  {
    var u := ToUrlSafe(b);
    forall i | 0 <= i < |u| ensures u[i] != '.' {
      assert InAlphabet(b[i]);
    }
  }

  /** `b64urlEncode(s)`: with well-behaved libraries the result holds no
      `.` and `B64UrlDecode` gives `s` back. */
  function B64UrlEncode(P: Primitives, s: string): (u: string)
    ensures WellBehaved(P) ==> '.' !in u && B64UrlDecode(P, u) == Some(s)
  {
    EncodeFacts(P, s);
    ToUrlSafe(P.base64OfUtf8(s))
  }

  lemma EncodeFacts(P: Primitives, s: string)
    ensures WellBehaved(P) ==>
      '.' !in ToUrlSafe(P.base64OfUtf8(s)) && P.utf8OfBase64(FromUrlSafe(ToUrlSafe(P.base64OfUtf8(s)))) == Some(s)
  {
    if WellBehaved(P) {
      UrlSafeHasNoDot(P.base64OfUtf8(s));
      UrlSafeRoundTrip(P.base64OfUtf8(s));
    }
  }

  /** `b64urlDecode(u)`. */
  function B64UrlDecode(P: Primitives, u: string): Option<string> {
    P.utf8OfBase64(FromUrlSafe(u))
  }

  /** `sign(input)`: the URL-safe HMAC of the input under `SECRET`; with
      well-behaved libraries it holds no `.`, so a token splits back into
      its two parts. */
  function Sign(P: Primitives, input: string): (sig: string)
    ensures WellBehaved(P) ==> '.' !in sig
  {
    SignFacts(P, input);
    ToUrlSafe(P.hmacBase64(input, SECRET))
  }

  lemma SignFacts(P: Primitives, input: string)
    ensures WellBehaved(P) ==> '.' !in ToUrlSafe(P.hmacBase64(input, SECRET))
  {
    if WellBehaved(P) {
      UrlSafeHasNoDot(P.hmacBase64(input, SECRET));
    }
  }

  /** What the token format needs of the libraries: base64 output is
      canonical, UTF-8/base64 decoding undoes encoding, and parsing undoes
      stringifying. */
  ghost predicate WellBehaved(P: Primitives) {
    (forall s :: IsBase64(P.base64OfUtf8(s)) && P.utf8OfBase64(P.base64OfUtf8(s)) == Some(s)) &&
    (forall input :: IsBase64(P.hmacBase64(input, SECRET))) &&
    (forall p :: P.parse(P.stringify(p)) == Some(p))
  }

  // -------------------------------------------------------------- tokens

  /** `mintSessionToken(userId)` at clock reading `now`: the issue time is
      in whole seconds. */
  function Mint(P: Primitives, userId: string, now: int): string {
    var payloadB64 := B64UrlEncode(P, P.stringify(SessionPayload(userId, FloorDiv(now, 1000))));
    payloadB64 + "." + Sign(P, payloadB64)
  }

  /** `verifySessionToken(token)`: rejects a missing or empty token, one
      that is not exactly two dot-separated parts, one whose second part is
      not the signature of the first, and one whose first part does not
      decode to a payload; an accepted token gives the payload its first
      part decodes and parses to. */
  function Verify(P: Primitives, token: Option<string>): (r: Option<SessionPayload>)
    ensures token.None? || token == Some("") ==> r.None?
    ensures r.Some? ==> (token.Some? && |Split(token.value, '.')| == 2 &&
                         Sign(P, Split(token.value, '.')[0]) == Split(token.value, '.')[1])
    ensures r.Some? ==> B64UrlDecode(P, Split(token.value, '.')[0]).Some? &&
                        r == P.parse(B64UrlDecode(P, Split(token.value, '.')[0]).value)
    ensures token.Some? && token.value != "" && |Split(token.value, '.')| == 2 &&
            Sign(P, Split(token.value, '.')[0]) == Split(token.value, '.')[1] ==>
              (B64UrlDecode(P, Split(token.value, '.')[0]).None? ==> r.None?) &&
              (B64UrlDecode(P, Split(token.value, '.')[0]).Some? ==>
                 r == P.parse(B64UrlDecode(P, Split(token.value, '.')[0]).value))
  {
    if token == None || token.value == "" then None
    else
      var parts := Split(token.value, '.');
      if |parts| != 2 then None
      else if Sign(P, parts[0]) != parts[1] then None
      else match B64UrlDecode(P, parts[0])
        case None => None
        case Some(json) => P.parse(json)
  }

  /** `token` is a dot-free payload part, a dot, and that part's signature. */
  ghost predicate SignedToken(P: Primitives, token: string, payloadB64: string) {
    '.' !in payloadB64 && '.' !in Sign(P, payloadB64) && token == payloadB64 + "." + Sign(P, payloadB64)
  }

  /** An accepted token carries the signature of its own payload part. */
  lemma VerifiedIsSigned(P: Primitives, token: string)
    requires Verify(P, Some(token)).Some?
    ensures SignedToken(P, token, Split(token, '.')[0])
  {
    var parts := Split(token, '.');
    assert parts[1..] == [parts[1]];
    assert token == Join(parts, '.') == parts[0] + ['.'] + parts[1];
  }

  /** A well-formed token whose signature part is not the signature of its
      payload part is rejected. */
  lemma TamperedRejected(P: Primitives, payloadB64: string, sig: string)
    requires '.' !in payloadB64 && '.' !in sig && sig != Sign(P, payloadB64)
    ensures Verify(P, Some(payloadB64 + "." + sig)) == None
  {
    SplitPair(payloadB64, sig, '.');
  }

  /** The round trip the session scheme rests on: a token minted for a
      user verifies to that user and the issue second. */
  lemma VerifyMint(P: Primitives, userId: string, now: int)
    requires WellBehaved(P)
    ensures Verify(P, Some(Mint(P, userId, now))) == Some(SessionPayload(userId, FloorDiv(now, 1000)))
  {
    var payload := SessionPayload(userId, FloorDiv(now, 1000));
    var json := P.stringify(payload);
    var b := P.base64OfUtf8(json);
    var payloadB64 := ToUrlSafe(b);
    var sig := Sign(P, payloadB64);
    UrlSafeHasNoDot(b);
    UrlSafeHasNoDot(P.hmacBase64(payloadB64, SECRET));
    SplitPair(payloadB64, sig, '.');
    UrlSafeRoundTrip(b);
    assert B64UrlDecode(P, payloadB64) == Some(json);
  }

  // -------------------------------------------------------------- requests

  const BEARER: string := "bearer "

  /** The header holds a bearer credential: it starts with "bearer " in any
      letter case. */
  predicate IsBearer(authorization: string) {
    |authorization| >= |BEARER| && ToLower(authorization[..|BEARER|]) == BEARER
  }

  /** The token `getCurrentUserFromRequest` checks: the rest of a bearer
      `authorization` header, otherwise the session cookie. */
  function SelectToken(authorization: Option<string>, cookie: Option<string>): (token: Option<string>)
    ensures authorization.Some? && IsBearer(authorization.value) ==>
      token.Some? && authorization.value == authorization.value[..|BEARER|] + token.value
    ensures !(authorization.Some? && IsBearer(authorization.value)) ==> token == cookie
  {
    if authorization.Some? && authorization.value != "" && StartsWithLower(authorization.value, BEARER)
    then Some(authorization.value[|BEARER|..])
    else cookie
  }

  /** `s.toLowerCase().startsWith(prefix)`. */
  predicate StartsWithLower(s: string, prefix: string)
    ensures StartsWithLower(s, prefix) <==> |prefix| <= |s| && ToLower(s[..|prefix|]) == prefix
  {
    var l := ToLower(s);
    assert |prefix| <= |s| ==> l[..|prefix|] == ToLower(s[..|prefix|]);
    prefix <= l
  }

  /** The scheme word is matched in any letter case. */
  lemma BearerAnyCase(scheme: string, token: string, cookie: Option<string>)
    requires ToLower(scheme) == "bearer"
    ensures SelectToken(Some(scheme + " " + token), cookie) == Some(token)
  {
    var h := scheme + " " + token;
    assert h[..|BEARER|] == scheme + " ";
    assert ToLower(scheme + " ") == ToLower(scheme) + " ";
  }

  /** `getCurrentUserFromRequest`: the user the checked token names, or
      `None`. A user is only ever returned for a token carrying its own
      signature. */
  function CurrentUser(P: Primitives, users: seq<User>, authorization: Option<string>, cookie: Option<string>)
    : (r: Option<User>)
    ensures r.Some? ==> (Verify(P, SelectToken(authorization, cookie)).Some? &&
                         r == FindUserById(users, Verify(P, SelectToken(authorization, cookie)).value.sub))
    ensures r.Some? ==> exists i :: 0 <= i < |users| && users[i] == r.value
    ensures Verify(P, SelectToken(authorization, cookie)).None? ==> r.None?
    ensures Verify(P, SelectToken(authorization, cookie)).Some? ==>
              r == FindUserById(users, Verify(P, SelectToken(authorization, cookie)).value.sub)
  {
    match Verify(P, SelectToken(authorization, cookie))
    case None => None
    case Some(p) => FindUserById(users, p.sub)
  }

  /** A minted token sent as a bearer credential signs in the user it was
      minted for. */
  lemma BearerSignsIn(P: Primitives, users: seq<User>, u: User, now: int, cookie: Option<string>)
    requires WellBehaved(P) && u in users
    ensures var r := CurrentUser(P, users, Some("Bearer " + Mint(P, u.id, now)), cookie);
      r.Some? && r.value.id == u.id
  {
    BearerAnyCase("Bearer", Mint(P, u.id, now), cookie);
    assert "Bearer" + " " + Mint(P, u.id, now) == "Bearer " + Mint(P, u.id, now);
    VerifyMint(P, u.id, now);
    var i :| 0 <= i < |users| && users[i] == u;
    assert users[i].id == u.id;
  }

  /** Without a bearer header, a minted token in the session cookie signs
      in the user it was minted for. */
  lemma CookieSignsIn(P: Primitives, users: seq<User>, u: User, now: int, authorization: Option<string>)
    requires WellBehaved(P) && u in users
    requires authorization.None? || !IsBearer(authorization.value)
    ensures var r := CurrentUser(P, users, authorization, Some(Mint(P, u.id, now)));
      r.Some? && r.value.id == u.id
  {
    VerifyMint(P, u.id, now);
    var i :| 0 <= i < |users| && users[i] == u;
    assert users[i].id == u.id;
  }

  /** `authenticate(email, password)`: the user with that email (ignoring
      case) whose stored hash is the hash of the password with its salt. */
  function Authenticate(users: seq<User>, sha256: string -> string, email: string, password: string)
    : (r: Option<User>)
    ensures r.Some? ==> exists i :: 0 <= i < |users| && users[i] == r.value
    ensures r.Some? ==> SameEmail(r.value.email, email) && HashPassword(sha256, password, r.value.salt) == r.value.passwordHash
    ensures r.None? <==> (FindUserByEmail(users, email).None? ||
      HashPassword(sha256, password, FindUserByEmail(users, email).value.salt) != FindUserByEmail(users, email).value.passwordHash)
  {
    match FindUserByEmail(users, email)
    case None => None
    case Some(u) =>
      if HashPassword(sha256, password, u.salt) != u.passwordHash then None else Some(u)
  }

  /** A user appended under an email nobody has is the one found for it. */
  lemma FindNewUser(users: seq<User>, u: User, email: string)
    requires FindUserByEmail(users, email).None? && SameEmail(u.email, email)
    ensures FindUserByEmail(users + [u], email) == Some(u)
  {
    var us := users + [u];
    assert us[|users|] == u;
    assert forall j :: 0 <= j < |users| ==> us[j] == users[j];
  }

  /** Signing up and then signing in with the same email (in any letter
      case) and password succeeds. */
  lemma AuthenticateAfterCreate(users: seq<User>, sha256: string -> string, email: string, signInEmail: string,
                                password: string, salt: string, role: Role, id: string, now: int)
    requires FindUserByEmail(users, email).None? && SameEmail(signInEmail, email)
    ensures var u := User(id, email, HashPassword(sha256, password, salt), salt, role, now);
      Authenticate(users + [u], sha256, signInEmail, password) == Some(u)
  {
    var u := User(id, email, HashPassword(sha256, password, salt), salt, role, now);
    forall i | 0 <= i < |users| ensures !SameEmail(users[i].email, signInEmail) {
      assert !SameEmail(users[i].email, email);
    }
    FindNewUser(users, u, signInEmail);
  }
}
