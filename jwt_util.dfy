/**
 * JwtUtil: the Authorization header convention, token issuance and token
 * validation. Signing and parsing belong to the JJWT library and stay
 * abstract: they are the two functions of a Jjwt value.
 */
module Jwt {
  import opened Common

  /** What precedes the compact token in the header. */
  const BEARER_PREFIX: string := "Bearer "
  /** How long an issued token lives, in milliseconds: 60 * 60 * 1000. */
  const TOKEN_TIME: int := 60 * 60 * 1000

  newtype byte = x: int | 0 <= x < 256

  /** The HMAC-SHA signing key built once from the configured secret. */
  datatype Key = Key(material: seq<byte>)

  /** The claims createToken hands to the builder; times are milliseconds since the epoch. */
  datatype Claims = Claims(subject: string, auth: Role, expiration: int, issuedAt: int)

  /**
   * How parseClaimsJws ends: with the verified claims, or with one of the
   * exceptions validateToken catches.
   */
  datatype ParseOutcome =
    | Parsed(body: Claims)
    | SecurityOrMalformed  // SecurityException or MalformedJwtException: bad signature or structure
    | Expired              // ExpiredJwtException
    | Unsupported          // UnsupportedJwtException
    | IllegalArgument      // IllegalArgumentException: empty claims string

  /** The JJWT library as this code uses it: sign-and-compact, and parse-and-verify at a given time. */
  datatype Jjwt = Jjwt(sign: (Key, Claims) -> string, parse: (Key, string, int) -> ParseOutcome)

  /**
   * java.lang.Character.isWhitespace: the Unicode space, line and paragraph
   * separators other than the non-breaking ones, and the ASCII controls
   * U+0009-U+000D and U+001C-U+001F.
   */
  predicate IsWhitespace(c: char) {
    || ('\U{0009}' <= c <= '\U{000D}') || ('\U{001C}' <= c <= '\U{001F}')
    || c == ' ' || c == '\U{1680}' || ('\U{2000}' <= c <= '\U{2006}') || ('\U{2008}' <= c <= '\U{200A}')
    || c == '\U{2028}' || c == '\U{2029}' || c == '\U{205F}' || c == '\U{3000}'
  }

  /** StringUtils.hasText: present, and holding at least one character that is not whitespace. */
  predicate HasText(s: Option<string>) {
    s.Some? && exists i :: 0 <= i < |s.value| && !IsWhitespace(s.value[i])
  }

  /** The principal a request is authenticated as, with the authority it is granted. */
  datatype Authentication = Authentication(principal: User, authority: Role)

  /** The claims issued at time `now` for `username` holding `role`. */
  function IssuedClaims(username: string, role: Role, now: int): (c: Claims)
    ensures c.subject == username && c.auth == role && c.issuedAt == now
    ensures c.expiration - c.issuedAt == 3_600_000
  {
    Claims(username, role, now + TOKEN_TIME, now)
  }

  /**
   * The library behaves as a JWT library should on the tokens it signed
   * itself: until they expire they parse, with the subject and role they
   * were signed with. The exp claim holds whole seconds, so a token expires
   * once `now` is past the start of the second its expiration falls in.
   * The builder stores a subject only when it has text, so only such
   * subjects are promised back.
   */
  ghost predicate SignedTokensParse(jjwt: Jjwt) {
    forall k: Key, c: Claims, now: int {:trigger jjwt.parse(k, jjwt.sign(k, c), now)} ::
      HasText(Some(c.subject)) && now <= c.expiration / 1000 * 1000 ==>
        && jjwt.parse(k, jjwt.sign(k, c), now).Parsed?
        && jjwt.parse(k, jjwt.sign(k, c), now).body.subject == c.subject
        && jjwt.parse(k, jjwt.sign(k, c), now).body.auth == c.auth
  }

  class JwtUtil {
    /** The configured jwt.secret.key, Base64 encoded. */
    const secretKey: string
    const jjwt: Jjwt
    /** Base64 decoding followed by Keys.hmacShaKeyFor. */
    const deriveKey: string -> Key
    /** Null until init has run. */
    var key: Option<Key>

    constructor (secretKey: string, jjwt: Jjwt, deriveKey: string -> Key)
      ensures this.secretKey == secretKey && this.jjwt == jjwt && this.deriveKey == deriveKey
      ensures key == None
    {
      this.secretKey := secretKey;
      this.jjwt := jjwt;
      this.deriveKey := deriveKey;
      key := None;
    }

    /**
     * init (run after construction): the key is what `deriveKey` makes of
     * the configured secret. Both are fixed at construction, so every call
     * assigns the same key.
     */
    method Init()
      modifies this
      ensures key == Some(deriveKey(secretKey))
    {
      key := Some(deriveKey(secretKey));
    }

    /**
     * resolveToken: the header with its first 7 characters dropped when it has
     * text and starts, case-sensitively, with "Bearer "; null otherwise.
     */
    function ResolveToken(authorization: Option<string>): (r: Option<string>)
      ensures r.Some? <==> HasText(authorization) && BEARER_PREFIX <= authorization.value
      ensures r.Some? ==> authorization.value == BEARER_PREFIX + r.value
    {
      if HasText(authorization) && BEARER_PREFIX <= authorization.value then
        Some(authorization.value[7..])
      else
        None
    }

    /**
     * The text test is subsumed by the prefix test: a header resolves to a
     * token exactly when it is the prefix followed by that token, verbatim.
     */
    lemma ResolveTokenExact(header: string, token: string)
      ensures ResolveToken(Some(header)) == Some(token) <==> header == BEARER_PREFIX + token
    {
      if header == BEARER_PREFIX + token {
        assert !IsWhitespace(header[0]);
      }
    }

    /** Examples of the header convention: the scheme's case matters, and a missing or blank header gives nothing. */
    lemma ResolveTokenExamples()
      ensures ResolveToken(Some("Bearer abc.def.ghi")) == Some("abc.def.ghi")
      ensures ResolveToken(Some("Bearer  abc")) == Some(" abc")
      ensures ResolveToken(Some("bearer abc.def.ghi")) == None
      ensures ResolveToken(Some("Bearer")) == None
      ensures ResolveToken(Some(" \t ")) == None
      ensures ResolveToken(Some("")) == None
      ensures ResolveToken(None) == None
    {
      ResolveTokenExact("Bearer abc.def.ghi", "abc.def.ghi");
      ResolveTokenExact("Bearer  abc", " abc");
      assert "bearer abc.def.ghi"[0] != BEARER_PREFIX[0];
    }

    /** createToken: "Bearer " followed by the compact JWT signed over the claims issued at `now`. */
    function CreateToken(username: string, role: Role, now: int): (r: string)
      reads this
      requires key.Some?
      ensures BEARER_PREFIX <= r
      ensures r[|BEARER_PREFIX|..] == jjwt.sign(key.value, IssuedClaims(username, role, now))
    {
      BEARER_PREFIX + jjwt.sign(key.value, IssuedClaims(username, role, now))
    }

    /** Resolving the header createToken produced gives back exactly the compact JWT. */
    lemma ResolveCreatedToken(username: string, role: Role, now: int)
      requires key.Some?
      ensures ResolveToken(Some(CreateToken(username, role, now)))
           == Some(jjwt.sign(key.value, IssuedClaims(username, role, now)))
    {
      ResolveTokenExact(CreateToken(username, role, now), jjwt.sign(key.value, IssuedClaims(username, role, now)));
    }

    /**
     * validateToken: true when parsing with the key succeeds; every failure
     * validateToken catches is logged and becomes false.
     */
    function ValidateToken(token: string, now: int): (valid: bool)
      reads this
      requires key.Some?
      ensures valid <==> jjwt.parse(key.value, token, now).Parsed?
    {
      match jjwt.parse(key.value, token, now)
      case Parsed(_) => true
      case SecurityOrMalformed => false
      case Expired => false
      case Unsupported => false
      case IllegalArgument => false
    }

    /**
     * getUserInfoFromToken: the claims of a token validateToken accepted (on
     * any other token it throws, and the filter never calls it with one).
     */
    function GetUserInfoFromToken(token: string, now: int): (c: Claims)
      reads this
      requires key.Some? && ValidateToken(token, now)
      ensures jjwt.parse(key.value, token, now) == Parsed(c)
    {
      jjwt.parse(key.value, token, now).body
    }

    /**
     * createAuthentication: loadUserByUsername finds the user or throws
     * UsernameNotFoundException (None here); the authority granted is the
     * stored user's role.
     */
    function CreateAuthentication(username: string, users: map<string, User>): (r: Option<Authentication>)
      ensures r.Some? <==> username in users
      ensures r.Some? ==> r.value.principal == users[username] && r.value.authority == users[username].role
    {
      if username in users then Some(Authentication(users[username], users[username].role)) else None
    }

    /**
     * Issuance and validation agree: when the library parses its own tokens
     * (SignedTokensParse), a header made by createToken for a username with
     * text and presented no later than the expiry second resolves to a token
     * that validates and names the user.
     */
    lemma IssuedTokenValidates(username: string, role: Role, issuedAt: int, now: int)
      requires key.Some? && SignedTokensParse(jjwt)
      requires HasText(Some(username)) && now <= (issuedAt + TOKEN_TIME) / 1000 * 1000
      ensures var token := ResolveToken(Some(CreateToken(username, role, issuedAt)));
        && token.Some?
        && ValidateToken(token.value, now)
        && GetUserInfoFromToken(token.value, now).subject == username
        && GetUserInfoFromToken(token.value, now).auth == role
    {
      ResolveCreatedToken(username, role, issuedAt);
      var c := IssuedClaims(username, role, issuedAt);
      assert jjwt.parse(key.value, jjwt.sign(key.value, c), now).Parsed?;
    }
  }
}
