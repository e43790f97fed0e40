/**
 * JwtAuthFilter: the per-request authentication stage. It reads the token
 * from the request, records on the request why authentication failed, puts
 * the authentication in the security context when it succeeds, and always
 * hands the request on; rejecting it is left to later stages.
 */
module AuthFilter {
  import opened Common
  import opened Jwt

  /** The servlet request as the filter sees it: its Authorization header and its "exception" attribute. */
  class Request {
    const authorization: Option<string>
    /** The "exception" request attribute. */
    var exception: Option<ErrorType>
    /** How many times the "exception" attribute has been set on this request (proof bookkeeping only). */
    ghost var exceptionWrites: nat

    constructor (authorization: Option<string>)
      ensures this.authorization == authorization && exception == None && exceptionWrites == 0
    {
      this.authorization := authorization;
      exception := None;
      exceptionWrites := 0;
    }

    /** request.setAttribute("exception", e). */
    method SetException(e: ErrorType)
      modifies this
      ensures exception == Some(e) && exceptionWrites == old(exceptionWrites) + 1
    {
      exception := Some(e);
      exceptionWrites := exceptionWrites + 1;
    }
  }

  /** SecurityContextHolder: the authentication the later stages of this request read. */
  class SecurityContextHolder {
    var authentication: Option<Authentication>

    constructor ()
      ensures authentication == None
    {
      authentication := None;
    }

    /** SecurityContextHolder.setContext of a fresh context holding `a`. */
    method SetContext(a: Authentication)
      modifies this
      ensures authentication == Some(a)
    {
      authentication := Some(a);
    }
  }

  /** What the rest of the chain is handed: the request's "exception" attribute and the current authentication. */
  datatype Handoff = Handoff(exception: Option<ErrorType>, authentication: Option<Authentication>)

  /** FilterChain: records every time the rest of the chain runs, with what it was handed. */
  class FilterChain {
    var handoffs: seq<Handoff>

    constructor ()
      ensures handoffs == []
    {
      handoffs := [];
    }

    /** filterChain.doFilter(request, response). */
    method DoFilter(request: Request, holder: SecurityContextHolder)
      modifies this
      ensures handoffs == old(handoffs) + [Handoff(request.exception, holder.authentication)]
    {
      handoffs := handoffs + [Handoff(request.exception, holder.authentication)];
    }
  }

  class JwtAuthFilter {
    const jwtUtil: JwtUtil

    constructor (jwtUtil: JwtUtil)
      ensures this.jwtUtil == jwtUtil
    {
      this.jwtUtil := jwtUtil;
    }

    /**
     * doFilterInternal. A missing token and one that fails validation are
     * treated alike: NOT_VALID_TOKEN, and no authentication. A valid token
     * whose subject is a known user installs that user's authentication; one
     * whose subject is unknown leaves the context as it was and records
     * NOT_FOUND_USER. On every path the chain runs exactly once, last, and
     * the attribute is written at most once.
     */
    method DoFilterInternal(request: Request, chain: FilterChain, holder: SecurityContextHolder,
                            users: map<string, User>, now: int)
      requires jwtUtil.key.Some?
      modifies request, chain, holder
      ensures |chain.handoffs| == |old(chain.handoffs)| + 1
      ensures chain.handoffs == old(chain.handoffs) + [Handoff(request.exception, holder.authentication)]
      ensures request.exceptionWrites <= old(request.exceptionWrites) + 1
      ensures var token := jwtUtil.ResolveToken(request.authorization);
        token.None? || !jwtUtil.ValidateToken(token.value, now) ==>
          && request.exception == Some(NOT_VALID_TOKEN)
          && request.exceptionWrites == old(request.exceptionWrites) + 1
          && holder.authentication == old(holder.authentication)
      ensures var token := jwtUtil.ResolveToken(request.authorization);
        token.Some? && jwtUtil.ValidateToken(token.value, now) ==>
          var subject := jwtUtil.GetUserInfoFromToken(token.value, now).subject;
          && (subject in users ==>
                && holder.authentication == Some(Authentication(users[subject], users[subject].role))
                && request.exception == old(request.exception)
                && request.exceptionWrites == old(request.exceptionWrites))
          && (subject !in users ==>
                && request.exception == Some(NOT_FOUND_USER)
                && request.exceptionWrites == old(request.exceptionWrites) + 1
                && holder.authentication == old(holder.authentication))
    {
      var token := jwtUtil.ResolveToken(request.authorization);
      if token.None? || !jwtUtil.ValidateToken(token.value, now) {
        request.SetException(NOT_VALID_TOKEN);
        chain.DoFilter(request, holder);
        return;
      }
      var info := jwtUtil.GetUserInfoFromToken(token.value, now);
      var found := SetAuthentication(info.subject, holder, users);
      if !found {
        request.SetException(NOT_FOUND_USER);
      }
      chain.DoFilter(request, holder);
    }

    /**
     * setAuthentication: build the authentication for `username` and install
     * it; when the lookup throws, nothing is installed (`found` is false).
     */
    method SetAuthentication(username: string, holder: SecurityContextHolder, users: map<string, User>)
      returns (found: bool)
      modifies holder
      ensures found <==> username in users
      ensures found ==> holder.authentication == Some(Authentication(users[username], users[username].role))
      ensures !found ==> holder.authentication == old(holder.authentication)
    {
      var authentication := jwtUtil.CreateAuthentication(username, users);
      if authentication.None? {
        return false;
      }
      holder.SetContext(authentication.value);
      found := true;
    }
  }
}
