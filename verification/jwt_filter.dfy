/**
 * The per-request bearer gate (JwtFilter.doFilterInternal). The token
 * verifier and the user-details lookup are parameters; the security context
 * is passed in and returned rather than held in a global. A run records what
 * the filter did: the error it sent, which token it verified, which user it
 * loaded, how often it invoked the next filter, and the exception that leaves
 * it after its finally block.
 */
module JwtFilter {
  import opened Common

  const BEARER_PREFIX: string := "Bearer "
  const SC_BAD_REQUEST: int := 400
  const EMPTY_TOKEN_MESSAGE: string := "Invalid JWT token in Bearer Header"

  datatype UserDetails = UserDetails(username: string, password: Option<string>, authorities: set<string>)

  datatype Authentication = Authentication(principal: UserDetails, credentials: Option<string>,
                                           authorities: set<string>)

  datatype HttpError = HttpError(status: int, message: string)

  /** Exceptions that propagate out of the filter once the next filter has run. */
  datatype Thrown = VerificationFailed | UserLookupFailed

  datatype FilterRun = FilterRun(
    context: Option<Authentication>,
    sentError: Option<HttpError>,
    verifiedToken: Option<string>,  // the argument given to the verifier, if it was called
    loadedUser: Option<string>,     // the argument given to the user lookup, if it was called
    chainInvocations: nat,
    thrown: Option<Thrown>)

  /** Character.isWhitespace. */
  predicate IsWhitespace(c: char)
  {
    var n := c as int;
    || n == 0x20 || (0x09 <= n <= 0x0D) || (0x1C <= n <= 0x1F)
    || n == 0x1680 || (0x2000 <= n <= 0x2006) || (0x2008 <= n <= 0x200A)
    || n == 0x2028 || n == 0x2029 || n == 0x205F || n == 0x3000
  }

  /** String.isBlank: empty or whitespace only. */
  predicate IsBlank(s: string)
  {
    forall i | 0 <= i < |s| :: IsWhitespace(s[i])
  }

  /** The header the filter acts on: present, not blank, and starting with the exact, case-sensitive scheme. */
  predicate IsBearer(header: Option<string>)
  {
    header.Some? && !IsBlank(header.value) && BEARER_PREFIX <= header.value
  }

  /** The authentication the filter builds from loaded user details. */
  function Authenticated(details: UserDetails): Authentication
  {
    Authentication(details, details.password, details.authorities)
  }

  function DoFilterInternal(header: Option<string>, context: Option<Authentication>,
                            verify: string -> Option<string>,
                            loadUser: string -> Option<UserDetails>): (r: FilterRun)
    // the next filter runs exactly once on every path
    ensures r.chainInvocations == 1
    // an authentication already present is never replaced
    ensures context.Some? ==> r.context == context
    // the verifier is called exactly when a bearer header has a non-empty remainder, with that remainder
    ensures r.verifiedToken.Some? <==> IsBearer(header) && |header.value| > |BEARER_PREFIX|
    ensures r.verifiedToken.Some? ==> r.verifiedToken.value == header.value[|BEARER_PREFIX|..]
    // the 400 error is sent exactly for the bare scheme
    ensures r.sentError.Some? <==> header == Some(BEARER_PREFIX)
    ensures r.sentError.Some? ==> r.sentError.value == HttpError(SC_BAD_REQUEST, EMPTY_TOKEN_MESSAGE)
    // a user is looked up only under the name a successful verification returned
    ensures r.loadedUser.Some? <==> r.verifiedToken.Some? && verify(r.verifiedToken.value).Some?
    ensures r.loadedUser.Some? ==> r.loadedUser == verify(r.verifiedToken.value)
    // failures propagate and leave the context as it was
    ensures r.thrown == Some(VerificationFailed) <==> r.verifiedToken.Some? && r.loadedUser.None?
    ensures r.thrown == Some(UserLookupFailed) <==> r.loadedUser.Some? && loadUser(r.loadedUser.value).None?
    ensures r.thrown.Some? ==> r.context == context
    // the context changes only to the principal just loaded, and only when it was empty
    ensures r.context != context ==>
      && context.None? && r.thrown.None? && r.loadedUser.Some?
      && loadUser(r.loadedUser.value).Some?
      && r.context == Some(Authenticated(loadUser(r.loadedUser.value).value))
  {
    BearerHeadersAreNotBlank(BEARER_PREFIX);
    var passed := FilterRun(context, None, None, None, 1, None);
    if !IsBearer(header) then passed
    else
      var jwt := header.value[|BEARER_PREFIX|..];
      if jwt == [] then
        assert header.value == header.value[..|BEARER_PREFIX|] == BEARER_PREFIX;
        passed.(sentError := Some(HttpError(SC_BAD_REQUEST, EMPTY_TOKEN_MESSAGE)))
      else
        match verify(jwt)
        case None => passed.(verifiedToken := Some(jwt), thrown := Some(VerificationFailed))
        case Some(username) =>
          match loadUser(username)
          case None =>
            passed.(verifiedToken := Some(jwt), loadedUser := Some(username), thrown := Some(UserLookupFailed))
          case Some(details) =>
            var installed := if context.None? then Some(Authenticated(details)) else context;
            passed.(verifiedToken := Some(jwt), loadedUser := Some(username), context := installed)
  }

  /** The blank test is subsumed by the prefix test: a header starting with the scheme is never blank. */
  lemma BearerHeadersAreNotBlank(h: string)
    requires BEARER_PREFIX <= h
    ensures !IsBlank(h)
  {
    assert h[0] == 'B';
  }

  /**
   * The context ends up authenticated by this run exactly when it was empty,
   * the header is the scheme followed by a non-empty token, the token verifies
   * and its user loads.
   */
  lemma InstallsExactlyWhen(header: Option<string>, verify: string -> Option<string>,
                                               loadUser: string -> Option<UserDetails>)
    ensures var r := DoFilterInternal(header, None, verify, loadUser);
      r.context.Some? <==>
        exists token: string ::
          && header == Some(BEARER_PREFIX + token)
          && token != []
          && verify(token).Some?
          && loadUser(verify(token).value).Some?
  {
    var r := DoFilterInternal(header, None, verify, loadUser);
    if r.context.Some? {
      var token := header.value[|BEARER_PREFIX|..];
      assert header.value == BEARER_PREFIX + token;
    }
    forall token: string | header == Some(BEARER_PREFIX + token) && token != []
      ensures IsBearer(header) && header.value[|BEARER_PREFIX|..] == token
    {
      BearerHeadersAreNotBlank(header.value);
    }
  }

  /** The remainder is passed on untrimmed: trailing or only spaces still reach the verifier as they are. */
  lemma NoTrimming(token: string, context: Option<Authentication>, verify: string -> Option<string>,
                   loadUser: string -> Option<UserDetails>)
    requires token != []
    ensures DoFilterInternal(Some(BEARER_PREFIX + token), context, verify, loadUser).verifiedToken == Some(token)
  {
    BearerHeadersAreNotBlank(BEARER_PREFIX + token);
    assert (BEARER_PREFIX + token)[|BEARER_PREFIX|..] == token;
  }

  /** The scheme test is case-sensitive: a lower-case scheme is ignored without verification. */
  lemma LowerCaseSchemeIgnored(token: string, context: Option<Authentication>,
                               verify: string -> Option<string>, loadUser: string -> Option<UserDetails>)
    ensures var r := DoFilterInternal(Some("bearer " + token), context, verify, loadUser);
      r.verifiedToken.None? && r.context == context && r.sentError.None?
  {
    assert ("bearer " + token)[0] == 'b';
  }
}
