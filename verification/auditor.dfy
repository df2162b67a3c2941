/** What the security context offers the auditors: an authentication whose
    principal is a user name, a decoded JWT, something else or null. */
module Security {
  import opened Wrappers
  import opened Exceptions

  /** A claim value of a JWT: text, or a value of another JSON type. */
  datatype ClaimValue = ClaimText(text: string) | ClaimOther

  datatype Principal =
    | NullPrincipal
    | StringPrincipal(name: string)
    | JwtPrincipal(claims: map<string, ClaimValue>)
    | OtherPrincipal

  datatype Authentication = Authentication(principal: Principal, authenticated: bool)

  /** `jwt.claims["sub"] as String`: a missing claim is null, and casting null
      to a non-null `String` throws; a claim of another type fails the cast. */
  function SubClaim(claims: map<string, ClaimValue>): (r: Result<string, Exception>)
    ensures r.Success? <==> "sub" in claims && claims["sub"].ClaimText?
    ensures r.Success? ==> r.value == claims["sub"].text
    ensures r.Failure? ==> r.error.kind in {NullPointer, ClassCast}
  {
    if "sub" !in claims then Failure(ThrowLibrary(NullPointer))
    else match claims["sub"]
      case ClaimText(s) => Success(s)
      case ClaimOther => Failure(ThrowLibrary(ClassCast))
  }
}

/** The blocking `AuditorAwareImpl.getCurrentAuditor`. */
module AuditorConfig {
  import opened Wrappers
  import opened Exceptions
  import opened Security

  const SystemAuditor: string := "system"

  /** The auditor for the current authentication, if any. Every branch
      returns `Optional.of(...)`, so the result is a name or an exception,
      never an empty optional. */
  function GetCurrentAuditor(auth: Option<Authentication>): (r: Result<string, Exception>)
    ensures auth.None? || !auth.value.authenticated ==> r == Success(SystemAuditor)
    ensures r.Failure? ==> auth.Some? && auth.value.principal.JwtPrincipal?
  {
    if auth.None? || !auth.value.authenticated then Success(SystemAuditor)
    else match auth.value.principal
      case StringPrincipal(name) => Success(name)
      case JwtPrincipal(claims) => SubClaim(claims)
      case _ => Success(SystemAuditor)
  }

  /** The auditor by principal kind, for an authenticated caller: a user name
      is itself, a JWT names its subject, anything else (null included) is
      the system. */
  lemma AuditorOfAuthenticated(p: Principal)
    ensures var r := GetCurrentAuditor(Some(Authentication(p, true)));
      && (p.StringPrincipal? ==> r == Success(p.name))
      && (p.JwtPrincipal? ==> r == SubClaim(p.claims))
      && (p.NullPrincipal? || p.OtherPrincipal? ==> r == Success(SystemAuditor))
  {
  }
}

/** The reactive `AuditorAwareImpl.getCurrentAuditor`: a chain of Reactor
    operators over the security context. */
module ReactiveAuditorConfig {
  import opened Wrappers
  import opened Exceptions
  import opened Security

  const AnonymousAuditor: string := "anonymous"

  /** A `Mono` that has completed: one value, no value, or an error. */
  datatype Mono<T> = Just(value: T) | Empty | Error(error: Exception)

  datatype SecurityContext = SecurityContext(authentication: Option<Authentication>)

  /** `map(f)`: a mapper returning null fails the `Mono`. */
  function Map<T, U>(m: Mono<T>, f: T -> Option<U>): (r: Mono<U>)
    ensures m.Empty? ==> r.Empty?
    ensures m.Error? ==> r == Error(m.error)
  {
    match m
    case Just(v) => if f(v).Some? then Just(f(v).value) else Error(ThrowLibrary(NullPointer))
    case Empty => Empty
    case Error(e) => Error(e)
  }

  /** `switchIfEmpty(alt)`. */
  function SwitchIfEmpty<T>(m: Mono<T>, alt: Mono<T>): (r: Mono<T>)
    ensures !m.Empty? ==> r == m
  {
    if m.Empty? then alt else m
  }

  /** `flatMap(f)`. */
  function FlatMap<T, U>(m: Mono<T>, f: T -> Mono<U>): (r: Mono<U>)
    ensures m.Empty? ==> r.Empty?
    ensures m.Error? ==> r == Error(m.error)
  {
    match m
    case Just(v) => f(v)
    case Empty => Empty
    case Error(e) => Error(e)
  }

  /** `Mono.just(jwt.claims["sub"] as String)` or `Mono.just("anonymous")`: an
      exception thrown by the cast becomes the `Mono`'s error. */
  function AuditorOfPrincipal(p: Principal): (r: Mono<string>)
    ensures !r.Empty?
  {
    if p.JwtPrincipal? then
      match SubClaim(p.claims)
      case Success(s) => Just(s)
      case Failure(e) => Error(e)
    else Just(AnonymousAuditor)
  }

  /** The chain as written: the context's authentication, its principal, the
      anonymous default for an empty context, then the principal's auditor.
      The `"anonymous"` default is a `String`, so it passes the `is Jwt` test
      as a non-JWT principal. */
  function GetCurrentAuditor(context: Option<SecurityContext>): (r: Mono<string>)
    ensures !r.Empty?
    ensures context.None? ==> r == Just(AnonymousAuditor)
  {
    var ctx: Mono<SecurityContext> := if context.Some? then Just(context.value) else Empty;
    var auth := Map(ctx, (c: SecurityContext) => c.authentication);
    var principal := Map(auth, (a: Authentication) => if a.principal.NullPrincipal? then None else Some(a.principal));
    var defaulted := SwitchIfEmpty(principal, Just(StringPrincipal(AnonymousAuditor)));
    FlatMap(defaulted, AuditorOfPrincipal)
  }

  /** Every path of the chain by case: no context is anonymous, a context
      without authentication or an authentication without principal fails,
      a JWT names its subject whether or not the authentication is marked
      authenticated, and any other principal is anonymous. */
  lemma ReactiveAuditorCases(context: Option<SecurityContext>)
    ensures var r := GetCurrentAuditor(context);
      && (context.None? ==> r == Just(AnonymousAuditor))
      && (context.Some? && context.value.authentication.None? ==> r == Error(ThrowLibrary(NullPointer)))
      && (context.Some? && context.value.authentication.Some? ==>
            var p := context.value.authentication.value.principal;
            && (p.NullPrincipal? ==> r == Error(ThrowLibrary(NullPointer)))
            && (p.JwtPrincipal? ==> (r.Just? <==> SubClaim(p.claims).Success?))
            && (p.JwtPrincipal? && r.Just? ==> r.value == SubClaim(p.claims).value)
            && (p.StringPrincipal? || p.OtherPrincipal? ==> r == Just(AnonymousAuditor)))
  {
  }
}

/** How the two auditors compare on the same authentication. */
module AuditorComparison {
  import opened Wrappers
  import opened Exceptions
  import opened Security
  import AuditorConfig
  import ReactiveAuditorConfig

  /** The context the reactive chain sees for an authentication. */
  function ContextOf(auth: Authentication): ReactiveAuditorConfig.SecurityContext {
    ReactiveAuditorConfig.SecurityContext(Some(auth))
  }

  /** A signed-in user whose principal is a plain user name is recorded by
      name by the blocking auditor but as "anonymous" by the reactive one. */
  lemma StringPrincipalDiffers(name: string)
    ensures var auth := Authentication(StringPrincipal(name), true);
      && AuditorConfig.GetCurrentAuditor(Some(auth)) == Success(name)
      && ReactiveAuditorConfig.GetCurrentAuditor(Some(ContextOf(auth))) == ReactiveAuditorConfig.Just(ReactiveAuditorConfig.AnonymousAuditor)
  {
    ReactiveAuditorConfig.ReactiveAuditorCases(Some(ContextOf(Authentication(StringPrincipal(name), true))));
  }

  /** On an authenticated JWT both auditors name the same subject, or both
      fail with the same exception. */
  lemma JwtAgrees(claims: map<string, ClaimValue>)
    ensures var auth := Authentication(JwtPrincipal(claims), true);
      var b := AuditorConfig.GetCurrentAuditor(Some(auth));
      var r := ReactiveAuditorConfig.GetCurrentAuditor(Some(ContextOf(auth)));
      && (b.Success? <==> r.Just?)
      && (b.Success? ==> b.value == r.value)
      && (b.Failure? ==> r == ReactiveAuditorConfig.Error(b.error))
  {
    ReactiveAuditorConfig.ReactiveAuditorCases(Some(ContextOf(Authentication(JwtPrincipal(claims), true))));
  }

  /** Only the blocking auditor looks at `isAuthenticated`: for a JWT that is
      not marked authenticated it answers "system" while the reactive one
      still reads the subject. */
  lemma UnauthenticatedJwtDiffers(claims: map<string, ClaimValue>)
    requires "sub" in claims && claims["sub"].ClaimText?
    ensures var auth := Authentication(JwtPrincipal(claims), false);
      && AuditorConfig.GetCurrentAuditor(Some(auth)) == Success(AuditorConfig.SystemAuditor)
      && ReactiveAuditorConfig.GetCurrentAuditor(Some(ContextOf(auth))) == ReactiveAuditorConfig.Just(claims["sub"].text)
  {
    ReactiveAuditorConfig.ReactiveAuditorCases(Some(ContextOf(Authentication(JwtPrincipal(claims), false))));
  }
}
