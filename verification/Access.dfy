/** Who is calling, what the policy says, and what a prompt is charged: the decisions
    that come before any limiter (gateway/identity.py, policy.py, token_budget.py). */
module Access {
  import opened Prelude
  import Text

  datatype Principal = Principal(id: string, roles: set<string>)

  datatype ModelPolicy = ModelPolicy(
    allowedRoles: set<string>, requestsPerMinute: int, inputTokensPerMinute: int, requiresReason: bool)

  type Registry = map<string, ModelPolicy>

  /** Every configured limit is positive. */
  predicate PositiveLimits(policies: Registry)
  {
    forall m <- policies :: policies[m].requestsPerMinute >= 1 && policies[m].inputTokensPerMinute >= 1
  }

  /** What a request says about its caller; a bearer token's verification is an input. */
  datatype Credentials = Bearer(verified: Result<Principal, string>) | DemoHeader(id: string) | Anonymous

  datatype Resolved = Resolved(principal: Option<Principal>, authMethod: string, subject: Option<string>, failure: Option<string>)

  function Resolve(credentials: Credentials, allowDemo: bool, directory: map<string, Principal>): (r: Resolved)
    ensures r.principal.Some? <==> r.failure.None?
  {
    match credentials
    case Bearer(Ok(p)) => Resolved(Some(p), "jwt", Some(p.id), None)
    case Bearer(Err(why)) => Resolved(None, "jwt", None, Some(why))
    case DemoHeader(id) =>
      if id == "" then Resolved(None, "none", None, Some("missing bearer token or demo principal header"))
      else if !allowDemo then Resolved(None, "demo-header", Some(id), Some("demo principals disabled"))
      else if id in directory then Resolved(Some(directory[id]), "demo-header", Some(id), None)
      else Resolved(None, "demo-header", Some(id), Some("unknown demo principal"))
    case Anonymous => Resolved(None, "none", None, Some("missing bearer token or demo principal header"))
  }

  /** The credentials that stand for a principal: a token that verifies, or where demo
      principals are allowed the name of one. */
  predicate Identify(credentials: Credentials, allowDemo: bool, directory: map<string, Principal>, p: Principal)
  {
    || credentials == Bearer(Ok(p))
    || (allowDemo && credentials.DemoHeader? && credentials.id != "" && credentials.id in directory && p == directory[credentials.id])
  }

  /** Exactly these credentials let a principal in, and nobody else is. */
  lemma LetInIff(credentials: Credentials, allowDemo: bool, directory: map<string, Principal>, p: Principal)
    ensures Resolve(credentials, allowDemo, directory).principal == Some(p) <==> Identify(credentials, allowDemo, directory, p)
  {
  }

  /** Who is not let in is told why, and under which name and method the caller came is
      kept either way. */
  lemma NamedAndTold(credentials: Credentials, allowDemo: bool, directory: map<string, Principal>)
    ensures var r, nothing := Resolve(credentials, allowDemo, directory), credentials.Anonymous? || credentials == DemoHeader("");
            && (r.failure == None <==> exists p :: Identify(credentials, allowDemo, directory, p))
            && (credentials.Bearer? && credentials.verified.Err? ==> r.failure == Some(credentials.verified.error))
            && (nothing ==> r.failure == Some("missing bearer token or demo principal header"))
            && (credentials.DemoHeader? && !nothing && !allowDemo ==> r.failure == Some("demo principals disabled"))
            && (credentials.DemoHeader? && !nothing && allowDemo && credentials.id !in directory ==> r.failure == Some("unknown demo principal"))
            && (r.authMethod == "jwt" <==> credentials.Bearer?) && (r.authMethod == "none" <==> nothing)
            && (r.authMethod == "demo-header" <==> credentials.DemoHeader? && !nothing)
            && r.subject == (if credentials.Bearer? && credentials.verified.Ok? then Some(credentials.verified.value.id)
                             else if credentials.DemoHeader? && !nothing then Some(credentials.id) else None)
  {
    var r := Resolve(credentials, allowDemo, directory);
    if r.principal.Some? {
      LetInIff(credentials, allowDemo, directory, r.principal.value);
    }
    if p :| Identify(credentials, allowDemo, directory, p) {
      LetInIff(credentials, allowDemo, directory, p);
    }
  }

  datatype Decision = Decision(allowed: bool, reasons: seq<string>)

  function EvaluatePolicy(principal: Option<Principal>, policy: Option<ModelPolicy>, reason: Option<string>): (d: Decision)
    ensures d.allowed ==> principal.Some? && policy.Some?
    ensures !d.allowed ==> d.reasons != []
  {
    if principal.None? then Decision(false, ["unknown principal"])
    else if policy.None? then Decision(false, ["unknown model"])
    else
      var roles := if principal.value.roles !! policy.value.allowedRoles then ["principal lacks an allowed role for this model"] else [];
      var why := if policy.value.requiresReason && (reason.None? || Text.Strip(reason.value) == "") then ["reason is required for this model"] else [];
      if roles + why != [] then Decision(false, roles + why) else Decision(true, ["policy allow"])
  }

  /** A request is allowed exactly when its caller is known, its model is configured, the
      two share a role, and there is more than white space for a reason where one is
      required. A known caller of a configured model is told each thing that is missing. */
  lemma AllowedIff(principal: Option<Principal>, policy: Option<ModelPolicy>, reason: Option<string>)
    ensures var d := EvaluatePolicy(principal, policy, reason);
            && (d.allowed <==> principal.Some? && policy.Some? && SharesRole(principal.value, policy.value) && ReasonGiven(policy.value, reason))
            && (d.allowed ==> d.reasons == ["policy allow"])
            && (principal.None? ==> d.reasons == ["unknown principal"])
            && (principal.Some? && policy.None? ==> d.reasons == ["unknown model"])
            && (principal.Some? && policy.Some? ==>
                  && ("principal lacks an allowed role for this model" in d.reasons <==> !SharesRole(principal.value, policy.value))
                  && ("reason is required for this model" in d.reasons <==> !ReasonGiven(policy.value, reason)))
  {
    if principal.Some? && policy.Some? {
      assert principal.value.roles !! policy.value.allowedRoles <==> !SharesRole(principal.value, policy.value);
      if reason.Some? {
        Text.StripsToNothing(reason.value);
      }
    }
  }

  predicate SharesRole(principal: Principal, policy: ModelPolicy)
  {
    exists role <- principal.roles :: role in policy.allowedRoles
  }

  predicate ReasonGiven(policy: ModelPolicy, reason: Option<string>)
  {
    policy.requiresReason ==> reason.Some? && exists c <- reason.value :: !Text.IsSpace(c)
  }

  function WithAuthFailure(reasons: seq<string>, failure: Option<string>): seq<string>
  {
    if failure.Some? && failure.value != "" then ["authentication failed: " + failure.value] + reasons else reasons
  }

  /** One token for every four characters of the stripped text, rounded up, and never none. */
  function EstimateTokens(text: string): (n: int)
    ensures n >= 1
  {
    var stripped := Text.Strip(text);
    if stripped == "" then 1 else (|stripped| + 3) / 4
  }

  /** The estimate is the least number of tokens of four characters that holds the text
      between its outer white space, and one for white space alone. */
  lemma QuarterRoundedUp(text: string)
    ensures var n, length := EstimateTokens(text), |Text.Strip(text)|;
            && length <= 4 * n
            && (n == 1 || 4 * (n - 1) < length)
            && (n == 1 && length == 0 <==> forall c <- text :: Text.IsSpace(c))
  {
    Text.StripsToNothing(text);
  }
}
