/** The e-mail verification route middleware (app/middleware/verifiedEmail.ts):
    a visitor without a session goes to the login page, an unverified user
    goes to the verification page, and a verified user is kept away from it. */
module VerifiedEmailMiddleware {
  import opened Wrappers
  import opened Navigation

  const VerifyPagePath := "/verify-email"

  /** The middleware, given the result of getSession (None when it returned
      no data) and the path being navigated to. It reads the session record,
      not only the data around it. */
  function Decide(data: Option<SessionData>, path: string): (r: Decision)
    ensures !SignedIn(data) ==> r == NavigateTo(LoginPath)
    ensures r.NavigateTo? ==> r.path in {LoginPath, VerifyPagePath, DashboardPath}
    ensures SignedIn(data) ==> r != NavigateTo(path)
  {
    if data.None? || !data.value.hasSession then NavigateTo(LoginPath)
    else
      var isVerified := data.value.user.emailVerified;
      if !isVerified && path != VerifyPagePath then NavigateTo(VerifyPagePath)
      else if isVerified && path == VerifyPagePath then NavigateTo(DashboardPath)
      else Proceed
  }

  predicate SignedIn(data: Option<SessionData>)
  {
    data.Some? && data.value.hasSession
  }

  /** The decision table, read by outcome. */
  lemma DecisionTable(data: Option<SessionData>, path: string)
    ensures Decide(data, path) == NavigateTo(LoginPath) <==> !SignedIn(data)
    ensures Decide(data, path) == NavigateTo(VerifyPagePath) <==>
      SignedIn(data) && !data.value.user.emailVerified && path != VerifyPagePath
    ensures Decide(data, path) == NavigateTo(DashboardPath) <==>
      SignedIn(data) && data.value.user.emailVerified && path == VerifyPagePath
    ensures Decide(data, path) == Proceed <==>
      SignedIn(data) && (data.value.user.emailVerified <==> path != VerifyPagePath)
  {
  }

  /** Signed in, following a redirect once leads to a page the middleware lets
      through. */
  lemma RedirectSettles(data: Option<SessionData>, path: string)
    requires SignedIn(data)
    ensures Decide(data, path).NavigateTo? ==> Decide(data, Decide(data, path).path) == Proceed
  {
  }
}
