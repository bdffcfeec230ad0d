/** The profile-completion route middleware (app/middleware/auth.ts): a
    visitor without a session goes to the login page, a user without a job
    title or a bio goes to the page that asks for them, and a user who has
    both is kept away from that page. */
module AuthMiddleware {
  import opened Wrappers
  import opened Navigation

  const AddBioPath := "/add-bio"

  /** Both profile fields are filled in. */
  predicate ProfileComplete(u: Profile)
  {
    Truthy(u.jobTitle) && Truthy(u.bio)
  }

  /** The middleware, given the result of getSession (None when it returned
      no data) and the path being navigated to. The second test of the
      profile fields is kept as the source has it, though it always holds
      when it is reached. */
  function Decide(session: Option<SessionData>, path: string): (r: Decision)
    ensures session.None? ==> r == NavigateTo(LoginPath)
    ensures r.NavigateTo? ==> r.path in {LoginPath, AddBioPath, DashboardPath}
    ensures session.Some? ==> r != NavigateTo(path)
  {
    if session.None? then NavigateTo(LoginPath)
    else
      var u := session.value.user;
      if !Truthy(u.jobTitle) || !Truthy(u.bio) then
        if path == AddBioPath then Proceed else NavigateTo(AddBioPath)
      else if Truthy(u.jobTitle) && Truthy(u.bio) then
        if path == AddBioPath then NavigateTo(DashboardPath) else Proceed
      else Proceed
  }

  /** The decision table, read by outcome: each outcome together with exactly
      the situations that produce it. */
  lemma DecisionTable(session: Option<SessionData>, path: string)
    ensures Decide(session, path) == NavigateTo(LoginPath) <==> session.None?
    ensures Decide(session, path) == NavigateTo(AddBioPath) <==>
      session.Some? && !ProfileComplete(session.value.user) && path != AddBioPath
    ensures Decide(session, path) == NavigateTo(DashboardPath) <==>
      session.Some? && ProfileComplete(session.value.user) && path == AddBioPath
    ensures Decide(session, path) == Proceed <==>
      session.Some? && (ProfileComplete(session.value.user) <==> path != AddBioPath)
  {
  }

  /** A missing field means null, undefined or the empty string: any of them
      sends the user to the profile page. */
  lemma EmptyFieldIsMissing(session: SessionData, path: string)
    requires session.user.jobTitle in {None, Some("")} || session.user.bio in {None, Some("")}
    requires path != AddBioPath
    ensures Decide(Some(session), path) == NavigateTo(AddBioPath)
  {
  }

  /** With a session, following a redirect once leads to a page the
      middleware lets through. */
  lemma RedirectSettles(session: SessionData, path: string)
    ensures Decide(Some(session), path).NavigateTo? ==>
      Decide(Some(session), Decide(Some(session), path).path) == Proceed
  {
  }
}
