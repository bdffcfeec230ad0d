/** What the two route middlewares see and what they decide. */
module Navigation {
  import opened Wrappers

  /** The outcome of a route middleware: let the navigation through, or send
      the browser to another path. */
  datatype Decision = Proceed | NavigateTo(path: string)

  /** The fields of the signed-in user that the middlewares read. */
  datatype Profile = Profile(emailVerified: bool, jobTitle: Option<string>, bio: Option<string>)

  /** The data of a getSession call that returned something: whether it
      carries a session record, and the user it belongs to. */
  datatype SessionData = SessionData(hasSession: bool, user: Profile)

  /** JavaScript truthiness of a string that may be null or undefined: only a
      present, non-empty string is truthy. */
  predicate Truthy(s: Option<string>)
  {
    s.Some? && s.value != ""
  }

  const LoginPath := "/login"
  const DashboardPath := "/dashboard"
}
