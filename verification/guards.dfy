/**
 * The client-side guards: Frontend/src/pages/PrivateRoute.tsx decides
 * whether a page renders or redirects, and the `onSubmit` of Login.tsx
 * compares the form against the user saved in `localStorage`.
 */
module Guards {
  import opened Common

  /** `JSON.parse(localStorage.getItem("user"))`; `None` when nothing is stored. */
  datatype StoredUser = StoredUser(
    name: Option<string>,
    email: Option<string>,
    password: Option<string>,
    role: Option<string>
  )

  datatype RouteDecision = RedirectToLogin | RedirectToDashboard | RenderChildren

  /**
   * `PrivateRoute`: no stored user goes to "/login"; a required role the
   * user lacks goes to "/dashboard"; the login check comes first.
   */
  function PrivateRoute(stored: Option<StoredUser>, requiredRole: Option<string>): (d: RouteDecision)
    ensures stored.None? ==> d == RedirectToLogin
    ensures stored.Some? && Filled(requiredRole) && stored.value.role != requiredRole ==> d == RedirectToDashboard
    ensures d == RenderChildren <==> stored.Some? && (!Filled(requiredRole) || stored.value.role == requiredRole)
  {
    if stored.None? then RedirectToLogin
    else if Filled(requiredRole) && stored.value.role != requiredRole then RedirectToDashboard
    else RenderChildren
  }

  /** The login form's two fields. */
  datatype LoginForm = LoginForm(email: string, password: string)

  datatype LoginResult = NavigateTo(path: string) | InvalidCredentials

  /** `{}`: what an empty `localStorage` parses to. */
  const NoStoredUser := StoredUser(None, None, None, None)

  /**
   * `onSubmit`: success iff the stored email and password both equal the
   * entered ones; an admin then goes to "/appointments", anyone else to
   * "/forum".
   */
  function OnSubmit(stored: Option<StoredUser>, form: LoginForm): (r: LoginResult)
    ensures r.NavigateTo? <==>
      stored.Some? && stored.value.email == Some(form.email) && stored.value.password == Some(form.password)
    ensures r.NavigateTo? ==> (r.path == "/appointments" <==> stored.value.role == Some("admin"))
    ensures r.NavigateTo? ==> (r.path == "/forum" <==> stored.value.role != Some("admin"))
  {
    var u := stored.GetOr(NoStoredUser);
    if u.email == Some(form.email) && u.password == Some(form.password) then
      NavigateTo(if u.role == Some("admin") then "/appointments" else "/forum")
    else InvalidCredentials
  }

  /** With nothing stored there is no navigation, whatever is typed. */
  lemma NothingStoredNeverLogsIn(form: LoginForm)
    ensures OnSubmit(None, form) == InvalidCredentials
    ensures OnSubmit(Some(NoStoredUser), form) == InvalidCredentials
  {
  }

  /**
   * After a successful login the guard lets the user through any page
   * without a role requirement, and through admin pages exactly when the
   * login led to "/appointments".
   */
  lemma LoginThenRoute(stored: Option<StoredUser>, form: LoginForm)
    requires OnSubmit(stored, form).NavigateTo?
    ensures PrivateRoute(stored, None) == RenderChildren
    ensures PrivateRoute(stored, Some("admin")) == RenderChildren <==>
      OnSubmit(stored, form).path == "/appointments"
  {
  }
}
