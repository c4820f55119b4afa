/**
 The request handlers of the catalog application as pure transitions over the
 login session and the category table. Each handler returns the new state
 together with an abstract outcome: a redirect to the home page carrying a
 flash message, a rendered page, or the "400 Bad Request" a missing form
 field produces.
 */
module Application {
  import opened LoginSession
  import opened Catalog

  datatype Option<T> = None | Some(value: T)

  /** The HTTP methods the login route accepts. */
  datatype Method = Get | Post

  /** Submitted form fields. */
  type Form = map<string, string>

  /** The single credential pair the local login accepts. */
  const AdminName: string := "admin"
  const AdminPassword: string := "admin"

  const LoggedInFlash: string := "You are now logged in"
  const LoggedOutFlash: string := "You are now logged out"
  const LoginFirstFlash: string := "You need to log in first"
  const InvalidCredential: string := "invalid credential, please try again"

  /** The flash shown after a category has been created. */
  function CreatedFlash(name: string): string {
    "New Category " + name + " Successfully Created"
  }

  /** What the client receives. */
  datatype Outcome =
    | RedirectHome(flash: string)          // redirect to the home page with one flash message
    | RenderLogin(error: Option<string>)   // the login form, with an optional error line
    | RenderIndex(user: Option<string>)    // the home page, showing the session's user if any
    | BadRequest(missing: string)          // a required form field was absent

  /** Everything a request may read or change. */
  datatype State = State(session: Session, store: Store)

  /** A handler's result: the state afterwards and the outcome. */
  datatype Step = Step(state: State, outcome: Outcome)

  /** Both fields are submitted and both equal the administrative pair. */
  predicate ValidCredentials(form: Form) {
    && "username" in form && form["username"] == AdminName
    && "password" in form && form["password"] == AdminPassword
  }

  /**
   The login gate wrapped around logout and category creation: the action runs
   only on a logged-in session; otherwise nothing changes and the client is sent
   home with a request to log in.
   */
  function LoginRequired(action: State -> Step, st: State): (r: Step)
    ensures r.state != st ==> LoggedIn(st.session)
    ensures LoggedIn(st.session) ==> r == action(st)
    ensures !LoggedIn(st.session) ==> r.state == st && r.outcome == RedirectHome(LoginFirstFlash)
  {
    if UserKey in st.session then
      action(st)
    else
      Step(st, RedirectHome(LoginFirstFlash))
  }

  /**
   The login page. A GET only shows the form. A POST reads `username` first and,
   only when it is right, `password`; either field missing when it is read is a
   bad request, and any wrong value shows the same generic error.
   */
  function Login(st: State, verb: Method, form: Form): (r: Step)
    ensures r.state.store == st.store
    ensures verb == Get ==> r == Step(st, RenderLogin(None))
    ensures verb == Post && ValidCredentials(form) ==>
              r.state.session == SignIn(st.session) && r.outcome == RedirectHome(LoggedInFlash)
    ensures r.outcome == RedirectHome(LoggedInFlash) <==> verb == Post && ValidCredentials(form)
    ensures !(verb == Post && ValidCredentials(form)) ==> r.state == st
    ensures verb == Post && "username" in form && "password" in form && !ValidCredentials(form) ==>
              r.outcome == RenderLogin(Some(InvalidCredential))
    ensures verb == Post && "username" in form && form["username"] != AdminName ==>
              r.outcome == RenderLogin(Some(InvalidCredential))
    ensures r.outcome.BadRequest? <==>
              verb == Post && ("username" !in form || (form["username"] == AdminName && "password" !in form))
    ensures r.outcome.BadRequest? ==> r.outcome.missing == (if "username" !in form then "username" else "password")
  {
    match verb
    case Get => Step(st, RenderLogin(None))
    case Post =>
      if "username" !in form then
        Step(st, BadRequest("username"))
      else if form["username"] != AdminName then
        Step(st, RenderLogin(Some(InvalidCredential)))
      else if "password" !in form then
        Step(st, BadRequest("password"))
      else if form["password"] != AdminPassword then
        Step(st, RenderLogin(Some(InvalidCredential)))
      else
        Step(State(SignIn(st.session), st.store), RedirectHome(LoggedInFlash))
  }

  /** The body of the logout handler, run behind the gate. */
  function LogoutAction(st: State): Step {
    Step(State(SignOut(st.session), st.store), RedirectHome(LoggedOutFlash))
  }

  /**
   Logout: behind the gate, removes the `user` entry and nothing else from the
   session and says so in a flash.
   */
  function Logout(st: State): (r: Step)
    ensures r.state.store == st.store
    ensures !LoggedIn(r.state.session)
    ensures LoggedIn(st.session) ==>
              && r.state.session.Keys == st.session.Keys - {UserKey}
              && (forall k :: k in r.state.session ==> r.state.session[k] == st.session[k])
              && r.outcome == RedirectHome(LoggedOutFlash)
    ensures !LoggedIn(st.session) ==> r == Step(st, RedirectHome(LoginFirstFlash))
  {
    LoginRequired(LogoutAction, st)
  }

  /** The body of the category-creation handler, run behind the gate. */
  function NewCategoryAction(st: State, form: Form): Step {
    if "name" in form then
      Step(State(st.session, Add(st.store, form["name"])), RedirectHome(CreatedFlash(form["name"])))
    else
      Step(st, BadRequest("name"))
  }

  /**
   Category creation: behind the gate, appends exactly one category with the
   submitted name and leaves the existing ones as they were.
   */
  function NewCategory(st: State, form: Form): (r: Step)
    ensures r.state.session == st.session
    ensures !LoggedIn(st.session) ==> r == Step(st, RedirectHome(LoginFirstFlash))
    ensures LoggedIn(st.session) && "name" in form ==>
              && |r.state.store| == |st.store| + 1
              && st.store <= r.state.store
              && r.state.store[|st.store|] == Category(form["name"])
              && r.outcome == RedirectHome(CreatedFlash(form["name"]))
    ensures LoggedIn(st.session) && "name" !in form ==> r == Step(st, BadRequest("name"))
  {
    LoginRequired(s => NewCategoryAction(s, form), st)
  }

  /** The home page: shows the session's user, if any, and changes nothing. */
  function Home(st: State): (r: Step)
    ensures r.state == st
    ensures r.outcome.RenderIndex?
    ensures r.outcome.user.Some? <==> LoggedIn(st.session)
    ensures LoggedIn(st.session) ==> r.outcome.user.value == st.session[UserKey]
  {
    Step(st, RenderIndex(if UserKey in st.session then Some(st.session[UserKey]) else None))
  }
}
