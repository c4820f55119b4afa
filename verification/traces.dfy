/**
 Sequences of requests from one browser agent against the application, and
 the properties that relate several handler calls: what the session can hold,
 what an anonymous client can change, and the login/logout scenario of the
 application's own test suite.
 */
module Traces {
  import opened LoginSession
  import opened Catalog
  import opened Application

  /** One request to one of the modelled routes. */
  datatype Request =
    | HomeRequest                         // GET /
    | LoginRequest(verb: Method, form: Form)  // GET or POST /login
    | LogoutRequest                       // GET /logout
    | NewCategoryRequest(form: Form)      // POST /catalog/category/new

  /** A POST to the login route carrying the administrative credentials. */
  predicate IsAdminLogin(req: Request) {
    req.LoginRequest? && req.verb == Post && ValidCredentials(req.form)
  }

  /** The names a sequence of requests submits to the category-creation route. */
  function SubmittedNames(reqs: seq<Request>): set<string>
    decreases |reqs|
  {
    if |reqs| == 0 then {}
    else
      var rest := SubmittedNames(reqs[1..]);
      if reqs[0].NewCategoryRequest? && "name" in reqs[0].form then {reqs[0].form["name"]} + rest else rest
  }

  /**
   Routes a request to its handler. Whatever the request, the category table
   only grows by at most one row, and the state changes only for a logged-in
   session or a login with the right credentials.
   */
  function Handle(st: State, req: Request): (r: Step)
    ensures st.store <= r.state.store
    ensures |r.state.store| <= |st.store| + 1
    ensures r.state != st ==> LoggedIn(st.session) || IsAdminLogin(req)
    ensures |r.state.store| > |st.store| ==>
              LoggedIn(st.session) && req.NewCategoryRequest? && "name" in req.form
              && r.state.store[|st.store|].name == req.form["name"]
  {
    match req
    case HomeRequest => Home(st)
    case LoginRequest(verb, form) => Login(st, verb, form)
    case LogoutRequest => Logout(st)
    case NewCategoryRequest(form) => NewCategory(st, form)
  }

  /** The final state and the outcome of every request, in order. */
  datatype Trace = Trace(final: State, outcomes: seq<Outcome>)

  /** Handles the requests one after another, each on the state its predecessor left. */
  function Run(st: State, reqs: seq<Request>): (t: Trace)
    ensures |t.outcomes| == |reqs|
    ensures st.store <= t.final.store
    ensures |t.final.store| <= |st.store| + |reqs|
    decreases |reqs|
  {
    if |reqs| == 0 then Trace(st, [])
    else
      var s := Handle(st, reqs[0]);
      var rest := Run(s.state, reqs[1..]);
      Trace(rest.final, [s.outcome] + rest.outcomes)
  }

  /** A well-formed session stays well-formed: `user`, when present, is always "admin". */
  lemma {:induction false} RunKeepsSessionWellFormed(st: State, reqs: seq<Request>)
    requires WellFormed(st.session)
    ensures WellFormed(Run(st, reqs).final.session)
    decreases |reqs|
  {
    if |reqs| > 0 {
      var s := Handle(st, reqs[0]);
      assert WellFormed(s.state.session) by {
        match reqs[0]
        case LoginRequest(verb, form) =>
        case HomeRequest =>
        case LogoutRequest =>
        case NewCategoryRequest(form) =>
      }
      RunKeepsSessionWellFormed(s.state, reqs[1..]);
    }
  }

  /**
   An anonymous client that never submits the administrative credentials changes
   nothing, and each of its logout and category-creation requests is answered
   with a request to log in.
   */
  lemma {:induction false} AnonymousWithoutCredentialsChangesNothing(st: State, reqs: seq<Request>)
    requires !LoggedIn(st.session)
    requires forall i :: 0 <= i < |reqs| ==> !IsAdminLogin(reqs[i])
    ensures Run(st, reqs).final == st
    ensures forall i :: 0 <= i < |reqs| && (reqs[i].LogoutRequest? || reqs[i].NewCategoryRequest?) ==>
              Run(st, reqs).outcomes[i] == RedirectHome(LoginFirstFlash)
    decreases |reqs|
  {
    if |reqs| > 0 {
      var t := Run(st, reqs);
      var s := Handle(st, reqs[0]);
      assert s.state == st;
      AnonymousWithoutCredentialsChangesNothing(st, reqs[1..]);
      var rest := Run(st, reqs[1..]);
      assert t.outcomes == [s.outcome] + rest.outcomes;
      forall i | 0 <= i < |reqs| && (reqs[i].LogoutRequest? || reqs[i].NewCategoryRequest?)
        ensures t.outcomes[i] == RedirectHome(LoginFirstFlash)
      {
        if i > 0 {
          assert reqs[i] == reqs[1..][i - 1];
        }
      }
    }
  }

  /** Every category a run adds carries a name some category-creation request submitted. */
  lemma {:induction false} AddedCategoriesWereSubmitted(st: State, reqs: seq<Request>)
    ensures forall i :: |st.store| <= i < |Run(st, reqs).final.store| ==>
              Run(st, reqs).final.store[i].name in SubmittedNames(reqs)
    decreases |reqs|
  {
    if |reqs| > 0 {
      var s := Handle(st, reqs[0]);
      var fin := Run(st, reqs).final.store;
      AddedCategoriesWereSubmitted(s.state, reqs[1..]);
      assert fin == Run(s.state, reqs[1..]).final.store;
      forall i | |st.store| <= i < |fin|
        ensures fin[i].name in SubmittedNames(reqs)
      {
        if i < |s.state.store| {
          assert fin[i] == s.state.store[i];
        }
      }
    }
  }

  /** A login POST fails, with the same generic error and no change, whenever either field is wrong. */
  lemma WrongCredentialsFail(st: State, username: string, password: string)
    requires username != AdminName || password != AdminPassword
    ensures Login(st, Post, map["username" := username, "password" := password])
              == Step(st, RenderLogin(Some(InvalidCredential)))
  {
  }

  /** Repeating a login request gives the same state and outcome as sending it once. */
  lemma LoginIdempotent(st: State, verb: Method, form: Form)
    ensures Login(Login(st, verb, form).state, verb, form) == Login(st, verb, form)
  {
  }

  /**
   Logging in and then out removes only the `user` entry of the session the
   client started with; from an anonymous session, it restores that session.
   */
  lemma LoginThenLogout(st: State, form: Form)
    requires ValidCredentials(form)
    ensures Logout(Login(st, Post, form).state).state.session == SignOut(st.session)
    ensures !LoggedIn(st.session) ==> Logout(Login(st, Post, form).state).state == st
    ensures Logout(Login(st, Post, form).state).outcome == RedirectHome(LoggedOutFlash)
  {
  }

  /** After a successful login the home page shows the admin; after logout it shows nobody. */
  lemma HomeShowsLoginState(st: State, form: Form)
    requires ValidCredentials(form)
    ensures Run(st, [LoginRequest(Post, form), HomeRequest]).outcomes[1] == RenderIndex(Some(AdminUser))
    ensures Run(st, [LoginRequest(Post, form), LogoutRequest, HomeRequest]).outcomes[2] == RenderIndex(None)
  {
    var login := LoginRequest(Post, form);
    var s1 := Login(st, Post, form).state;
    assert [login, HomeRequest][1..] == [HomeRequest];
    assert Run(st, [login, HomeRequest]).outcomes[1] == Home(s1).outcome;
    var s2 := Logout(s1).state;
    assert [login, LogoutRequest, HomeRequest][1..] == [LogoutRequest, HomeRequest];
    assert [LogoutRequest, HomeRequest][1..] == [HomeRequest];
    assert Run(s1, [LogoutRequest, HomeRequest]).outcomes[1] == Home(s2).outcome;
    assert Run(st, [login, LogoutRequest, HomeRequest]).outcomes[2] == Home(s2).outcome;
  }

  /**
   The login/logout scenario of the test suite, from a fresh session: a good
   login, a logout, a login with a wrong password, and a logout that the gate
   refuses.
   */
  lemma LoginLogoutScenario(store: Store)
    ensures
      var creds := map["username" := AdminName, "password" := AdminPassword];
      var wrong := map["username" := AdminName, "password" := "wrong password"];
      var t := Run(State(Anonymous, store), [LoginRequest(Post, creds), LogoutRequest,
                                             LoginRequest(Post, wrong), LogoutRequest]);
      && t.outcomes == [RedirectHome(LoggedInFlash), RedirectHome(LoggedOutFlash),
                        RenderLogin(Some(InvalidCredential)), RedirectHome(LoginFirstFlash)]
      && t.final == State(Anonymous, store)
  {
    var creds := map["username" := AdminName, "password" := AdminPassword];
    var wrong := map["username" := AdminName, "password" := "wrong password"];
    var reqs := [LoginRequest(Post, creds), LogoutRequest, LoginRequest(Post, wrong), LogoutRequest];
    var s0 := State(Anonymous, store);
    var s1 := Login(s0, Post, creds).state;
    assert s1.session == map[UserKey := AdminUser];
    var s2 := Logout(s1).state;
    assert s2 == s0;
    assert reqs[1..] == [LogoutRequest, LoginRequest(Post, wrong), LogoutRequest];
    assert reqs[2..] == [LoginRequest(Post, wrong), LogoutRequest];
    assert reqs[3..] == [LogoutRequest];
    assert reqs[1..][1..] == reqs[2..] && reqs[2..][1..] == reqs[3..] && reqs[3..][1..] == [];
    assert Run(s0, reqs[3..]) == Trace(s0, [RedirectHome(LoginFirstFlash)]);
    assert Run(s0, reqs[2..]) == Trace(s0, [RenderLogin(Some(InvalidCredential)), RedirectHome(LoginFirstFlash)]);
    assert Run(s1, reqs[1..]).final == s0;
  }
}
