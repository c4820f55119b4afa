# Catalog application: login session and authorization gate

A Dafny model of the authentication core of a small Flask catalog application
(`application.py`). The core consists of these parts:

- a per-browser **login session**: a key/value bag that is either anonymous or
  holds `user = "admin"`;
- the **local login** route. It accepts exactly one credential pair,
  `admin`/`admin`. On success it sets the session's user and redirects home
  with the flash "You are now logged in". Any wrong value re-renders the form
  with the single error "invalid credential, please try again";
- the **`login_required` gate**. The wrapped handler runs only when the
  session has a `user` entry. Otherwise nothing changes and the client is
  redirected home with "You need to log in first";
- **logout**, which is gated. It removes the `user` entry and flashes "You
  are now logged out";
- **category creation**, which is gated. It appends one category with the
  submitted name to the category table;
- the **home page**, which shows the session's user.

Every handler is a pure function from a `State` (session plus category table)
to a `Step`. A `Step` holds the new state and an abstract `Outcome`:
- a redirect home carrying a flash;
- a rendered login or index page;
- or the "400 Bad Request" that Flask produces when a form field the handler
  reads is missing.

The login handler reads `username` first. Because the source's `or` short-circuits,
it reads `password` only when the username is right. So a wrong username
with no password field is an "invalid credential" error, while a right
username with no password field is a bad request. The model keeps this order.

`Traces` puts the handlers behind one dispatcher and replays request sequences
from one browser agent. This is where the multi-request properties are stated:
- the session's `user` entry is always "admin";
- an anonymous client that never sends the admin credentials changes nothing;
- every added category was submitted by some request;
- the test suite's login/logout scenario holds.

The code keeps no user-type tag in the session, issues no CSRF token and has
no federated login, so none of these is modelled. It does not check that a
category name is non-empty. A failed login while already logged in leaves the
user logged in, because the failure path never touches the session.

Files: `session.dfy` (module `LoginSession`), `catalog.dfy` (module
`Catalog`), `application.dfy` (module `Application`), `traces.dfy` (module
`Traces`).

## Model

| member | source | states |
|---|---|---|
| LoginSession.SignIn | application.py:47 | afterwards the session is logged in with user "admin"; its key set gains exactly `user` and every other entry keeps its value |
| LoginSession.SignOut | application.py:56 | afterwards the session is not logged in; exactly the `user` key is gone and every remaining entry keeps its value |
| Catalog.Add | application.py:69-71 | the table grows by exactly one row; the old rows stay as a prefix in order, and the new last row carries the given name |
| Application.LoginRequired | application.py:23-32 | the state changes only if the session has a `user` entry; with one, the result is the wrapped action's; without one, the state is unchanged and the outcome is a redirect home with "You need to log in first" |
| Application.Login | application.py:40-50 | a GET only renders the form; the outcome is the "logged in" redirect if and only if the request is a POST whose username and password are both "admin", and then the session gains `user = "admin"`; every other request leaves the state unchanged; a wrong value in either field yields "invalid credential, please try again"; a bad request happens exactly when a field is missing at the moment it is read, and it names that field; the category table never changes |
| Application.Logout | application.py:53-58 | afterwards the session is never logged in and the table is unchanged; when logged in, exactly the `user` key is removed, all other entries keep their values, and the flash is "You are now logged out"; when anonymous, the gate's refusal with nothing changed |
| Application.NewCategory | application.py:66-73 | the session never changes; when anonymous, the gate's refusal with nothing changed; when logged in with a `name` field, exactly one category with that name is appended after the unchanged existing ones, with the creation flash; without a `name` field, a bad request and nothing changed |
| Application.Home | application.py:35-37 | nothing changes; the index shows a user if and only if the session is logged in, and then it shows the session's `user` value |
| Traces.Handle | application.py:35-73 | for any request, the table only grows by at most one row and the old rows remain a prefix; the state changes only for a logged-in session or a login POST with the admin credentials; a new row appears only for a logged-in category-creation request, and it carries the submitted name |
| Traces.Run | application.py:35-73 | over any sequence of requests there is one outcome per request, the table only ever grows, and it grows by at most as many rows as there are requests |
| Traces.RunKeepsSessionWellFormed | application.py:43-58 | if the session starts out anonymous or with user "admin", every request sequence keeps it so: a `user` entry is never anything but "admin" |
| Traces.AnonymousWithoutCredentialsChangesNothing | application.py:23-50 | when this client's requests are the only ones handled, an anonymous session that never posts the admin credentials ends exactly where it started, session and table alike, and each of its logout and category-creation requests is refused with "You need to log in first" |
| Traces.AddedCategoriesWereSubmitted | application.py:66-73 | when this client's requests are the only ones handled, every category added during the run carries a name that one of its category-creation requests submitted |
| Traces.WrongCredentialsFail | application.py:44-45 | a login POST with both fields present and either one not "admin" changes nothing and yields the generic invalid-credential error |
| Traces.LoginIdempotent | application.py:43-50 | sending the same login request twice gives the same state and outcome as sending it once |
| Traces.LoginThenLogout | application.py:47-58 | logging in and then out leaves the starting session minus its `user` entry, with the "logged out" flash; from an anonymous session it restores the starting state exactly |
| Traces.HomeShowsLoginState | application.py:35-58 | after a successful login the home page shows user "admin"; after a following logout it shows no user |
| Traces.LoginLogoutScenario | test.py:27-39 | from a fresh session, a good login, a logout, a wrong-password login and a second logout yield, in order, "You are now logged in", "You are now logged out", "invalid credential, please try again" and "You need to log in first", and the state ends where it started |

## Left out

- Flask routing, HTTP methods a route does not accept (405), `render_template`, `redirect`/`url_for`: outcomes are abstract values; the redirect target is always the home page.
- Flash storage: Flask keeps pending flashes in the session itself; the model carries each flash in the outcome and keeps it out of the session.
- Session values are strings; Flask sessions may hold any JSON value. The cookie signing with the hard-coded secret key is configuration and is not modelled.
- The SQLAlchemy engine, `db_session.add`/`commit` and id assignment by SQLite: the category table is a sequence and rows carry only their name. A failing commit is not modelled.
- The category table is shared by all browser agents; a trace models one agent alone, and other agents' requests, interleaved or concurrent, are not modelled.
- The `category`, `item`, `edit_item` and `delete_item` routes only format a string and hold no logic.
- `app.run` and debug mode are process start-up.
- `database_setup` (the `User`, `Subcategory` and `Item` tables) is not part of this model; the shown code uses only `Category`.
