/**
 The per-browser login session of the catalog application: a key/value bag
 that is either without a `user` entry (anonymous) or holds `user = "admin"`
 after a successful local login.
 */
module LoginSession {

  /** The session as the application sees it: string keys to string values. */
  type Session = map<string, string>

  /** The key whose presence marks a session as logged in. */
  const UserKey: string := "user"

  /** The only value the application ever stores under `UserKey`. */
  const AdminUser: string := "admin"

  /** A fresh session, as a new browser agent starts with. */
  const Anonymous: Session := map[]

  /** The authorization test of the login gate: a `user` entry is present, whatever its value. */
  predicate LoggedIn(s: Session) {
    UserKey in s
  }

  /** The session invariant the application keeps: a present `user` entry is always "admin". */
  predicate WellFormed(s: Session) {
    LoggedIn(s) ==> s[UserKey] == AdminUser
  }

  /** Records the admin as the session's user; every other entry is kept. */
  function SignIn(s: Session): (r: Session)
    ensures LoggedIn(r) && r[UserKey] == AdminUser
    ensures r.Keys == s.Keys + {UserKey}
    ensures forall k :: k in s && k != UserKey ==> r[k] == s[k]
  {
    s[UserKey := AdminUser]
  }

  /** Drops the `user` entry if there is one; every other entry is kept. */
  function SignOut(s: Session): (r: Session)
    ensures !LoggedIn(r)
    ensures r.Keys == s.Keys - {UserKey}
    ensures forall k :: k in r ==> r[k] == s[k]
  {
    s - {UserKey}
  }
}
