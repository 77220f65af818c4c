/** The client-side accounts: a map from email to password and the email of
    the signed-in user, both kept in browser storage. Every user-facing
    message is an alert, returned here as a Notice. */
module Accounts {
  import opened Options

  datatype Notice =
    | UserExists | Registered | InvalidCredentials
    | PasswordChanged | PasswordChangeFailed
    | AccountDeleted | AccountDeleteFailed

  /** The stored users (email to password) and the stored current user. */
  datatype Store = Store(users: map<string, string>, currentUser: Option<string>)

  /** The store after an action, whether the action succeeded, and the alert
      it raised, if any. */
  datatype Outcome = Outcome(store: Store, ok: bool, notice: Option<Notice>)

  /** `currentUser && users[currentUser]`: someone is signed in under a
      non-empty email (an empty string is false in JavaScript) that is still
      a registered user. */
  predicate HasAccount(st: Store) {
    st.currentUser.Some? && st.currentUser.value != "" && st.currentUser.value in st.users
  }

  /** `authenticateUser(email, password, isNewUser)`. */
  function AuthOutcome(st: Store, email: string, password: string, isNewUser: bool): Outcome {
    if isNewUser then
      if email in st.users then Outcome(st, false, Some(UserExists))
      else Outcome(Store(st.users[email := password], Some(email)), true, Some(Registered))
    else if email !in st.users || st.users[email] != password then
      Outcome(st, false, Some(InvalidCredentials))
    else
      Outcome(Store(st.users, Some(email)), true, None)
  }

  /** The change-password button: the signed-in user's password becomes
      newPassword. */
  function ChangePasswordOutcome(st: Store, newPassword: string): Outcome {
    if HasAccount(st) then
      Outcome(Store(st.users[st.currentUser.value := newPassword], st.currentUser), true, Some(PasswordChanged))
    else
      Outcome(st, false, Some(PasswordChangeFailed))
  }

  /** The delete-account button: the signed-in user is removed and signed out. */
  function DeleteAccountOutcome(st: Store): Outcome {
    if HasAccount(st) then
      Outcome(Store(st.users - {st.currentUser.value}, None), true, Some(AccountDeleted))
    else
      Outcome(st, false, Some(AccountDeleteFailed))
  }

  /** The log-out button: the current user is forgotten. */
  function LoggedOut(st: Store): Store {
    Store(st.users, None)
  }

  /** Registering an email that is already a user fails and changes nothing;
      registering a new one adds it with its password and signs it in. */
  lemma RegisterOutcome(st: Store, email: string, password: string)
    ensures var o := AuthOutcome(st, email, password, true);
      && (email in st.users ==> !o.ok && o.store == st && o.notice == Some(UserExists))
      && (email !in st.users ==> && o.ok && o.notice == Some(Registered)
                                 && o.store.users == st.users[email := password]
                                 && o.store.currentUser == Some(email))
  {
  }

  /** Logging in succeeds exactly when the email is a user whose stored
      password is the one given; success signs that email in and leaves the
      users as they are, failure changes nothing. */
  lemma LoginOutcome(st: Store, email: string, password: string)
    ensures var o := AuthOutcome(st, email, password, false);
      && (o.ok <==> email in st.users && st.users[email] == password)
      && o.store.users == st.users
      && (o.ok ==> o.store.currentUser == Some(email) && o.notice == None)
      && (!o.ok ==> o.store == st && o.notice == Some(InvalidCredentials))
  {
  }

  /** Once registered, an email logs in with the password it registered. */
  lemma RegisterThenLogin(st: Store, email: string, password: string, other: string)
    requires email !in st.users
    ensures var st' := AuthOutcome(st, email, password, true).store;
      && AuthOutcome(st', email, password, false).ok
      && (other != password ==> !AuthOutcome(st', email, other, false).ok)
  {
  }

  /** After a password change the signed-in user logs in with the new
      password and no longer with a different old one; no other user changes. */
  lemma ChangeThenLogin(st: Store, newPassword: string, oldPassword: string)
    requires HasAccount(st)
    ensures var o := ChangePasswordOutcome(st, newPassword);
      var email := st.currentUser.value;
      && o.ok && o.store.currentUser == st.currentUser
      && AuthOutcome(o.store, email, newPassword, false).ok
      && (oldPassword != newPassword ==> !AuthOutcome(o.store, email, oldPassword, false).ok)
      && o.store.users.Keys == st.users.Keys
      && forall e :: e in st.users && e != email ==> o.store.users[e] == st.users[e]
  {
  }

  /** After deleting the account nobody is signed in, the email no longer
      logs in with any password and can be registered again; no other user
      changes. */
  lemma DeleteThenLogin(st: Store, password: string)
    requires HasAccount(st)
    ensures var o := DeleteAccountOutcome(st);
      var email := st.currentUser.value;
      && o.ok && o.store.currentUser == None
      && !AuthOutcome(o.store, email, password, false).ok
      && AuthOutcome(o.store, email, password, true).ok
      && o.store.users.Keys == st.users.Keys - {email}
      && forall e :: e in o.store.users ==> o.store.users[e] == st.users[e]
  {
  }

  /** Without an account signed in (no one, or a session under the empty
      email, or an email since removed) both buttons fail and change nothing. */
  lemma NoAccountNoChange(st: Store, newPassword: string)
    requires !HasAccount(st)
    ensures ChangePasswordOutcome(st, newPassword) == Outcome(st, false, Some(PasswordChangeFailed))
    ensures DeleteAccountOutcome(st) == Outcome(st, false, Some(AccountDeleteFailed))
  {
  }

  /** The empty email can be registered, but the session it opens is not
      recognised by the change-password and delete-account buttons. */
  lemma EmptyEmailSession(st: Store, password: string, newPassword: string)
    requires "" !in st.users
    ensures var o := AuthOutcome(st, "", password, true);
      && o.ok
      && !ChangePasswordOutcome(o.store, newPassword).ok
      && !DeleteAccountOutcome(o.store).ok
  {
  }

  /** The storage, which the handlers update in place. */
  class AccountStorage {
    var users: map<string, string>
    var currentUser: Option<string>

    function State(): Store
      reads this
    {
      Store(users, currentUser)
    }

    /** Nothing stored yet: no users, no one signed in. */
    constructor ()
      ensures State() == Store(map[], None)
    {
      users, currentUser := map[], None;
    }

    method AuthenticateUser(email: string, password: string, isNewUser: bool)
      returns (ok: bool, notice: Option<Notice>)
      modifies this
      ensures Outcome(State(), ok, notice) == AuthOutcome(old(State()), email, password, isNewUser)
    {
      if isNewUser {
        if email in users {
          return false, Some(UserExists);
        }
        users := users[email := password];
        notice := Some(Registered);
      } else {
        if email !in users || users[email] != password {
          return false, Some(InvalidCredentials);
        }
        notice := None;
      }
      currentUser := Some(email);
      ok := true;
    }

    method ChangePassword(newPassword: string) returns (ok: bool, notice: Notice)
      modifies this
      ensures Outcome(State(), ok, Some(notice)) == ChangePasswordOutcome(old(State()), newPassword)
    {
      if currentUser.Some? && currentUser.value != "" && currentUser.value in users {
        users := users[currentUser.value := newPassword];
        ok, notice := true, PasswordChanged;
      } else {
        ok, notice := false, PasswordChangeFailed;
      }
    }

    method DeleteAccount() returns (ok: bool, notice: Notice)
      modifies this
      ensures Outcome(State(), ok, Some(notice)) == DeleteAccountOutcome(old(State()))
    {
      if currentUser.Some? && currentUser.value != "" && currentUser.value in users {
        users := users - {currentUser.value};
        currentUser := None;
        ok, notice := true, AccountDeleted;
      } else {
        ok, notice := false, AccountDeleteFailed;
      }
    }

    method Logout()
      modifies this
      ensures State() == LoggedOut(old(State()))
    {
      currentUser := None;
    }
  }
}
