/**
 * The admin sign-in of Frontend/src/contexts/AuthContext.tsx and the
 * credential check of Frontend/src/utils/auth.ts.
 *
 * The configured temporary admin (`AUTH_CONFIG.TEMP_ADMIN`) is a parameter: its
 * defining file is not part of this model. The thrown error is returned as an
 * `Outcome`.
 */
module Auth {
  import opened Wrappers

  /** The configured temporary admin account. */
  datatype TempAdmin = TempAdmin(id: string, email: string, name: string, password: string)

  /** A signed-in admin; the role is always 'admin'. */
  datatype Admin = Admin(id: string, email: string, name: string, role: string)

  datatype AuthState = AuthState(admin: Option<Admin>, isAuthenticated: bool, isLoading: bool)

  const InitialState: AuthState := AuthState(None, false, false)

  /** `validateCredentials`: exact, case-sensitive equality of both strings with the configured ones. */
  function ValidateCredentials(config: TempAdmin, email: string, password: string): (ok: bool)
    ensures ok <==> email == config.email && password == config.password
  {
    email == config.email && password == config.password
  }

  /** A wrong email fails whatever the password, a wrong password whatever the email, and no
      trimming or case folding rescues a near miss. */
  lemma ValidateRejectsMismatch(config: TempAdmin, email: string, password: string)
    ensures email != config.email ==> !ValidateCredentials(config, email, password)
    ensures password != config.password ==> !ValidateCredentials(config, email, password)
    ensures !ValidateCredentials(config, config.email + " ", config.password)
    ensures !ValidateCredentials(config, config.email, config.password + " ")
  {
    assert |config.email + " "| != |config.email|;
    assert |config.password + " "| != |config.password|;
  }

  /** The admin record built from the configuration on a successful sign-in. */
  function AdminOf(config: TempAdmin): (a: Admin)
    ensures a.id == config.id && a.email == config.email && a.name == config.name && a.role == "admin"
  {
    Admin(config.id, config.email, config.name, "admin")
  }

  /** The state while `login` runs: everything kept, `isLoading` set. */
  function LoginStarted(s: AuthState): (r: AuthState)
    ensures r.isLoading && r.admin == s.admin && r.isAuthenticated == s.isAuthenticated
  {
    s.(isLoading := true)
  }

  /** `login` once it settles: valid credentials sign the configured admin in; invalid ones raise
      "Invalid credentials" and only clear the loading flag. */
  function Login(s: AuthState, config: TempAdmin, email: string, password: string): (r: (AuthState, Outcome))
    ensures r.1.Pass? <==> ValidateCredentials(config, email, password)
    ensures r.1.Pass? ==> r.0 == AuthState(Some(AdminOf(config)), true, false)
    ensures r.1.Fail? ==>
              && r.1.message == "Invalid credentials"
              && r.0.admin == s.admin && r.0.isAuthenticated == s.isAuthenticated && !r.0.isLoading
  {
    var pending := LoginStarted(s);
    if ValidateCredentials(config, email, password) then (AuthState(Some(AdminOf(config)), true, false), Pass)
    else (pending.(isLoading := false), Fail("Invalid credentials"))
  }

  /** `logout`: back to the initial state from anywhere. */
  function Logout(s: AuthState): (r: AuthState)
    ensures r.admin.None? && !r.isAuthenticated && !r.isLoading
  {
    AuthState(None, false, false)
  }

  /** Signed in exactly when an admin is present. */
  ghost predicate Consistent(s: AuthState) {
    s.isAuthenticated <==> s.admin.Some?
  }

  /** The initial state is consistent and every transition keeps consistency, so every state the
      provider reaches is. */
  lemma TransitionsKeepConsistent(s: AuthState, config: TempAdmin, email: string, password: string)
    requires Consistent(s)
    ensures Consistent(InitialState)
    ensures Consistent(LoginStarted(s))
    ensures Consistent(Login(s, config, email, password).0)
    ensures Consistent(Logout(s))
  {
  }

  /** The admin present in a signed-in state is always the configured one. */
  lemma SignedInIsConfigured(s: AuthState, config: TempAdmin, email: string, password: string)
    requires s.admin.None? || s.admin == Some(AdminOf(config))
    ensures var r := Login(s, config, email, password).0;
            r.admin.None? || r.admin == Some(AdminOf(config))
  {
  }

  /** A failed sign-in does not sign out: an admin already signed in stays signed in. */
  lemma FailedLoginKeepsSession(config: TempAdmin, email: string, password: string)
    requires !ValidateCredentials(config, email, password)
    ensures var s := AuthState(Some(AdminOf(config)), true, false);
            Login(s, config, email, password).0 == s
  {
  }

  /** Signing in then out, successfully or not, ends in the initial state. */
  lemma LoginLogout(s: AuthState, config: TempAdmin, email: string, password: string)
    ensures Logout(Login(s, config, email, password).0) == InitialState
  {
  }
}
