/**
 * The login page: the submit handler's empty-field check, the simulated
 * credential check and the record it stores, and the redirect of a user
 * already found in storage.
 */
module Login {
  import opened Wrappers
  import opened Records
  import Register
  import AdminDashboard
  import CustomerDashboard

  /** The record stored under the key `user` after a successful login. */
  datatype SessionRecord = SessionRecord(email: string, isLoggedIn: bool, loginTime: int)

  datatype LoginResult = EmptyFields | LoginFailed | LoggedIn(stored: SessionRecord)

  /** The condition `simulateLogin` accepts: an '@' somewhere and a password of at least 6 characters. */
  predicate CredentialsAccepted(email: string, password: string) {
    '@' in email && |password| >= 6
  }

  /**
   * Submitting the form: blank fields are refused before any attempt; then
   * the credentials are accepted or not, and on success the session record
   * is stored with the clock reading `now`. On failure nothing is stored.
   */
  function SubmitLogin(email: string, password: string, now: int): (r: LoginResult)
    ensures r == EmptyFields <==> email == "" || password == ""
    ensures r.LoggedIn? <==> CredentialsAccepted(email, password)
    ensures r == LoginFailed <==> email != "" && password != "" && !CredentialsAccepted(email, password)
    ensures r.LoggedIn? ==> r.stored.email == email && r.stored.isLoggedIn && r.stored.loginTime == now
  {
    if email == "" || password == "" then EmptyFields
    else if CredentialsAccepted(email, password) then LoggedIn(SessionRecord(email, true, now))
    else LoginFailed
  }

  /** Every email and password the registration form accepts also passes the login check. */
  lemma RegisteredCredentialsLogIn(f: Register.RegistrationForm, now: int)
    requires Register.ValidateForm(f) == Register.Pass
    ensures SubmitLogin(f.email, f.password, now).LoggedIn?
  {
    Register.EmailPatternHasOneAt(f.email);
  }

  // ---------------------------------------------------------------------
  // The redirect of a user already signed in

  datatype Page = AdminDashboardPage | CustomerDashboardPage

  /** With a stored current user: the admin dashboard for `userType` "admin", the customer dashboard for anything else. */
  function RedirectTarget(currentUser: Option<User>): (target: Option<Page>)
    ensures target.None? <==> currentUser.None?
    ensures target == Some(AdminDashboardPage) <==> currentUser.Some? && currentUser.value.userType == "admin"
    ensures target == Some(CustomerDashboardPage) <==> currentUser.Some? && currentUser.value.userType != "admin"
  {
    match currentUser
    case None => None
    case Some(user) => Some(if user.userType == "admin" then AdminDashboardPage else CustomerDashboardPage)
  }

  /** Whether the page `target` lets `currentUser` in. */
  predicate Admits(target: Page, currentUser: Option<User>) {
    match target
    case AdminDashboardPage => AdminDashboard.MayOpen(currentUser)
    case CustomerDashboardPage => CustomerDashboard.MayOpen(currentUser)
  }

  /** Admins and customers are sent to a dashboard that admits them. */
  lemma RedirectAdmitsAdminsAndCustomers(currentUser: Option<User>)
    requires currentUser.Some? && currentUser.value.userType in {"admin", "customer"}
    ensures RedirectTarget(currentUser).Some? && Admits(RedirectTarget(currentUser).value, currentUser)
  {
  }

  /**
   * As written: a stored user of any other type (the user table and the
   * role form fall back to "user") is sent to the customer dashboard, which refuses them
   * and sends them back to the login page, which redirects them again.
   */
  lemma RedirectRefusedForOtherTypes(currentUser: Option<User>)
    requires currentUser.Some? && currentUser.value.userType !in {"admin", "customer"}
    ensures RedirectTarget(currentUser) == Some(CustomerDashboardPage)
    ensures !Admits(CustomerDashboardPage, currentUser)
  {
  }

  /** Corrected: redirect only to a dashboard that admits the user, and stay on the login page otherwise. */
  function CheckedRedirectTarget(currentUser: Option<User>): (target: Option<Page>)
    ensures target.Some? ==> Admits(target.value, currentUser)
    ensures currentUser.Some? && currentUser.value.userType in {"admin", "customer"} ==>
      target == RedirectTarget(currentUser)
    ensures target.None? <==> currentUser.None? || currentUser.value.userType !in {"admin", "customer"}
  {
    match currentUser
    case None => None
    case Some(user) =>
      if user.userType == "admin" then Some(AdminDashboardPage)
      else if user.userType == "customer" then Some(CustomerDashboardPage)
      else None
  }
}
