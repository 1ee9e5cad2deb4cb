/** The login dialog's decision: the Login button with the typed username
    and password, or the Continue-as-Guest button. */
module Login {
  import opened Wrappers
  import opened Strings

  const AdminUser: string := "admin"
  const AdminPass: string := "admin123"
  const GuestName: string := "Guest"

  datatype LoginRequest = Credentials(username: string, password: string) | ContinueAsGuest

  datatype User = User(username: string, isAdmin: bool)

  /** `None` is the "Invalid credentials or username empty." message: the
      dialog stays open. The username is trimmed, the password is not. */
  function Login(request: LoginRequest): (r: Option<User>)
    ensures request.ContinueAsGuest? ==> r == Some(User(GuestName, false))
    ensures request.Credentials? ==>
      (r.None? <==> Trim(request.username) == [])
      && (r.Some? ==> r.value.username == Trim(request.username)
                      && (r.value.isAdmin <==> Trim(request.username) == AdminUser && request.password == AdminPass))
  {
    match request
    case ContinueAsGuest => Some(User(GuestName, false))
    case Credentials(username, password) =>
      var u := Trim(username);
      if u == AdminUser && password == AdminPass then Some(User(u, true))
      else if u != [] then Some(User(u, false))
      else None
  }

  /** Only the admin name with the admin password gives the admin panel;
      the admin name with any other password still logs in, as an
      ordinary user. */
  lemma AdminNeedsPassword(password: string)
    requires password != AdminPass
    ensures Login(Credentials(AdminUser, password)) == Some(User(AdminUser, false))
  {
    assert NoTrimmable(AdminUser);
    TrimSolid(AdminUser);
  }

  /** Surrounding blanks in the username do not matter: " admin " with the
      admin password is the administrator. */
  lemma UsernameIsTrimmed(username: string, password: string)
    ensures Login(Credentials(username, password)) == Login(Credentials(Trim(username), password))
  {
    TrimIdempotent(username);
  }

  /** Every successful login names a user with a non-empty name. */
  lemma LoggedInHasName(request: LoginRequest)
    requires Login(request).Some?
    ensures Login(request).value.username != []
  {
  }
}
