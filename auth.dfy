/**
 * The admin checks of `lib/auth.ts`: the password check against the configured admin
 * password (an environment variable, a parameter here), the session cookie test, and the
 * guard that turns a request without the cookie into a 401 response.
 */
module Auth {
  import opened Wrappers

  /** The name of the admin session cookie and the value that marks a signed-in admin. */
  const AdminCookie := "oaks_admin"
  const SignedIn := "1"

  /** The JSON error response the guard returns. */
  datatype Response = Response(status: nat, error: string, contentType: string)

  /** `verifyAdminPassword`: never with an unset or empty admin password; otherwise exactly
      when the supplied password is the admin password. */
  function VerifyAdminPassword(adminPassword: Option<string>, password: string): (ok: bool)
    ensures ok ==> adminPassword.Some? && adminPassword.value != "" && password == adminPassword.value
    ensures adminPassword.Some? && adminPassword.value != "" && password == adminPassword.value ==> ok
  {
    if adminPassword.None? || adminPassword.value == "" then false
    else password == adminPassword.value
  }

  /** `isAdmin`: the request's cookies, by name, carry the admin cookie with value `1`. */
  predicate IsAdmin(cookies: map<string, string>) {
    AdminCookie in cookies && cookies[AdminCookie] == SignedIn
  }

  /** `requireAdmin`: nothing for an admin, a 401 `Unauthorized` JSON response otherwise. */
  function RequireAdmin(cookies: map<string, string>): (r: Option<Response>)
    ensures r.None? <==> IsAdmin(cookies)
    ensures r.Some? ==> r.value.status == 401 && r.value.error == "Unauthorized" && r.value.contentType == "application/json"
  {
    if !IsAdmin(cookies) then Some(Response(401, "Unauthorized", "application/json")) else None
  }

  /** The empty password is never accepted, whatever is configured. */
  lemma {:induction false} EmptyPasswordRejected(adminPassword: Option<string>)
    ensures !VerifyAdminPassword(adminPassword, "")
  {
  }

  /** At most one password is accepted. */
  lemma {:induction false} OnePassword(adminPassword: Option<string>, p: string, q: string)
    requires VerifyAdminPassword(adminPassword, p) && VerifyAdminPassword(adminPassword, q)
    ensures p == q
  {
  }

  /** Setting the admin cookie to `1` opens the guard, whatever other cookies there are;
      any other value of it keeps the guard closed. */
  lemma {:induction false} CookieOpensGuard(cookies: map<string, string>, value: string)
    ensures RequireAdmin(cookies[AdminCookie := value]).None? <==> value == SignedIn
  {
  }
}
