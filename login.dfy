/** The login page's submit handler: which endpoint and body to send, and what the
    reply does to the error text, the signed-in user, stored token and location. */
module Login {
  import opened Wrappers
  import opened AuthContext
  import AdminController

  datatype Endpoint = UsersLogin | AdminLogin

  datatype Body = Body(email: string, password: string, username: Option<string>)

  datatype Request = Request(endpoint: Endpoint, body: Body)

  /** The one email that selects the admin endpoint. */
  const AdminEmail: string := "admin@example.com"

  /** The request for what was typed: the admin endpoint, with the email repeated as
      `username`, for exactly the admin email; the users endpoint with email and
      password for every other email. */
  function RequestFor(email: string, password: string): (r: Request)
    ensures r.endpoint == AdminLogin <==> email == AdminEmail
    ensures r.body.email == email && r.body.password == password
    ensures r.body.username.Some? <==> email == AdminEmail
    ensures r.body.username.Some? ==> r.body.username.value == email
  {
    if email == AdminEmail then Request(AdminLogin, Body(email, password, Some(email)))
    else Request(UsersLogin, Body(email, password, None))
  }

  /** The admin endpoint looks the admin up by the typed email. */
  lemma AdminRequestKey(password: string)
    ensures var b := RequestFor(AdminEmail, password).body;
            AdminController.LoginKey(AdminController.LoginBody(Some(b.email), Some(b.password), b.username)) == Some(AdminEmail)
  {
  }

  /** The fields of the reply body the page reads; absent ones are None. */
  datatype ReplyData = ReplyData(message: Option<string>, id: Option<string>, name: Option<string>,
                                 email: Option<string>, role: Option<string>, token: Option<string>)

  /** The server's answer, or the message of the error `fetch` or `res.json()` threw. */
  datatype Reply = Answered(ok: bool, data: ReplyData) | Thrown(message: string)

  /** A JavaScript truthy string. */
  predicate Truthy(v: Option<string>) {
    v.Some? && v.value != ""
  }

  /** A value in a template literal: absent prints as "undefined". */
  function JsString(v: Option<string>): string {
    if v.Some? then v.value else "undefined"
  }

  /** `data.role === 'admin' ? '/admin' : `/${data.role}``: both branches give "/" + role. */
  function RedirectPath(role: Option<string>): (p: string)
    ensures p == "/" + JsString(role)
  {
    if role == Some("admin") then "/admin" else "/" + JsString(role)
  }

  /** `error.message || 'Login failed. Please try again.'` */
  function CaughtMessage(message: string): (m: string)
    ensures m != ""
    ensures message != "" ==> m == message
  {
    if message != "" then message else "Login failed. Please try again."
  }

  /** What a submit leads to: the error shown, the user passed to `setUser` (None when
      it is not called), the path navigated to, and the token written to storage. */
  datatype Outcome = Outcome(error: string, user: Option<SessionUser>, redirect: Option<string>, token: Option<string>)

  /** The effect of a reply. The error is cleared first; only an ok reply with a token
      signs the user in. */
  function Decide(reply: Reply): (o: Outcome)
    ensures o.user.Some? <==> reply.Answered? && reply.ok && Truthy(reply.data.token)
    ensures o.user.Some? ==> && o.error == ""
                             && o.user.value == SessionUser(reply.data.id, reply.data.name, reply.data.email,
                                                            reply.data.role, reply.data.token)
                             && o.token == reply.data.token
                             && o.redirect == Some("/" + JsString(reply.data.role))
    ensures o.user.None? ==> o.redirect.None? && o.token.None?
    ensures reply.Answered? && !reply.ok ==>
      o.error == (if Truthy(reply.data.message) then reply.data.message.value else "Login failed")
    ensures reply.Thrown? ==> o.error == (if reply.message != "" then reply.message else "Login failed. Please try again.")
    ensures reply.Answered? && reply.ok && !Truthy(reply.data.token) ==> o == Outcome("", None, None, None)
  {
    match reply
    case Thrown(message) => Outcome(CaughtMessage(message), None, None, None)
    case Answered(ok, data) =>
      if !ok then
        Outcome(CaughtMessage(if Truthy(data.message) then data.message.value else "Login failed"), None, None, None)
      else if Truthy(data.token) then
        Outcome("", Some(SessionUser(data.id, data.name, data.email, data.role, data.token)),
                Some(RedirectPath(data.role)), data.token)
      else Outcome("", None, None, None)
  }

  /** Every failure shows a message. */
  lemma FailureIsExplained(reply: Reply)
    requires reply.Thrown? || !reply.ok
    ensures Decide(reply).error != "" && Decide(reply).user.None?
  {
  }

  /** `handleSubmit`: builds the request, then applies the reply; the token goes to
      storage under `userToken` when the user is signed in. */
  method HandleSubmit(storage: LocalStorage, email: string, password: string, reply: Reply)
    returns (request: Request, outcome: Outcome)
    modifies storage
    ensures request == RequestFor(email, password)
    ensures outcome == Decide(reply)
    ensures outcome.token.Some? ==> storage.items == old(storage.items)["userToken" := outcome.token.value]
    ensures outcome.token.None? ==> storage.items == old(storage.items)
  {
    var error := "";
    var endpoint := UsersLogin;
    var body := Body(email, password, None);
    if email == AdminEmail {
      endpoint := AdminLogin;
      body := Body(email, password, Some(email));
    }
    request := Request(endpoint, body);
    match reply {
      case Thrown(message) =>
        error := CaughtMessage(message);
        outcome := Outcome(error, None, None, None);
      case Answered(ok, data) =>
        if !ok {
          error := CaughtMessage(if Truthy(data.message) then data.message.value else "Login failed");
          outcome := Outcome(error, None, None, None);
        } else if Truthy(data.token) {
          var user := SessionUser(data.id, data.name, data.email, data.role, data.token);
          storage.SetItem("userToken", data.token.value);
          outcome := Outcome(error, Some(user), Some(RedirectPath(data.role)), data.token);
        } else {
          outcome := Outcome(error, None, None, None);
        }
    }
  }

  /** A successful login, followed by the provider's effect, leaves a session that a
      fresh start reads back, with the token stored under `userToken`. */
  lemma LoginSurvivesReload(items: map<string, string>, reply: Reply)
    requires Decide(reply).user.Some?
    ensures var o := Decide(reply);
            var after := Persisted(items["userToken" := o.token.value], o.user);
            InitialUser(after) == o.user && after["userToken"] == o.token.value
  {
    var o := Decide(reply);
    SessionRoundTrip(items["userToken" := o.token.value], o.user.value);
  }
}
