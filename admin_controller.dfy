/** The admin handlers over the shared user collection: adding faculty and alumni,
    role-filtered listings, admin login, removal by id and role, and the choice of
    mail recipients. */
module AdminController {
  import opened Wrappers
  import opened Seqs
  import opened UserModel

  /** A user as the listings send it: `select('-password')`. */
  datatype PublicUser = PublicUser(id: UserId, name: string, email: string, role: Role, profile: Profile)

  function PublicView(u: User): (v: PublicUser)
    ensures v.id == u.id && v.name == u.name && v.email == u.email && v.role == u.role && v.profile == u.profile
  {
    PublicUser(u.id, u.name, u.email, u.role, u.profile)
  }

  /** The body of an add request. */
  datatype AddRequest = AddRequest(name: Option<string>, email: Option<string>, password: Option<string>,
                                   department: Option<string>, graduationYear: Option<string>)

  /** The document `addFaculty` creates: role faculty, the department under `basicInfo`. */
  function FacultyDraft(req: AddRequest): (d: UserDraft)
    ensures d.role == Faculty
    ensures d.name == req.name && d.email == req.email && d.password == req.password
    ensures d.profile.basicInfo.Some? && d.profile.basicInfo.value.department == req.department
    ensures d.profile.professional.None? && d.profile.academic.None? && d.profile.social.None?
  {
    UserDraft(req.name, req.email, req.password, Faculty,
              Profile(Some(BasicInfo(None, None, None, req.department)), None, None, None))
  }

  /** The document `addAlumni` creates: role alumni, the department under `basicInfo`
      and the graduation year under `academic`. */
  function AlumniDraft(req: AddRequest): (d: UserDraft)
    ensures d.role == Alumni
    ensures d.name == req.name && d.email == req.email && d.password == req.password
    ensures d.profile.basicInfo.Some? && d.profile.basicInfo.value.department == req.department
    ensures d.profile.academic.Some? && d.profile.academic.value.graduationYear == req.graduationYear
    ensures d.profile.professional.None? && d.profile.social.None?
  {
    UserDraft(req.name, req.email, req.password, Alumni,
              Profile(Some(BasicInfo(None, None, None, req.department)), None,
                      Some(Academic(req.graduationYear, None, None, [], [])), None))
  }

  /** `findOne({ email })` found a user; a missing email matches nothing. */
  predicate EmailTaken(users: seq<User>, email: Option<string>) {
    email.Some? && FirstIndex(users, (u: User) => u.email == email.value).Some?
  }

  lemma EmailTakenMeans(users: seq<User>, email: Option<string>)
    ensures EmailTaken(users, email) <==> email.Some? && exists i :: 0 <= i < |users| && users[i].email == email.value
  {
    if email.Some? && !EmailTaken(users, email) {
      assert forall i :: 0 <= i < |users| ==> users[i].email != email.value;
    }
  }

  /** The 201 body of an add: no password. */
  datatype Summary = Summary(id: UserId, name: string, email: string, role: Role)

  /** Why a handler answered 500. */
  datatype Fault = ValidationFailed(missing: seq<string>) | InvalidId | NoPassword

  datatype AddReply = Added(account: Summary) | AlreadyExists(message: string) | AddFailed(fault: Fault)
  {
    function Status(): int {
      match this
      case Added(_) => 201
      case AlreadyExists(_) => 400
      case AddFailed(_) => 500
    }
  }

  /** The outcome of an add handler on table `before` with the next id `id`: a taken
      email answers 400 with `taken`; a failed validation answers 500; otherwise the new
      user is appended and the answer is its summary. The welcome mail cannot change the
      answer: its sender catches and logs every delivery error. */
  ghost predicate AddOutcome(before: seq<User>, id: UserId, d: UserDraft, taken: string,
                             after: seq<User>, reply: AddReply)
  {
    if EmailTaken(before, d.email) then reply == AlreadyExists(taken) && after == before
    else match Create(id, d)
      case Err(missing) => reply == AddFailed(ValidationFailed(missing)) && after == before
      case Ok(u) =>
        && after == before + [u]
        && reply == Added(Summary(u.id, u.name, u.email, u.role))
  }

  /** The 200 body of a login: the admin's fields and the signed claims. */
  datatype Claims = Claims(id: UserId, role: Role)

  datatype LoginBody = LoginBody(email: Option<string>, password: Option<string>, username: Option<string>)

  datatype LoginReply = LoggedIn(id: UserId, name: string, email: string, role: Role, token: Claims)
                      | InvalidCredentials
                      | LoginFailed(fault: Fault)
  {
    function Status(): int {
      match this
      case LoggedIn(_, _, _, _, _) => 200
      case InvalidCredentials => 401
      case LoginFailed(_) => 500
    }
  }

  /** `email || username`: an empty or missing email falls back to the username. */
  function LoginKey(body: LoginBody): (key: Option<string>)
    ensures body.email.Some? && body.email.value != "" ==> key == body.email
    ensures !(body.email.Some? && body.email.value != "") ==> key == body.username
  {
    if body.email.Some? && body.email.value != "" then body.email else body.username
  }

  predicate IsAdminWith(u: User, email: string) {
    u.role == Admin && u.email == email
  }

  /** `findOne({ email: key, role: 'admin' })`. */
  function FindAdmin(users: seq<User>, key: Option<string>): (r: Option<User>)
    ensures r.Some? ==> key.Some? && r.value in users && IsAdminWith(r.value, key.value)
    ensures r.None? <==> key.None? || forall u :: u in users ==> !IsAdminWith(u, key.value)
  {
    if key.None? then None
    else match FirstIndex(users, u => IsAdminWith(u, key.value))
      case None => None
      case Some(i) => Some(users[i])
  }

  /** `adminLogin`: only an admin found by `email || username` whose password matches
      logs in; an unknown admin and a wrong password both answer 401; a missing password
      makes bcrypt throw (500). */
  function AdminLogin(users: seq<User>, body: LoginBody): (r: LoginReply)
    ensures FindAdmin(users, LoginKey(body)).None? ==> r == InvalidCredentials
    ensures r.LoggedIn? <==> (var found := FindAdmin(users, LoginKey(body));
                              found.Some? && body.password.Some? && MatchPassword(body.password.value, found.value.password))
    ensures r.LoggedIn? ==>
      exists u :: && u in users && u.role == Admin && Some(u.email) == LoginKey(body)
                  && MatchPassword(body.password.value, u.password)
                  && r == LoggedIn(u.id, u.name, u.email, Admin, Claims(u.id, Admin))
    ensures r == LoginFailed(NoPassword) <==> FindAdmin(users, LoginKey(body)).Some? && body.password.None?
    ensures r == InvalidCredentials <==> (var found := FindAdmin(users, LoginKey(body));
                                          found.None? || (body.password.Some? && !MatchPassword(body.password.value, found.value.password)))
    ensures r.Status() == 401 <==> r == InvalidCredentials
  {
    match FindAdmin(users, LoginKey(body))
    case None => InvalidCredentials
    case Some(admin) =>
      if body.password.None? then LoginFailed(NoPassword)
      else if !MatchPassword(body.password.value, admin.password) then InvalidCredentials
      else LoggedIn(admin.id, admin.name, admin.email, admin.role, Claims(admin.id, admin.role))
  }

  /** No two users share an email. */
  ghost predicate UniqueEmails(users: seq<User>) {
    forall i, j :: 0 <= i < j < |users| ==> users[i].email != users[j].email
  }

  /** With unique emails, login succeeds exactly when some admin holds the key as
      email and the password matches: the first match is the only one. */
  lemma AdminLoginExact(users: seq<User>, body: LoginBody)
    requires UniqueEmails(users)
    ensures AdminLogin(users, body).LoggedIn? <==>
      (exists i :: 0 <= i < |users| && Some(users[i].email) == LoginKey(body) && users[i].role == Admin
                   && body.password.Some? && MatchPassword(body.password.value, users[i].password))
  {
    var key := LoginKey(body);
    var found := FindAdmin(users, key);
    if exists i :: 0 <= i < |users| && Some(users[i].email) == key && users[i].role == Admin
                   && body.password.Some? && MatchPassword(body.password.value, users[i].password) {
      var i :| 0 <= i < |users| && Some(users[i].email) == key && users[i].role == Admin
               && body.password.Some? && MatchPassword(body.password.value, users[i].password);
      assert IsAdminWith(users[i], key.value);
      var j :| 0 <= j < |users| && users[j] == found.value;
      assert i == j;
    }
  }

  /** A user whose role is not admin never logs in here, whatever the password. */
  lemma NonAdminRejected(users: seq<User>, body: LoginBody)
    requires forall u :: u in users && Some(u.email) == LoginKey(body) ==> u.role != Admin
    ensures AdminLogin(users, body) == InvalidCredentials
  {
  }

  /** `find({ role }).select('-password')`: the users with that role, in storage order,
      without their passwords. */
  function Listing(users: seq<User>, role: Role): (r: seq<PublicUser>)
    ensures var ps := Positions(users, (u: User) => u.role == role);
            |r| == |ps| && forall k :: 0 <= k < |r| ==> r[k] == PublicView(users[ps[k]])
  {
    var sel := Filter(users, (u: User) => u.role == role);
    FilterSelectsInOrder(users, (u: User) => u.role == role);
    seq(|sel|, k requires 0 <= k < |sel| => PublicView(sel[k]))
  }

  /** The listing holds every user of that role and only users of that role. */
  lemma ListingIsExact(users: seq<User>, role: Role)
    ensures forall i :: 0 <= i < |users| && users[i].role == role ==> PublicView(users[i]) in Listing(users, role)
    ensures forall v :: v in Listing(users, role) ==> v.role == role
  {
    var keep := (u: User) => u.role == role;
    var ps := Positions(users, keep);
    var r := Listing(users, role);
    forall i | 0 <= i < |users| && users[i].role == role
      ensures PublicView(users[i]) in r
    {
      assert keep(users[i]);
      var k :| 0 <= k < |ps| && ps[k] == i;
      assert r[k] == PublicView(users[i]);
    }
    forall v | v in r
      ensures v.role == role
    {
      var k :| 0 <= k < |r| && r[k] == v;
      assert keep(users[ps[k]]);
    }
  }

  /** The filter `sendMail` uses: `{}` for 'all', else `{ role: recipients }`. */
  predicate Targeted(u: User, recipients: Option<string>) {
    recipients == Some("all") || (recipients.Some? && RoleName(u.role) == recipients.value)
  }

  /** The emails `sendMail` sends to, in storage order. */
  function Recipients(users: seq<User>, recipients: Option<string>): (r: seq<string>)
    ensures var ps := Positions(users, u => Targeted(u, recipients));
            |r| == |ps| && forall k :: 0 <= k < |r| ==> r[k] == users[ps[k]].email
  {
    var sel := Filter(users, u => Targeted(u, recipients));
    FilterSelectsInOrder(users, u => Targeted(u, recipients));
    Emails(sel)
  }

  /** `users.map(u => u.email)`. */
  function Emails(users: seq<User>): (r: seq<string>)
    ensures |r| == |users| && forall k :: 0 <= k < |r| ==> r[k] == users[k].email
  {
    seq(|users|, k requires 0 <= k < |users| => users[k].email)
  }

  /** 'all' reaches every user, in storage order. */
  lemma RecipientsAll(users: seq<User>)
    ensures Recipients(users, Some("all")) == Emails(users)
  {
    FilterAllKept(users, u => Targeted(u, Some("all")));
  }

  /** A role name reaches exactly the users with that role. */
  lemma RecipientsOfRole(users: seq<User>, role: Role)
    ensures forall e :: e in Recipients(users, Some(RoleName(role))) <==>
                        exists u :: u in users && u.role == role && u.email == e
  {
    var keep := u => Targeted(u, Some(RoleName(role)));
    var sel := Filter(users, keep);
    assert forall u :: keep(u) <==> u.role == role by {
      forall u
        ensures keep(u) <==> u.role == role
      {
        RoleNameRoundTrip(u.role);
        RoleNameRoundTrip(role);
      }
    }
    var r := Recipients(users, Some(RoleName(role)));
    assert r == Emails(sel);
    EmailsOf(sel);
    assert forall u :: u in sel <==> u in users && u.role == role;
  }

  /** An email is among the selected emails exactly when a selected user has it. */
  lemma EmailsOf(sel: seq<User>)
    ensures forall e :: e in Emails(sel) <==> exists u :: u in sel && u.email == e
  {
    var r := Emails(sel);
    forall e
      ensures e in r <==> exists u :: u in sel && u.email == e
    {
      if e in r {
        var k :| 0 <= k < |r| && r[k] == e;
        assert sel[k] in sel;
      }
      if exists u :: u in sel && u.email == e {
        var u :| u in sel && u.email == e;
        var k :| 0 <= k < |sel| && sel[k] == u;
        assert r[k] == e;
      }
    }
  }

  /** Any other string (a missing value included) reaches nobody. */
  lemma RecipientsOfUnknown(users: seq<User>, recipients: Option<string>)
    requires recipients.None? || (recipients.value != "all" && ParseRole(recipients.value).None?)
    ensures Recipients(users, recipients) == []
  {
    var sel := Filter(users, u => Targeted(u, recipients));
    if |sel| > 0 {
      assert sel[0] in sel;
      RoleNameRoundTrip(sel[0].role);
    }
  }

  datatype RemoveReply = Removed(message: string) | NotFound(message: string) | RemoveFailed(fault: Fault)
  {
    function Status(): int {
      match this
      case Removed(_) => 200
      case NotFound(_) => 404
      case RemoveFailed(_) => 500
    }
  }

  /** `findOneAndDelete({ _id: id, role })` on `before`, answering with `noun`:
      a malformed id answers 500 and a user with another id or another role 404, both
      leaving the table as it was; otherwise exactly that user is removed. */
  ghost predicate RemoveOutcome(before: seq<User>, id: Option<UserId>, role: Role, noun: string,
                                after: seq<User>, reply: RemoveReply)
  {
    if id.None? then reply == RemoveFailed(InvalidId) && after == before
    else match FirstIndex(before, (u: User) => u.id == id.value && u.role == role)
      case None => reply == NotFound(noun + " not found") && after == before
      case Some(k) => reply == Removed(noun + " removed successfully") && after == before[..k] + before[k + 1..]
  }

  /** Emails and ids are unique, every id was handed out, and every stored user
      has its required paths. */
  ghost predicate TableInvariant(users: seq<User>, nextId: UserId) {
    && UniqueEmails(users)
    && (forall i, j :: 0 <= i < j < |users| ==> users[i].id != users[j].id)
    && (forall i :: 0 <= i < |users| ==> users[i].id < nextId && WellFormed(users[i]))
  }

  /** Deleting one stored user keeps the table invariant. */
  lemma RemoveKeepsInvariant(users: seq<User>, nextId: UserId, k: nat)
    requires TableInvariant(users, nextId) && k < |users|
    ensures TableInvariant(users[..k] + users[k + 1..], nextId)
  {
    var after := users[..k] + users[k + 1..];
    assert forall i :: 0 <= i < |after| ==> after[i] == users[if i < k then i else i + 1];
  }

  /** The user collection, in storage order. */
  class UserTable {
    var users: seq<User>
    var nextId: UserId

    ghost predicate Valid()
      reads this
    {
      TableInvariant(users, nextId)
    }

    constructor ()
      ensures Valid() && users == []
    {
      users, nextId := [], 0;
    }

    /** The shared insert-if-email-unused step of both add handlers. */
    method Add(d: UserDraft, taken: string) returns (reply: AddReply)
      requires Valid()
      modifies this
      ensures Valid()
      ensures AddOutcome(old(users), old(nextId), d, taken, users, reply)
    {
      if EmailTaken(users, d.email) {
        reply := AlreadyExists(taken);
        return;
      }
      EmailTakenMeans(users, d.email);
      match Create(nextId, d)
      case Err(missing) =>
        reply := AddFailed(ValidationFailed(missing));
      case Ok(u) =>
        users := users + [u];
        nextId := nextId + 1;
        reply := Added(Summary(u.id, u.name, u.email, u.role));
    }

    /** `addFaculty`. */
    method AddFaculty(req: AddRequest) returns (reply: AddReply)
      requires Valid()
      modifies this
      ensures Valid()
      ensures AddOutcome(old(users), old(nextId), FacultyDraft(req), "Faculty already exists", users, reply)
    {
      reply := Add(FacultyDraft(req), "Faculty already exists");
    }

    /** `addAlumni`. */
    method AddAlumni(req: AddRequest) returns (reply: AddReply)
      requires Valid()
      modifies this
      ensures Valid()
      ensures AddOutcome(old(users), old(nextId), AlumniDraft(req), "Alumni already exists", users, reply)
    {
      reply := Add(AlumniDraft(req), "Alumni already exists");
    }

    /** `getAllFaculty`. */
    method GetAllFaculty() returns (list: seq<PublicUser>)
      ensures list == Listing(users, Faculty)
    {
      list := Listing(users, Faculty);
    }

    /** `getAllAlumni`. */
    method GetAllAlumni() returns (list: seq<PublicUser>)
      ensures list == Listing(users, Alumni)
    {
      list := Listing(users, Alumni);
    }

    /** `adminLogin`. */
    method Login(body: LoginBody) returns (reply: LoginReply)
      ensures reply == AdminLogin(users, body)
    {
      reply := AdminLogin(users, body);
    }

    /** The shared delete step of both remove handlers. */
    method RemoveWithRole(id: Option<UserId>, role: Role, noun: string) returns (reply: RemoveReply)
      requires Valid()
      modifies this
      ensures Valid() && nextId == old(nextId)
      ensures RemoveOutcome(old(users), id, role, noun, users, reply)
    {
      if id.None? {
        reply := RemoveFailed(InvalidId);
        return;
      }
      match FirstIndex(users, (u: User) => u.id == id.value && u.role == role)
      case None =>
        reply := NotFound(noun + " not found");
      case Some(k) =>
        RemoveKeepsInvariant(users, nextId, k);
        users := users[..k] + users[k + 1..];
        reply := Removed(noun + " removed successfully");
    }

    /** `removeFaculty`: `id` is None when it is not a well-formed id. */
    method RemoveFaculty(id: Option<UserId>) returns (reply: RemoveReply)
      requires Valid()
      modifies this
      ensures Valid()
      ensures RemoveOutcome(old(users), id, Faculty, "Faculty", users, reply)
    {
      reply := RemoveWithRole(id, Faculty, "Faculty");
    }

    /** `removeAlumni`: `id` is None when it is not a well-formed id. */
    method RemoveAlumni(id: Option<UserId>) returns (reply: RemoveReply)
      requires Valid()
      modifies this
      ensures Valid()
      ensures RemoveOutcome(old(users), id, Alumni, "Alumni", users, reply)
    {
      reply := RemoveWithRole(id, Alumni, "Alumni");
    }

    /** `sendMail`: the addressed emails, and 200 whatever the delivery outcome. */
    method SendMail(recipients: Option<string>) returns (emails: seq<string>, status: int)
      ensures emails == Recipients(users, recipients)
      ensures status == 200
    {
      emails := Recipients(users, recipients);
      status := 200;
    }
  }

  /** With unique ids, a successful removal takes out exactly the user with that id
      and role, keeps the others in order, and shortens the table by one. */
  lemma RemoveTakesExactlyOne(before: seq<User>, id: Option<UserId>, role: Role, noun: string,
                              after: seq<User>, reply: RemoveReply)
    requires forall i, j :: 0 <= i < j < |before| ==> before[i].id != before[j].id
    requires RemoveOutcome(before, id, role, noun, after, reply)
    requires reply.Removed?
    ensures id.Some? && |after| == |before| - 1
    ensures exists u :: u in before && u.id == id.value && u.role == role && u !in after
    ensures forall u :: u in after <==> u in before && u.id != id.value
  {
    var k := FirstIndex(before, (u: User) => u.id == id.value && u.role == role).value;
    assert after == before[..k] + before[k + 1..];
    forall u
      ensures u in after <==> u in before && u.id != id.value
    {
      if u in after {
        var i :| 0 <= i < |after| && after[i] == u;
        var j := if i < k then i else i + 1;
        assert before[j] == u;
      }
      if u in before && u.id != id.value {
        var j :| 0 <= j < |before| && before[j] == u;
        assert j != k;
        assert u == after[if j < k then j else j - 1];
      }
    }
    assert before[k] !in after;
  }

  /** A user of the other role is never removed: the answer is 404 and the table is kept. */
  lemma RemoveWrongRoleIsNotFound(before: seq<User>, id: UserId, role: Role, noun: string,
                                  after: seq<User>, reply: RemoveReply)
    requires forall u :: u in before && u.id == id ==> u.role != role
    requires RemoveOutcome(before, Some(id), role, noun, after, reply)
    ensures reply == NotFound(noun + " not found") && after == before
  {
  }

  /** With unique emails, a taken email answers 400 and the table is kept; a fresh
      email with valid fields adds exactly one user holding the draft's fields. */
  lemma AddAddsOneOrNothing(before: seq<User>, id: UserId, d: UserDraft, taken: string,
                            after: seq<User>, reply: AddReply)
    requires AddOutcome(before, id, d, taken, after, reply)
    ensures (exists u :: u in before && Some(u.email) == d.email) ==> reply == AlreadyExists(taken) && after == before
    ensures reply.Added? ==> |after| == |before| + 1 && after[..|before|] == before
                             && after[|before|].role == d.role && after[|before|].profile == d.profile
                             && Some(after[|before|].email) == d.email
                             && reply.account == Summary(id, after[|before|].name, after[|before|].email, d.role)
    ensures !reply.Added? ==> after == before
  {
    EmailTakenMeans(before, d.email);
    if exists u :: u in before && Some(u.email) == d.email {
      var u :| u in before && Some(u.email) == d.email;
      var i :| 0 <= i < |before| && before[i] == u;
      assert before[i].email == d.email.value;
    }
  }
}
