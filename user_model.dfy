/** The User record: role enum, required fields, the optional profile sections,
    and the stored password digest. */
module UserModel {
  import opened Wrappers

  type UserId = int

  datatype Role = Admin | Faculty | Alumni

  /** The string stored in the `role` path. */
  function RoleName(r: Role): string {
    match r
    case Admin => "admin"
    case Faculty => "faculty"
    case Alumni => "alumni"
  }

  /** The schema's enum check on `role`: only the three names are accepted. */
  function ParseRole(s: string): (r: Option<Role>)
    ensures r.Some? <==> (s == "admin" || s == "faculty" || s == "alumni")
    ensures r.Some? ==> RoleName(r.value) == s
  {
    if s == "admin" then Some(Admin)
    else if s == "faculty" then Some(Faculty)
    else if s == "alumni" then Some(Alumni)
    else None
  }

  /** Every role is stored under a name the enum check gives back. */
  lemma RoleNameRoundTrip(r: Role)
    ensures ParseRole(RoleName(r)) == Some(r)
  {
  }

  /** The `password` path: the plaintext a user typed, or a bcrypt hash of what the
      path held before (salt and cost are not modelled). */
  datatype Secret = Plain(text: string) | Hash(of: Secret)

  /** `matchPassword(entered)`: bcrypt's compare succeeds exactly when the stored
      value is one hash of the entered text. */
  predicate MatchPassword(entered: string, stored: Secret) {
    stored == Hash(Plain(entered))
  }

  datatype BasicInfo = BasicInfo(phone: Option<string>, location: Option<string>,
                                 avatar: Option<string>, department: Option<string>)
  datatype Professional = Professional(currentCompany: Option<string>, designation: Option<string>,
                                       experience: Option<string>, skills: seq<string>, achievements: seq<string>)
  datatype Academic = Academic(graduationYear: Option<string>, degree: Option<string>,
                               specialization: Option<string>, qualifications: seq<string>, subjects: seq<string>)
  datatype Social = Social(linkedin: Option<string>, github: Option<string>, website: Option<string>)

  /** Every profile section is optional. */
  datatype Profile = Profile(basicInfo: Option<BasicInfo>, professional: Option<Professional>,
                             academic: Option<Academic>, social: Option<Social>)

  datatype User = User(id: UserId, name: string, email: string, password: Secret, role: Role, profile: Profile)

  /** The required string paths are non-empty. */
  predicate WellFormed(u: User) {
    u.name != "" && u.email != ""
  }

  /** Mongoose's `required` check on a string path: present and non-empty. */
  predicate Present(s: Option<string>) {
    s.Some? && s.value != ""
  }

  /** What `User.create` is given. */
  datatype UserDraft = UserDraft(name: Option<string>, email: Option<string>, password: Option<string>,
                                 role: Role, profile: Profile)

  /** The required paths the draft lacks, in schema order. */
  function MissingPaths(d: UserDraft): (paths: seq<string>)
    ensures "name" in paths <==> !Present(d.name)
    ensures "email" in paths <==> !Present(d.email)
    ensures "password" in paths <==> !Present(d.password)
    ensures forall p :: p in paths ==> p == "name" || p == "email" || p == "password"
  {
    (if Present(d.name) then [] else ["name"])
    + (if Present(d.email) then [] else ["email"])
    + (if Present(d.password) then [] else ["password"])
  }

  /** The pre-save hook as written: `next()` is called without `return` when the
      password is unchanged, so the hook goes on to hash the path again on every save. */
  function PreSaveAsWritten(u: User, passwordModified: bool): (r: User)
    ensures r.password.Hash? && r.password.of == u.password
    ensures r == u.(password := r.password)
  {
    u.(password := Hash(u.password))
  }

  /** A user who could log in with `p` can no longer log in with `p` after the hook
      as written runs on a save that did not touch the password. */
  lemma ResaveLocksOut(u: User, p: string)
    requires MatchPassword(p, u.password)
    ensures !MatchPassword(p, PreSaveAsWritten(u, false).password)
  {
    assert PreSaveAsWritten(u, false).password.of == Hash(Plain(p));
  }

  /** The pre-save hook as intended: hash only a password that was modified. */
  function PreSave(u: User, passwordModified: bool): (r: User)
    ensures passwordModified ==> r.password == Hash(u.password)
    ensures !passwordModified ==> r == u
    ensures r == u.(password := r.password)
  {
    if passwordModified then u.(password := Hash(u.password)) else u
  }

  /** On a modified password the hook as written and the intended hook agree. */
  lemma HooksAgreeOnModified(u: User)
    ensures PreSaveAsWritten(u, true) == PreSave(u, true)
  {
  }

  /** Under the intended hook, a save that does not touch the password keeps every login. */
  lemma ResaveKeepsLogin(u: User, q: string)
    ensures MatchPassword(q, PreSave(u, false).password) <==> MatchPassword(q, u.password)
  {
  }

  /** `User.create(draft)`: validation of the required paths, then the pre-save hook
      as written on a new document, whose password counts as modified, so it is hashed
      once. The store assigns the id. */
  function Create(id: UserId, d: UserDraft): (r: Result<User, seq<string>>)
    ensures r.Ok? <==> Present(d.name) && Present(d.email) && Present(d.password)
    ensures r.Ok? ==> && WellFormed(r.value) && r.value.id == id
                      && r.value.name == d.name.value && r.value.email == d.email.value
                      && (forall q :: MatchPassword(q, r.value.password) <==> q == d.password.value)
                      && r.value.role == d.role && r.value.profile == d.profile
    ensures r.Err? ==> r.error == MissingPaths(d) && |r.error| > 0
  {
    var missing := MissingPaths(d);
    if missing != [] then Err(missing)
    else Ok(PreSaveAsWritten(User(id, d.name.value, d.email.value, Plain(d.password.value), d.role, d.profile), true))
  }
}
