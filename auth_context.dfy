/** The signed-in user kept in React context and mirrored into localStorage. */
module AuthContext {
  import opened Wrappers
  import opened Json

  /** The user object the app keeps: `_id`, name, email, role and token. A field the
      login reply lacked is absent. */
  datatype SessionUser = SessionUser(id: Option<string>, name: Option<string>, email: Option<string>,
                                     role: Option<string>, token: Option<string>)

  function Field(key: string, v: Option<string>): Pairs {
    if v.Some? then [(key, v.value)] else []
  }

  /** The members `JSON.stringify(user)` writes, in key order; absent fields are skipped. */
  function Members(u: SessionUser): Pairs {
    Field("_id", u.id) + Field("name", u.name) + Field("email", u.email) + Field("role", u.role) + Field("token", u.token)
  }

  /** The user object `JSON.parse` gives back, read through its five keys. */
  function UserOf(ms: Pairs): SessionUser {
    SessionUser(Lookup(ms, "_id"), Lookup(ms, "name"), Lookup(ms, "email"), Lookup(ms, "role"), Lookup(ms, "token"))
  }

  /** One more member decides its own key and leaves the others alone. */
  lemma LookupExtend(a: Pairs, k: string, v: Option<string>, key: string)
    ensures Lookup(a + Field(k, v), key) == if k == key && v.Some? then v else Lookup(a, key)
  {
    if v.None? {
      assert a + Field(k, v) == a;
    } else {
      assert (a + Field(k, v))[..|a|] == a;
    }
  }

  /** Each key reads back its own field. */
  lemma LookupMembers(u: SessionUser, key: string)
    ensures key == "_id" ==> Lookup(Members(u), key) == u.id
    ensures key == "name" ==> Lookup(Members(u), key) == u.name
    ensures key == "email" ==> Lookup(Members(u), key) == u.email
    ensures key == "role" ==> Lookup(Members(u), key) == u.role
    ensures key == "token" ==> Lookup(Members(u), key) == u.token
  {
    var a, b, c, d := Field("_id", u.id), Field("name", u.name), Field("email", u.email), Field("role", u.role);
    LookupExtend([], "_id", u.id, key);
    assert [] + a == a;
    LookupExtend(a, "name", u.name, key);
    LookupExtend(a + b, "email", u.email, key);
    LookupExtend(a + b + c, "role", u.role, key);
    LookupExtend(a + b + c + d, "token", u.token, key);
  }

  /** `JSON.stringify(user)`. */
  function Stringify(u: SessionUser): string {
    EncodeObject(Members(u))
  }

  /** `localStorage.setItem` stores `String(value)`: an absent value becomes "undefined". */
  function StorageText(v: Option<string>): (s: string)
    ensures v.Some? ==> s == v.value
    ensures v.None? ==> s == "undefined"
  {
    if v.Some? then v.value else "undefined"
  }

  /** The keys the effect owns. */
  const SessionKeys: set<string> := {"user", "userToken", "userId"}

  /** The initial user: the parsed `user` entry; null when it is absent, empty, or does
      not parse. */
  function InitialUser(items: map<string, string>): (u: Option<SessionUser>)
    ensures "user" !in items || items["user"] == "" ==> u.None?
    ensures "user" in items && ParseObject(items["user"]).None? ==> u.None?
    ensures u.Some? ==> "user" in items && ParseObject(items["user"]).Some?
                        && u.value == UserOf(ParseObject(items["user"]).value)
    ensures "user" in items && items["user"] != "" && ParseObject(items["user"]).Some?
            ==> u == Some(UserOf(ParseObject(items["user"]).value))
  {
    if "user" !in items || items["user"] == "" then None
    else
      var ms := ParseObject(items["user"]);
      if ms.None? then None else Some(UserOf(ms.value))
  }

  /** What the effect leaves in storage for `user`: the three entries written, or the
      three entries removed; every other entry kept. */
  function Persisted(items: map<string, string>, user: Option<SessionUser>): (r: map<string, string>)
    ensures user.Some? ==> && "user" in r && r["user"] == Stringify(user.value)
                           && "userToken" in r && r["userToken"] == StorageText(user.value.token)
                           && "userId" in r && r["userId"] == StorageText(user.value.id)
    ensures user.None? ==> forall k :: k in SessionKeys ==> k !in r
    ensures forall k :: k !in SessionKeys ==> (k in r <==> k in items) && (k in r ==> r[k] == items[k])
  {
    if user.Some? then
      items["user" := Stringify(user.value)]["userToken" := StorageText(user.value.token)]["userId" := StorageText(user.value.id)]
    else
      items - SessionKeys
  }

  /** Saving a user and starting afresh gives back the same user. */
  lemma SessionRoundTrip(items: map<string, string>, u: SessionUser)
    ensures InitialUser(Persisted(items, Some(u))) == Some(u)
  {
    ObjectRoundTrip(Members(u));
    LookupMembers(u, "_id");
    LookupMembers(u, "name");
    LookupMembers(u, "email");
    LookupMembers(u, "role");
    LookupMembers(u, "token");
  }

  /** After a logout, a fresh start has nobody signed in. */
  lemma LogoutForgets(items: map<string, string>)
    ensures InitialUser(Persisted(items, None)) == None
  {
  }

  /** Running the effect twice for the same user changes nothing more. */
  lemma PersistIdempotent(items: map<string, string>, user: Option<SessionUser>)
    ensures Persisted(Persisted(items, user), user) == Persisted(items, user)
  {
  }

  /** The browser's localStorage. */
  class LocalStorage {
    var items: map<string, string>

    constructor (items: map<string, string>)
      ensures this.items == items
    {
      this.items := items;
    }

    method GetItem(key: string) returns (v: Option<string>)
      ensures v.Some? <==> key in items
      ensures v.Some? ==> v.value == items[key]
    {
      v := if key in items then Some(items[key]) else None;
    }

    method SetItem(key: string, value: string)
      modifies this
      ensures items == old(items)[key := value]
    {
      items := items[key := value];
    }

    method RemoveItem(key: string)
      modifies this
      ensures items == old(items) - {key}
    {
      items := items - {key};
    }
  }

  /** The lazy initial state of the provider. */
  method Initialize(storage: LocalStorage) returns (user: Option<SessionUser>)
    ensures user == InitialUser(storage.items)
  {
    var saved := storage.GetItem("user");
    if saved.None? || saved.value == "" {
      return None;
    }
    var ms := ParseObject(saved.value);
    user := if ms.None? then None else Some(UserOf(ms.value));
  }

  /** The effect that runs whenever `user` changes. */
  method SyncEffect(storage: LocalStorage, user: Option<SessionUser>)
    modifies storage
    ensures storage.items == Persisted(old(storage.items), user)
  {
    if user.Some? {
      storage.SetItem("user", Stringify(user.value));
      storage.SetItem("userToken", StorageText(user.value.token));
      storage.SetItem("userId", StorageText(user.value.id));
    } else {
      storage.RemoveItem("user");
      storage.RemoveItem("userToken");
      storage.RemoveItem("userId");
    }
  }
}
