/**
 * User accounts: registration with its duplicate check, the ordered checks of
 * a login, reading and merging the profile, the guarded password change and
 * the public JSON form of a user, which never carries the password hash.
 * The users table is a sequence held by `AccountStore`; bcrypt is an ideal
 * hash and the token signer receives the claims the reply carries.
 */
module Accounts {
  import opened Wrappers
  import opened Json
  import opened Http

  datatype AccountStatus = Active | Inactive | Banned

  /** The stored bcrypt hash, seen as the password it was made from. */
  datatype Credential = Hashed(secret: string)

  /** `bcrypt.compare(password, hash)` for an ideal hash. */
  predicate PasswordMatches(stored: Credential, password: string) {
    stored.secret == password
  }

  datatype User = User(
    id: nat,
    username: string,
    email: string,
    phone: Option<string>,
    passwordHash: Credential,
    name: string,
    school: Option<string>,
    grade: string,
    avatarUrl: Option<string>,
    lastLogin: Option<nat>,
    status: AccountStatus)

  const EmailTaken: string := "邮箱已被注册"
  const UsernameTaken: string := "用户名已被使用"
  const BadCredentials: string := "邮箱或密码错误"
  const Disabled: string := "账户已被禁用"
  const NoUser: string := "用户不存在"
  const WrongOldPassword: string := "原密码错误"

  // ------------------------------------------------------------ public form

  /** The attributes `toJSON` keeps, in column order; the timestamps are not modelled. */
  const PublicKeys: seq<string> :=
    ["id", "username", "email", "phone", "name", "school", "grade", "avatar_url", "last_login", "status"]

  function StatusText(s: AccountStatus): string {
    match s
    case Active => "active"
    case Inactive => "inactive"
    case Banned => "banned"
  }

  function Nullable(o: Option<string>): Value {
    if o.Some? then JStr(o.value) else JNull
  }

  function Timestamp(o: Option<nat>): Value {
    if o.Some? then JNum(o.value) else JNull
  }

  function ClaimsOf(u: User): Claims {
    Claims(u.id, u.email, u.username)
  }

  /** `user.toJSON()`: every attribute except `password_hash`. */
  function ToJSON(u: User): (r: Value)
    ensures r.JObj? && |r.fields| == |PublicKeys|
    ensures forall i | 0 <= i < |PublicKeys| :: r.fields[i].0 == PublicKeys[i]
    ensures Get(r, "password_hash") == None
  {
    JObj([("id", JNum(u.id)), ("username", JStr(u.username)), ("email", JStr(u.email)),
          ("phone", Nullable(u.phone)), ("name", JStr(u.name)), ("school", Nullable(u.school)),
          ("grade", JStr(u.grade)), ("avatar_url", Nullable(u.avatarUrl)),
          ("last_login", Timestamp(u.lastLogin)), ("status", JStr(StatusText(u.status)))])
  }

  /** Reading the public form back yields the user's identity... */
  lemma ToJSONShowsIdentity(u: User)
    ensures Get(ToJSON(u), "id") == Some(JNum(u.id))
    ensures Get(ToJSON(u), "username") == Some(JStr(u.username))
    ensures Get(ToJSON(u), "email") == Some(JStr(u.email))
  {
    var fs := ToJSON(u).fields;
    GetLast(fs, 0, "id");
    GetLast(fs, 1, "username");
    GetLast(fs, 2, "email");
  }

  /** ...and its name, grade and last login. */
  lemma ToJSONShowsProfile(u: User)
    ensures Get(ToJSON(u), "name") == Some(JStr(u.name))
    ensures Get(ToJSON(u), "grade") == Some(JStr(u.grade))
    ensures Get(ToJSON(u), "last_login") == Some(Timestamp(u.lastLogin))
  {
    var fs := ToJSON(u).fields;
    GetLast(fs, 4, "name");
    GetLast(fs, 6, "grade");
    GetLast(fs, 8, "last_login");
  }

  // ------------------------------------------------------------ lookups

  /** `User.findByPk(id)`. */
  function IndexOfId(users: seq<User>, id: int): (r: Option<nat>)
    ensures r.None? <==> forall i | 0 <= i < |users| :: users[i].id != id
    ensures r.Some? ==> r.value < |users| && users[r.value].id == id
  {
    if users == [] then None
    else if users[0].id == id then Some(0)
    else
      var k := IndexOfId(users[1..], id);
      if k.Some? then Some(k.value + 1) else None
  }

  /** `User.findOne({ where: { email } })`. */
  function IndexOfEmail(users: seq<User>, email: string): (r: Option<nat>)
    ensures r.None? <==> forall i | 0 <= i < |users| :: users[i].email != email
    ensures r.Some? ==> r.value < |users| && users[r.value].email == email
  {
    if users == [] then None
    else if users[0].email == email then Some(0)
    else
      var k := IndexOfEmail(users[1..], email);
      if k.Some? then Some(k.value + 1) else None
  }

  /** `User.findOne({ where: { [Op.or]: [{ email }, { username }] } })`. */
  function FindConflict(users: seq<User>, email: string, username: string): (r: Option<User>)
    ensures r.None? <==> forall u | u in users :: u.email != email && u.username != username
    ensures r.Some? ==> r.value in users && (r.value.email == email || r.value.username == username)
  {
    if users == [] then None
    else if users[0].email == email || users[0].username == username then Some(users[0])
    else FindConflict(users[1..], email, username)
  }

  /** The duplicate message names the email exactly when the clashing user has that email. */
  function ConflictMessage(found: User, email: string): (r: string)
    ensures r == EmailTaken <==> found.email == email
    ensures r == UsernameTaken <==> found.email != email
  {
    if found.email == email then EmailTaken else UsernameTaken
  }

  /** No two accounts share an email or a username. */
  ghost predicate Distinct(users: seq<User>) {
    forall i, j | 0 <= i < j < |users| :: users[i].email != users[j].email && users[i].username != users[j].username
  }

  ghost predicate IdsInOrder(users: seq<User>) {
    forall i | 0 <= i < |users| :: users[i].id == i + 1
  }

  // ------------------------------------------------------------ registration

  datatype Registration = Registration(
    username: string,
    email: string,
    password: string,
    name: string,
    phone: Option<string>,
    school: Option<string>,
    grade: string)

  /** The account `User.create` stores: active, never logged in, password hashed by the hook. */
  function NewUser(id: nat, reg: Registration): (u: User)
    ensures u.status == Active && u.lastLogin == None && u.avatarUrl == None
    ensures PasswordMatches(u.passwordHash, reg.password)
    ensures u.email == reg.email && u.username == reg.username && u.id == id
  {
    User(id, reg.username, reg.email, reg.phone, Hashed(reg.password), reg.name, reg.school, reg.grade, None, None, Active)
  }

  /** A registration that passes the duplicate check keeps the accounts distinct. */
  lemma {:induction false} RegisterKeepsDistinct(users: seq<User>, u: User)
    requires Distinct(users)
    requires FindConflict(users, u.email, u.username).None?
    ensures Distinct(users + [u])
  {
    var all := users + [u];
    forall i, j | 0 <= i < j < |all|
      ensures all[i].email != all[j].email && all[i].username != all[j].username
    {
      if j == |users| {
        assert all[i] in users;
      } else {
        assert all[i] == users[i] && all[j] == users[j];
      }
    }
  }

  // ------------------------------------------------------------ login

  datatype LoginCheck = Denied(refusal: Refusal) | Admitted(index: nat)

  /**
   * The checks of `login` in their order: the account by email, then the
   * password, then the account status.
   */
  function CheckLogin(users: seq<User>, email: string, password: string): (r: LoginCheck)
    ensures var k := IndexOfEmail(users, email);
      (r == Denied(Refusal(StatusUnauthorized, BadCredentials)) <==>
         k.None? || !PasswordMatches(users[k.value].passwordHash, password)) &&
      (r == Denied(Refusal(StatusForbidden, Disabled)) <==>
         k.Some? && PasswordMatches(users[k.value].passwordHash, password) && users[k.value].status != Active) &&
      (r.Admitted? <==>
         k.Some? && PasswordMatches(users[k.value].passwordHash, password) && users[k.value].status == Active) &&
      (r.Admitted? ==> r.index == k.value)
  {
    var k := IndexOfEmail(users, email);
    if k.None? then Denied(Refusal(StatusUnauthorized, BadCredentials))
    else if !PasswordMatches(users[k.value].passwordHash, password) then Denied(Refusal(StatusUnauthorized, BadCredentials))
    else if users[k.value].status != Active then Denied(Refusal(StatusForbidden, Disabled))
    else Admitted(k.value)
  }

  /** With distinct emails, the lookup by email finds exactly the account that has it. */
  lemma {:induction false} EmailFindsAccount(users: seq<User>, k: nat)
    requires k < |users| && Distinct(users)
    ensures IndexOfEmail(users, users[k].email) == Some(k)
  {
    if k > 0 {
      assert users[0].email != users[k].email;
      var rest := users[1..];
      assert Distinct(rest) by {
        forall i, j | 0 <= i < j < |rest|
          ensures rest[i].email != rest[j].email && rest[i].username != rest[j].username
        {
          assert rest[i] == users[i + 1] && rest[j] == users[j + 1];
        }
      }
      EmailFindsAccount(rest, k - 1);
    }
  }

  /** A freshly registered account logs in with the password it registered with. */
  lemma RegisteredCanLogIn(users: seq<User>, reg: Registration)
    requires Distinct(users) && FindConflict(users, reg.email, reg.username).None?
    ensures CheckLogin(users + [NewUser(|users| + 1, reg)], reg.email, reg.password) == Admitted(|users|)
  {
    var u := NewUser(|users| + 1, reg);
    RegisterKeepsDistinct(users, u);
    EmailFindsAccount(users + [u], |users|);
  }

  /** After a password change the new password is accepted and a different old one is not. */
  lemma ChangedPasswordLogsIn(users: seq<User>, k: nat, oldPassword: string, newPassword: string)
    requires k < |users| && Distinct(users)
    requires oldPassword != newPassword
    ensures var after := users[k := users[k].(passwordHash := Hashed(newPassword))];
      CheckLogin(after, users[k].email, newPassword) != Denied(Refusal(StatusUnauthorized, BadCredentials)) &&
      CheckLogin(after, users[k].email, oldPassword) == Denied(Refusal(StatusUnauthorized, BadCredentials))
  {
    var after := users[k := users[k].(passwordHash := Hashed(newPassword))];
    RehashKeepsDistinct(users, k, after[k]);
    EmailFindsAccount(after, k);
  }

  // ------------------------------------------------------------ profile

  /** What the handlers answer, besides a refusal. */
  datatype Reply =
    | Refused(refusal: Refusal)
    | Registered(user: Value, token: Claims)
    | LoggedIn(user: Value, token: Claims)
    | ProfileOf(user: Value)
    | ProfileUpdated(user: Value)
    | PasswordChanged

  /** `profile`: the signed-in user's public form. */
  function Profile(users: seq<User>, userId: Option<int>): (r: Reply)
    ensures !SignedIn(userId) <==> r == Refused(Refusal(StatusUnauthorized, Unauthenticated))
    ensures SignedIn(userId) && IndexOfId(users, userId.value).None? <==> r == Refused(Refusal(StatusNotFound, NoUser))
    ensures r.ProfileOf? ==> exists i | 0 <= i < |users| :: users[i].id == userId.value && r.user == ToJSON(users[i])
    ensures r.Refused? || r.ProfileOf?
  {
    if !SignedIn(userId) then Refused(Refusal(StatusUnauthorized, Unauthenticated))
    else
      var k := IndexOfId(users, userId.value);
      if k.None? then Refused(Refusal(StatusNotFound, NoUser)) else ProfileOf(ToJSON(users[k.value]))
  }

  /** The fields of an `updateProfile` body; each may be missing. */
  datatype ProfileEdit = ProfileEdit(
    name: Option<string>,
    phone: Option<string>,
    school: Option<string>,
    grade: Option<string>,
    avatarUrl: Option<string>)

  /** A body value that is present and not the empty string, i.e. truthy. */
  predicate Filled(given: Option<string>) {
    given.Some? && given.value != ""
  }

  /** `given || current` for a required column. */
  function Keep(given: Option<string>, current: string): (r: string)
    ensures Filled(given) ==> r == given.value
    ensures !Filled(given) ==> r == current
  {
    if Filled(given) then given.value else current
  }

  /** `given || current` for a nullable column. */
  function KeepOptional(given: Option<string>, current: Option<string>): (r: Option<string>)
    ensures Filled(given) ==> r == given
    ensures !Filled(given) ==> r == current
  {
    if Filled(given) then given else current
  }

  /** The user after `updateProfile`: the five profile columns merged, everything else as it was. */
  function Merged(u: User, e: ProfileEdit): (r: User)
    ensures r.id == u.id && r.username == u.username && r.email == u.email
    ensures r.passwordHash == u.passwordHash && r.status == u.status && r.lastLogin == u.lastLogin
    ensures r.name == Keep(e.name, u.name) && r.grade == Keep(e.grade, u.grade)
    ensures r.phone == KeepOptional(e.phone, u.phone) && r.school == KeepOptional(e.school, u.school)
    ensures r.avatarUrl == KeepOptional(e.avatarUrl, u.avatarUrl)
  {
    u.(name := Keep(e.name, u.name), phone := KeepOptional(e.phone, u.phone),
       school := KeepOptional(e.school, u.school), grade := Keep(e.grade, u.grade),
       avatarUrl := KeepOptional(e.avatarUrl, u.avatarUrl))
  }

  /** An edit whose every field is missing or empty changes nothing. */
  lemma EmptyEditKeepsUser(u: User, e: ProfileEdit)
    requires !Filled(e.name) && !Filled(e.phone) && !Filled(e.school) && !Filled(e.grade) && !Filled(e.avatarUrl)
    ensures Merged(u, e) == u
  {
  }

  /** Applying the same edit twice is applying it once. */
  lemma MergeIdempotent(u: User, e: ProfileEdit)
    ensures Merged(Merged(u, e), e) == Merged(u, e)
  {
  }

  /** The merge can only blank nothing: a filled column stays filled. */
  lemma MergeNeverClears(u: User, e: ProfileEdit)
    requires u.name != "" && u.phone.Some? && u.phone.value != ""
    ensures Merged(u, e).name != "" && Merged(u, e).phone.Some? && Merged(u, e).phone.value != ""
  {
  }

  /** The merge leaves the accounts distinct: it touches neither emails nor usernames. */
  lemma {:induction false} MergeKeepsDistinct(users: seq<User>, k: nat, e: ProfileEdit)
    requires k < |users| && Distinct(users)
    ensures Distinct(users[k := Merged(users[k], e)])
  {
    var all := users[k := Merged(users[k], e)];
    forall i, j | 0 <= i < j < |all|
      ensures all[i].email != all[j].email && all[i].username != all[j].username
    {
      assert all[i].email == users[i].email && all[i].username == users[i].username;
      assert all[j].email == users[j].email && all[j].username == users[j].username;
    }
  }

  /** A new password hash leaves the accounts distinct. */
  lemma {:induction false} RehashKeepsDistinct(users: seq<User>, k: nat, u: User)
    requires k < |users| && Distinct(users)
    requires u.email == users[k].email && u.username == users[k].username
    ensures Distinct(users[k := u])
  {
    var all := users[k := u];
    forall i, j | 0 <= i < j < |all|
      ensures all[i].email != all[j].email && all[i].username != all[j].username
    {
      assert all[i].email == users[i].email && all[i].username == users[i].username;
      assert all[j].email == users[j].email && all[j].username == users[j].username;
    }
  }

  // ------------------------------------------------------------ the users table

  class AccountStore {
    var users: seq<User>

    ghost predicate Valid()
      reads this
    {
      IdsInOrder(users) && Distinct(users)
    }

    constructor()
      ensures Valid() && users == []
    {
      users := [];
    }

    /**
     * `register`: refused with 400 when an account shares the email or the
     * username, otherwise a new active account and the claims of its token.
     */
    method Register(reg: Registration) returns (reply: Reply)
      requires Valid()
      modifies this
      ensures Valid()
      ensures var found := FindConflict(old(users), reg.email, reg.username);
        found.Some? ==>
          reply == Refused(Refusal(StatusBadRequest, ConflictMessage(found.value, reg.email))) && users == old(users)
      ensures var found := FindConflict(old(users), reg.email, reg.username);
        found.None? ==>
          var u := NewUser(|old(users)| + 1, reg);
          users == old(users) + [u] && reply == Registered(ToJSON(u), ClaimsOf(u))
    {
      var found := FindConflict(users, reg.email, reg.username);
      if found.Some? {
        reply := Refused(Refusal(StatusBadRequest, ConflictMessage(found.value, reg.email)));
        return;
      }
      var u := NewUser(|users| + 1, reg);
      RegisterKeepsDistinct(users, u);
      users := users + [u];
      reply := Registered(ToJSON(u), ClaimsOf(u));
    }

    /**
     * `login`: the checks of `CheckLogin`; an admitted user's `last_login`
     * becomes `now` before the reply and its token are made.
     */
    method Login(email: string, password: string, now: nat) returns (reply: Reply)
      requires Valid()
      modifies this
      ensures Valid()
      ensures CheckLogin(old(users), email, password).Denied? ==>
        reply == Refused(CheckLogin(old(users), email, password).refusal) && users == old(users)
      ensures CheckLogin(old(users), email, password).Admitted? ==>
        var k := CheckLogin(old(users), email, password).index;
        var u := old(users)[k].(lastLogin := Some(now));
        users == old(users)[k := u] && reply == LoggedIn(ToJSON(u), ClaimsOf(u))
    {
      var check := CheckLogin(users, email, password);
      if check.Denied? {
        reply := Refused(check.refusal);
        return;
      }
      var k := check.index;
      var u := users[k].(lastLogin := Some(now));
      RehashKeepsDistinct(users, k, u);
      users := users[k := u];
      reply := LoggedIn(ToJSON(u), ClaimsOf(u));
    }

    /** `updateProfile`: 401 or 404, otherwise the merged profile stored and answered. */
    method UpdateProfile(userId: Option<int>, edit: ProfileEdit) returns (reply: Reply)
      requires Valid()
      modifies this
      ensures Valid()
      ensures !SignedIn(userId) ==> reply == Refused(Refusal(StatusUnauthorized, Unauthenticated)) && users == old(users)
      ensures SignedIn(userId) && IndexOfId(old(users), userId.value).None? ==>
        reply == Refused(Refusal(StatusNotFound, NoUser)) && users == old(users)
      ensures SignedIn(userId) && IndexOfId(old(users), userId.value).Some? ==>
        var k := IndexOfId(old(users), userId.value).value;
        users == old(users)[k := Merged(old(users)[k], edit)] && reply == ProfileUpdated(ToJSON(users[k]))
    {
      if !SignedIn(userId) {
        reply := Refused(Refusal(StatusUnauthorized, Unauthenticated));
        return;
      }
      var found := IndexOfId(users, userId.value);
      if found.None? {
        reply := Refused(Refusal(StatusNotFound, NoUser));
        return;
      }
      var k := found.value;
      MergeKeepsDistinct(users, k, edit);
      users := users[k := Merged(users[k], edit)];
      reply := ProfileUpdated(ToJSON(users[k]));
    }

    /** `changePassword`: 401, 404, or 400 when the old password does not match; only then is the hash replaced. */
    method ChangePassword(userId: Option<int>, oldPassword: string, newPassword: string) returns (reply: Reply)
      requires Valid()
      modifies this
      ensures Valid()
      ensures !SignedIn(userId) ==> reply == Refused(Refusal(StatusUnauthorized, Unauthenticated)) && users == old(users)
      ensures SignedIn(userId) && IndexOfId(old(users), userId.value).None? ==>
        reply == Refused(Refusal(StatusNotFound, NoUser)) && users == old(users)
      ensures SignedIn(userId) && IndexOfId(old(users), userId.value).Some? ==>
        var k := IndexOfId(old(users), userId.value).value;
        if PasswordMatches(old(users)[k].passwordHash, oldPassword) then
          users == old(users)[k := old(users)[k].(passwordHash := Hashed(newPassword))] && reply == PasswordChanged
        else
          users == old(users) && reply == Refused(Refusal(StatusBadRequest, WrongOldPassword))
    {
      if !SignedIn(userId) {
        reply := Refused(Refusal(StatusUnauthorized, Unauthenticated));
        return;
      }
      var found := IndexOfId(users, userId.value);
      if found.None? {
        reply := Refused(Refusal(StatusNotFound, NoUser));
        return;
      }
      var k := found.value;
      if !PasswordMatches(users[k].passwordHash, oldPassword) {
        reply := Refused(Refusal(StatusBadRequest, WrongOldPassword));
        return;
      }
      var u := users[k].(passwordHash := Hashed(newPassword));
      RehashKeepsDistinct(users, k, u);
      users := users[k := u];
      reply := PasswordChanged;
    }
  }
}
