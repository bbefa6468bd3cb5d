/** The `User` schema: the role enum, the `trim`/`lowercase` setters, the
    `required` paths, the defaults, the unique email index, and the
    collection itself as a class whose sequence the controllers update. */
module UserModel {
  import opened Common
  import opened Text

  datatype Role = Mentor | Mentee

  function RoleName(r: Role): string {
    match r
    case Mentor => "mentor"
    case Mentee => "mentee"
  }

  /** Enum validation of `role`: exactly the two listed names are accepted. */
  function ParseRole(s: string): (r: Option<Role>)
    ensures r.Some? <==> (s == "mentor" || s == "mentee")
    ensures r.Some? ==> RoleName(r.value) == s
  {
    if s == "mentor" then Some(Mentor) else if s == "mentee" then Some(Mentee) else None
  }

  datatype User = User(
    id: Id,
    name: string,
    email: string,
    password: string,
    role: Role,
    skills: seq<string>,
    interests: seq<string>,
    bio: string,
    title: string,
    company: string,
    availability: string,
    experience: string,
    avatar: string,
    isVerified: bool,
    otp: Option<string>,
    otpExpiry: Option<int>)

  /** The `email` path's `trim` and `lowercase` setters. Mongoose also runs
      them on query filters, so lookups by email use the same key. */
  function NormaliseEmail(e: string): (r: string)
    ensures forall i :: 0 <= i < |r| ==> !('A' <= r[i] <= 'Z')
    ensures |r| > 0 ==> !IsSpace(r[0]) && !IsSpace(r[|r| - 1])
    ensures r == [] <==> IsBlank(e)
  {
    Lower(Trim(e))
  }

  /** Normalising a stored email again changes nothing. */
  lemma NormaliseEmailIdempotent(e: string)
    ensures NormaliseEmail(NormaliseEmail(e)) == NormaliseEmail(e)
  {
    var t := Trim(e);
    LowerTrimCommute(t);
    TrimIdempotent(e);
    LowerIdempotent(t);
  }

  /** The element `trim` setter of the `skills` and `interests` arrays. */
  function TrimAll(tags: seq<string>): (r: seq<string>)
    ensures |r| == |tags|
    ensures forall i :: 0 <= i < |r| ==> r[i] == Trim(tags[i]) && Trim(r[i]) == r[i]
  {
    var r := MapSeq(tags, Trim);
    forall i | 0 <= i < |r| ensures Trim(r[i]) == r[i] {
      TrimIdempotent(tags[i]);
    }
    r
  }

  /** `new User({...})`: the setters applied, every unlisted path at its default. */
  function NewUser(id: Id, name: string, email: string, password: string, role: Role,
                   skills: seq<string>, interests: seq<string>,
                   otp: Option<string>, otpExpiry: Option<int>): (u: User)
    ensures u.id == id && u.role == role && u.password == password
    ensures u.name == Trim(name) && u.email == NormaliseEmail(email)
    ensures u.skills == TrimAll(skills) && u.interests == TrimAll(interests)
    ensures u.bio == u.title == u.company == u.availability == u.experience == u.avatar == ""
    ensures !u.isVerified && u.otp == otp && u.otpExpiry == otpExpiry
  {
    User(id, Trim(name), NormaliseEmail(email), password, role, TrimAll(skills), TrimAll(interests),
         "", "", "", "", "", "", false, otp, otpExpiry)
  }

  /** The `required` validators: an empty string fails, as in Mongoose. */
  predicate Validates(u: User) {
    u.name != "" && u.email != "" && u.password != ""
  }

  /** What `.select('-password')` returns: every path except the password. */
  datatype PublicUser = PublicUser(
    id: Id,
    name: string,
    email: string,
    role: Role,
    skills: seq<string>,
    interests: seq<string>,
    bio: string,
    title: string,
    company: string,
    availability: string,
    experience: string,
    avatar: string,
    isVerified: bool,
    otp: Option<string>,
    otpExpiry: Option<int>)

  function Public(u: User): PublicUser {
    PublicUser(u.id, u.name, u.email, u.role, u.skills, u.interests, u.bio, u.title,
               u.company, u.availability, u.experience, u.avatar, u.isVerified, u.otp, u.otpExpiry)
  }

  /** The projection carries nothing of the password, and everything else. */
  lemma PublicOmitsOnlyPassword(u: User, v: User)
    ensures Public(u) == Public(v) <==> u == v.(password := u.password)
  {
  }

  /** `User.findOne({ email })`: the first user whose stored email matches the normalised key. */
  function IndexOfEmail(users: seq<User>, email: string): (r: Option<nat>)
    ensures r.Some? ==> r.value < |users| && users[r.value].email == NormaliseEmail(email)
    ensures r.Some? ==> forall j :: 0 <= j < r.value ==> users[j].email != NormaliseEmail(email)
    ensures r.None? <==> forall j :: 0 <= j < |users| ==> users[j].email != NormaliseEmail(email)
  {
    var key := NormaliseEmail(email);
    FirstIndex(users, (u: User) => u.email == key)
  }

  /** `User.findById(id)`. */
  function IndexOfId(users: seq<User>, id: Id): (r: Option<nat>)
    ensures r.Some? ==> r.value < |users| && users[r.value].id == id
    ensures r.Some? ==> forall j :: 0 <= j < r.value ==> users[j].id != id
    ensures r.None? <==> forall j :: 0 <= j < |users| ==> users[j].id != id
  {
    FirstIndex(users, (u: User) => u.id == id)
  }

  /** Ids are allocated below `nextId` and are distinct, and the unique index
      on `email` holds. */
  predicate WellFormed(users: seq<User>, nextId: Id) {
    && (forall i :: 0 <= i < |users| ==> users[i].id < nextId)
    && (forall i, j :: 0 <= i < j < |users| ==> users[i].id != users[j].id)
    && (forall i, j :: 0 <= i < j < |users| ==> users[i].email != users[j].email)
  }

  /** Replacing a user by one with the same id and email keeps the collection well formed. */
  lemma WellFormedUpdate(users: seq<User>, nextId: Id, i: nat, u: User)
    requires WellFormed(users, nextId) && i < |users|
    requires u.id == users[i].id && u.email == users[i].email
    ensures WellFormed(users[i := u], nextId)
  {
    var users' := users[i := u];
    assert forall j :: 0 <= j < |users| ==> users'[j].id == users[j].id && users'[j].email == users[j].email;
  }

  /** Appending a user with the next id and an email no one has keeps it well formed. */
  lemma WellFormedAppend(users: seq<User>, nextId: Id, u: User)
    requires WellFormed(users, nextId)
    requires u.id == nextId
    requires forall j :: 0 <= j < |users| ==> users[j].email != u.email
    ensures WellFormed(users + [u], nextId + 1)
  {
    var users' := users + [u];
    assert forall j :: 0 <= j < |users| ==> users'[j] == users[j];
    assert users'[|users|] == u;
    assert forall i, j :: 0 <= i < j < |users'| ==> users'[i].id != users'[j].id by {
      forall i, j | 0 <= i < j < |users'| ensures users'[i].id != users'[j].id {
        if j == |users| { assert users[i].id < nextId; }
      }
    }
  }

  /** Replacing a user by one with the same email keeps every email lookup. */
  lemma IndexOfEmailUpdate(users: seq<User>, i: nat, u: User, email: string)
    requires i < |users| && u.email == users[i].email
    ensures IndexOfEmail(users[i := u], email) == IndexOfEmail(users, email)
  {
    var users' := users[i := u];
    assert forall j :: 0 <= j < |users| ==> users'[j].email == users[j].email;
  }

  /** Two spellings of one normalised email find the same user. */
  lemma IndexOfSameEmail(users: seq<User>, email: string, email2: string)
    requires NormaliseEmail(email2) == NormaliseEmail(email)
    ensures IndexOfEmail(users, email2) == IndexOfEmail(users, email)
  {
  }

  /** A user appended with an email no one has is found by that email at the end. */
  lemma IndexOfEmailAppend(users: seq<User>, u: User, email: string)
    requires IndexOfEmail(users, email).None? && u.email == NormaliseEmail(email)
    ensures IndexOfEmail(users + [u], email) == Some(|users|)
  {
    var users' := users + [u];
    assert forall j :: 0 <= j < |users| ==> users'[j] == users[j];
    assert users'[|users|] == u;
  }

  /** Replacing a user by one with the same id keeps every id lookup. */
  lemma IndexOfIdUpdate(users: seq<User>, i: nat, u: User, id: Id)
    requires i < |users| && u.id == users[i].id
    ensures IndexOfId(users[i := u], id) == IndexOfId(users, id)
  {
    var users' := users[i := u];
    assert forall j :: 0 <= j < |users| ==> users'[j].id == users[j].id;
  }

  /** The `users` collection. */
  class Users {
    var all: seq<User>
    var nextId: Id

    ghost predicate Valid()
      reads this
    {
      WellFormed(all, nextId)
    }

    constructor ()
      ensures Valid() && all == [] && nextId == 0
    {
      all := [];
      nextId := 0;
    }

    /** `user.save()` on a stored user: the record at `i` is replaced by one
        with the same id and email. */
    method Replace(i: nat, u: User)
      requires Valid() && i < |all| && u.id == all[i].id && u.email == all[i].email
      modifies this
      ensures Valid() && all == old(all)[i := u] && nextId == old(nextId)
    {
      WellFormedUpdate(all, nextId, i, u);
      all := all[i := u];
    }

    /** `user.save()` on a new user: it gets the next id, and its email is one no one has. */
    method Insert(u: User)
      requires Valid() && u.id == nextId
      requires forall j :: 0 <= j < |all| ==> all[j].email != u.email
      modifies this
      ensures Valid() && all == old(all) + [u] && nextId == old(nextId) + 1
    {
      WellFormedAppend(all, nextId, u);
      all := all + [u];
      nextId := nextId + 1;
    }
  }
}
