/** Profiles and matches. `caller` is the authenticated user's id; every user
    returned is the password-free projection. */
module UserController {
  import opened Common
  import opened Text
  import opened Matching
  import opened UserModel

  /** `getMe`: the caller's record, or `null` (`None`) when it is gone; no 404. */
  function GetMe(users: seq<User>, caller: Id): (r: Option<PublicUser>)
    ensures r.None? <==> forall j :: 0 <= j < |users| ==> users[j].id != caller
    ensures r.Some? ==> exists j :: 0 <= j < |users| && users[j].id == caller && r.value == Public(users[j])
  {
    match IndexOfId(users, caller)
    case None => None
    case Some(i) => Some(Public(users[i]))
  }

  /** `getUserById`. */
  function GetUserById(users: seq<User>, id: Id): (r: Reply<PublicUser>)
    ensures r.Fail? <==> forall j :: 0 <= j < |users| ==> users[j].id != id
    ensures r.Fail? ==> r == Fail(404, "User not found")
    ensures r.Ok? ==> exists j :: 0 <= j < |users| && users[j].id == id && r.value == Public(users[j])
  {
    match IndexOfId(users, id)
    case None => Fail(404, "User not found")
    case Some(i) => Ok(Public(users[i]))
  }

  /** The whitelisted body fields of `updateProfile`; an absent field is `None`
      and is left out of the `$set`. */
  datatype ProfileFields = ProfileFields(
    name: Option<string>,
    skills: Option<seq<string>>,
    interests: Option<seq<string>>,
    bio: Option<string>,
    title: Option<string>,
    company: Option<string>,
    availability: Option<string>,
    experience: Option<string>,
    avatar: Option<string>)

  /** `$set: profileFields` through `findByIdAndUpdate`: the setters run
      (`trim` on the name and on each tag), the validators do not. */
  function ApplyProfile(u: User, f: ProfileFields): User {
    u.(name := if f.name.Some? then Trim(f.name.value) else u.name,
       skills := if f.skills.Some? then TrimAll(f.skills.value) else u.skills,
       interests := if f.interests.Some? then TrimAll(f.interests.value) else u.interests,
       bio := f.bio.GetOr(u.bio),
       title := f.title.GetOr(u.title),
       company := f.company.GetOr(u.company),
       availability := f.availability.GetOr(u.availability),
       experience := f.experience.GetOr(u.experience),
       avatar := f.avatar.GetOr(u.avatar))
  }

  /** `updateProfile`: 404 for an unknown caller, otherwise the nine whitelisted
      fields are written and the updated record is returned. */
  function UpdateStep(users: seq<User>, nextId: Id, caller: Id, f: ProfileFields): Step<User, PublicUser>
  {
    match IndexOfId(users, caller)
    case None => Step(users, nextId, Fail(404, "User not found"))
    case Some(i) =>
      var u := ApplyProfile(users[i], f);
      Step(users[i := u], nextId, Ok(Public(u)))
  }

  /** PUT /users/profile. */
  method UpdateProfile(db: Users, caller: Id, f: ProfileFields) returns (r: Reply<PublicUser>)
    requires db.Valid()
    modifies db
    ensures db.Valid()
    ensures Step(db.all, db.nextId, r) == UpdateStep(old(db.all), old(db.nextId), caller, f)
  {
    var found := IndexOfId(db.all, caller);
    if found.None? {
      return Fail(404, "User not found");
    }
    var u := ApplyProfile(db.all[found.value], f);
    db.Replace(found.value, u);
    r := Ok(Public(u));
  }

  /** Only the caller's record changes, and in it only the whitelisted fields
      that were sent: id, email, password, role and the verification fields
      are never touched, and the reply carries no password. */
  lemma UpdateTouchesOnlyWhitelist(users: seq<User>, nextId: Id, caller: Id, f: ProfileFields)
    ensures var o := UpdateStep(users, nextId, caller, f);
      var found := IndexOfId(users, caller);
      && o.nextId == nextId && |o.store| == |users|
      && (found.None? ==> o.store == users && o.reply == Fail(404, "User not found"))
      && (found.Some? ==>
            var u, v := users[found.value], o.store[found.value];
            && (forall j :: 0 <= j < |users| && j != found.value ==> o.store[j] == users[j])
            && v.id == u.id && v.email == u.email && v.password == u.password && v.role == u.role
            && v.isVerified == u.isVerified && v.otp == u.otp && v.otpExpiry == u.otpExpiry
            && (f.name.None? ==> v.name == u.name) && (f.name.Some? ==> v.name == Trim(f.name.value))
            && (f.skills.None? ==> v.skills == u.skills) && (f.skills.Some? ==> v.skills == TrimAll(f.skills.value))
            && (f.interests.None? ==> v.interests == u.interests)
            && (f.interests.Some? ==> v.interests == TrimAll(f.interests.value))
            && v.bio == f.bio.GetOr(u.bio) && v.title == f.title.GetOr(u.title)
            && v.company == f.company.GetOr(u.company) && v.availability == f.availability.GetOr(u.availability)
            && v.experience == f.experience.GetOr(u.experience) && v.avatar == f.avatar.GetOr(u.avatar)
            && o.reply == Ok(Public(v)))
  {
  }

  /** An update with no fields changes nothing. */
  lemma EmptyUpdateChangesNothing(users: seq<User>, nextId: Id, caller: Id)
    ensures var f := ProfileFields(None, None, None, None, None, None, None, None, None);
      UpdateStep(users, nextId, caller, f).store == users
  {
  }

  /** The role `getMatches` looks for: mentors for a mentee, mentees for anyone else. */
  function TargetRole(r: Role): (t: Role)
    ensures t != r
    ensures r == Mentee <==> t == Mentor
  {
    if r == Mentee then Mentor else Mentee
  }

  /** One entry of the match list: the password-free candidate and the score. */
  datatype Match = Match(user: PublicUser, score: real)

  function ToMatch(e: Scored): Match {
    Match(Public(e.user), e.score)
  }

  /** `getMatches`: every user of the opposite role, in store order, ranked by
      the recommender. An unknown caller makes `currentUser.role` throw (500). */
  function GetMatches(users: seq<User>, caller: Id): (r: Reply<seq<Match>>)
    ensures r.Fail? <==> IndexOfId(users, caller).None?
    ensures r.Fail? ==> r == ServerError()
    ensures r.Ok? ==> var me := users[IndexOfId(users, caller).value];
      var candidates := Filter(users, (u: User) => u.role == TargetRole(me.role));
      && |r.value| == |candidates|
      && (forall i :: 0 <= i < |r.value| ==> r.value[i].user.role == TargetRole(me.role))
      && (forall i :: 0 <= i < |r.value| ==> ScoredFrom(me, candidates, r.value[i]))
      && (forall i, j :: 0 <= i < j < |r.value| ==> r.value[i].score >= r.value[j].score)
      && multiset(MapSeq(r.value, (m: Match) => m.user)) == multiset(MapSeq(candidates, Public))
  {
    match IndexOfId(users, caller)
    case None => ServerError()
    case Some(i) =>
      var me := users[i];
      var candidates := Filter(users, (u: User) => u.role == TargetRole(me.role));
      RankedMatches(me, candidates, TargetRole(me.role));
      MatchesScored(me, candidates);
      Ok(MapSeq(Recommendations(me, candidates), ToMatch))
  }

  /** Ranking candidates that all have one role gives matches of that role,
      by descending score, one per candidate. */
  lemma RankedMatches(me: User, candidates: seq<User>, role: Role)
    requires forall c :: c in candidates ==> c.role == role
    ensures var r := MapSeq(Recommendations(me, candidates), ToMatch);
      && |r| == |candidates|
      && (forall i :: 0 <= i < |r| ==> r[i].user.role == role)
      && (forall i, j :: 0 <= i < j < |r| ==> r[i].score >= r[j].score)
      && multiset(MapSeq(r, (m: Match) => m.user)) == multiset(MapSeq(candidates, Public))
  {
    var ranked := Recommendations(me, candidates);
    var r := MapSeq(ranked, ToMatch);
    forall k | 0 <= k < |r| ensures r[k].user.role == role {
      assert ranked[k] in multiset(MapSeq(candidates, ScoreOf(me)));
      var j :| 0 <= j < |candidates| && MapSeq(candidates, ScoreOf(me))[j] == ranked[k];
      assert candidates[j] in candidates;
    }
    MatchesPermuteCandidates(me, candidates);
  }

  /** A match is the projection of one of the candidates, scored by that
      candidate's similarity to me. */
  predicate ScoredFrom(me: User, candidates: seq<User>, m: Match) {
    exists j :: 0 <= j < |candidates| && m.user == Public(candidates[j]) && m.score == Similarity(me, candidates[j])
  }

  /** Every match's score is the similarity of its candidate to me, as
      `calculateSimilarity(currentUser, candidate)` computes it. */
  lemma MatchesScored(me: User, candidates: seq<User>)
    ensures var r := MapSeq(Recommendations(me, candidates), ToMatch);
      forall i :: 0 <= i < |r| ==> ScoredFrom(me, candidates, r[i])
  {
    var ranked := Recommendations(me, candidates);
    var r := MapSeq(ranked, ToMatch);
    forall k | 0 <= k < |r| ensures ScoredFrom(me, candidates, r[k]) {
      assert ranked[k] in multiset(MapSeq(candidates, ScoreOf(me)));
      var j :| 0 <= j < |candidates| && MapSeq(candidates, ScoreOf(me))[j] == ranked[k];
      assert r[k].user == Public(candidates[j]) && r[k].score == Similarity(me, candidates[j]);
    }
  }

  /** The users in the ranked list are the candidates' projections, each once per candidate. */
  lemma MatchesPermuteCandidates(me: User, candidates: seq<User>)
    ensures multiset(MapSeq(MapSeq(Recommendations(me, candidates), ToMatch), (m: Match) => m.user))
         == multiset(MapSeq(candidates, Public))
  {
    var ranked := Recommendations(me, candidates);
    var scored := MapSeq(candidates, ScoreOf(me));
    var proj := (e: Scored) => Public(e.user);
    MapPermutation(ranked, scored, proj);
    assert MapSeq(MapSeq(ranked, ToMatch), (m: Match) => m.user) == MapSeq(ranked, proj);
    assert MapSeq(scored, proj) == MapSeq(candidates, Public);
  }

  /** The caller never appears among their own matches: every match has the other role. */
  lemma MatchesExcludeCaller(users: seq<User>, caller: Id)
    requires GetMatches(users, caller).Ok?
    ensures var me := users[IndexOfId(users, caller).value];
      forall m :: m in GetMatches(users, caller).value ==> m.user != Public(me)
  {
    var me := users[IndexOfId(users, caller).value];
    forall m | m in GetMatches(users, caller).value ensures m.user != Public(me) {
      assert m.user.role != me.role;
    }
  }
}
