/** Email/OTP registration and login over the `users` collection.
    bcrypt's hash is given (`hashed`), bcrypt's comparison is the parameter
    `matches`, `Math.random()` is `draw`, `Date.now()` is `now` (ms), and the
    outcome of sending the OTP email is `mailOk`. JWT signing is left out, so
    a successful verify or login returns the user summary without the token. */
module AuthController {
  import opened Common
  import opened Text
  import opened UserModel

  /** Ten minutes in milliseconds. */
  const OtpLifetime: int := 10 * 60 * 1000

  /** `Math.floor(100000 + Math.random() * 900000)`. */
  function OtpValue(draw: real): (n: nat)
    requires 0.0 <= draw < 1.0
    ensures 100000 <= n <= 999999
  {
    (100000.0 + draw * 900000.0).Floor
  }

  /** `generateOTP()`: the decimal text of `OtpValue`, always six digits. */
  function GenerateOtp(draw: real): (otp: string)
    requires 0.0 <= draw < 1.0
    ensures |otp| == 6 && AllDigits(otp)
    ensures 100000 <= DigitsValue(otp) <= 999999
  {
    var n := OtpValue(draw);
    assert Pow10(5) == 100000 && Pow10(6) == 1000000;
    DecimalLength(n, 6);
    DecimalRoundTrip(n);
    Decimal(n)
  }

  /** The body of a successful register reply. */
  datatype Registered = Registered(message: string, email: string)

  /** The user summary returned by verify and login (the JWT is left out). */
  datatype LoginInfo = LoginInfo(id: Id, name: string, email: string, role: Role)

  const RegisterMessage := "OTP sent to your email. Please verify to complete registration."

  /** The reply once the user is saved: sending the email can still throw. */
  function AfterMail<T>(mailOk: bool, body: T): Reply<T> {
    if mailOk then Ok(body) else ServerError()
  }

  /** The assignments to an unverified account that registers again, with the setters applied. */
  function Reregistered(u: User, name: string, hashed: string, role: Role, skills: seq<string>,
                        interests: seq<string>, otp: string, otpExpiry: int): User
  {
    u.(name := Trim(name), password := hashed, role := role, skills := TrimAll(skills),
       interests := TrimAll(interests), otp := Some(otp), otpExpiry := Some(otpExpiry))
  }

  /** `register`, as a function of the collection: an unverified account with
      the email is overwritten, otherwise a new one is created. Saving fails
      (500, nothing stored) when the role is not in the enum or a required
      path is empty. */
  function RegisterStep(users: seq<User>, nextId: Id, name: string, email: string, hashed: string,
                        role: string, skills: seq<string>, interests: seq<string>,
                        otp: string, otpExpiry: int, mailOk: bool): Step<User, Registered>
  {
    var found := IndexOfEmail(users, email);
    if found.Some? && users[found.value].isVerified then
      Step(users, nextId, Fail(400, "User already exists"))
    else if ParseRole(role).None? then
      Step(users, nextId, ServerError())
    else
      var ro := ParseRole(role).value;
      var ok := AfterMail(mailOk, Registered(RegisterMessage, email));
      if found.Some? then
        var i := found.value;
        var u := Reregistered(users[i], name, hashed, ro, skills, interests, otp, otpExpiry);
        if Validates(u) then Step(users[i := u], nextId, ok) else Step(users, nextId, ServerError())
      else
        var u := NewUser(nextId, name, email, hashed, ro, skills, interests, Some(otp), Some(otpExpiry));
        if Validates(u) then Step(users + [u], nextId + 1, ok) else Step(users, nextId, ServerError())
  }

  /** POST /auth/register. */
  method Register(db: Users, name: string, email: string, hashed: string, role: string,
                  skills: seq<string>, interests: seq<string>, draw: real, now: int, mailOk: bool)
    returns (r: Reply<Registered>)
    requires db.Valid() && 0.0 <= draw < 1.0
    modifies db
    ensures db.Valid()
    ensures Step(db.all, db.nextId, r)
         == RegisterStep(old(db.all), old(db.nextId), name, email, hashed, role, skills, interests,
                         GenerateOtp(draw), now + OtpLifetime, mailOk)
  {
    var users, nextId := db.all, db.nextId;
    var found := IndexOfEmail(users, email);
    if found.Some? && users[found.value].isVerified {
      return Fail(400, "User already exists");
    }
    var otp := GenerateOtp(draw);
    var otpExpiry := now + OtpLifetime;
    var parsed := ParseRole(role);
    if parsed.None? {
      return ServerError();
    }
    r := AfterMail(mailOk, Registered(RegisterMessage, email));
    if found.Some? {
      var user := Reregistered(users[found.value], name, hashed, parsed.value, skills, interests,
                               otp, otpExpiry);
      if !Validates(user) {
        return ServerError();
      }
      db.Replace(found.value, user);
    } else {
      var user := NewUser(nextId, name, email, hashed, parsed.value, skills, interests,
                          Some(otp), Some(otpExpiry));
      if !Validates(user) {
        return ServerError();
      }
      db.Insert(user);
    }
  }

  /** Register never lets a second account share an email, and keeps ids fresh. */
  lemma RegisterPreservesWellFormed(users: seq<User>, nextId: Id, name: string, email: string,
                                    hashed: string, role: string, skills: seq<string>,
                                    interests: seq<string>, otp: string, otpExpiry: int, mailOk: bool)
    requires WellFormed(users, nextId)
    ensures var o := RegisterStep(users, nextId, name, email, hashed, role, skills, interests,
                                  otp, otpExpiry, mailOk);
      WellFormed(o.store, o.nextId)
  {
    var o := RegisterStep(users, nextId, name, email, hashed, role, skills, interests, otp, otpExpiry, mailOk);
    var found := IndexOfEmail(users, email);
    if o.store == users {
      assert o.nextId == nextId;
    } else {
      RegisterChanged(users, nextId, name, email, hashed, role, skills, interests, otp, otpExpiry, mailOk);
      var ro := ParseRole(role).value;
      if found.Some? {
        var i := found.value;
        var u := Reregistered(users[i], name, hashed, ro, skills, interests, otp, otpExpiry);
        WellFormedUpdate(users, nextId, i, u);
      } else {
        var u := NewUser(nextId, name, email, hashed, ro, skills, interests, Some(otp), Some(otpExpiry));
        NormaliseEmailIdempotent(email);
        WellFormedAppend(users, nextId, u);
      }
    }
  }

  /** A verified account with the email blocks registration, and nothing changes. */
  lemma RegisterRejectsVerified(users: seq<User>, nextId: Id, name: string, email: string,
                                hashed: string, role: string, skills: seq<string>,
                                interests: seq<string>, otp: string, otpExpiry: int, mailOk: bool)
    requires IndexOfEmail(users, email).Some? && users[IndexOfEmail(users, email).value].isVerified
    ensures RegisterStep(users, nextId, name, email, hashed, role, skills, interests, otp, otpExpiry, mailOk)
         == Step(users, nextId, Fail(400, "User already exists"))
  {
  }

  /** Registering again with an unverified email overwrites name, password,
      role, skills, interests, otp and expiry of that account only; it keeps its
      id, email and profile fields, and it stays unverified. */
  lemma RegisterOverwritesUnverified(users: seq<User>, nextId: Id, name: string, email: string,
                                     hashed: string, role: string, skills: seq<string>,
                                     interests: seq<string>, otp: string, otpExpiry: int, mailOk: bool)
    requires IndexOfEmail(users, email).Some? && !users[IndexOfEmail(users, email).value].isVerified
    requires (role == "mentor" || role == "mentee") && Trim(name) != "" && hashed != "" && !IsBlank(email)
    ensures var i := IndexOfEmail(users, email).value;
      var o := RegisterStep(users, nextId, name, email, hashed, role, skills, interests, otp, otpExpiry, mailOk);
      var u, v := users[i], o.store[i];
      && |o.store| == |users| && o.nextId == nextId
      && (forall j :: 0 <= j < |users| && j != i ==> o.store[j] == users[j])
      && v.name == Trim(name) && v.password == hashed && RoleName(v.role) == role
      && v.skills == TrimAll(skills) && v.interests == TrimAll(interests)
      && v.otp == Some(otp) && v.otpExpiry == Some(otpExpiry) && !v.isVerified
      && v.id == u.id && v.email == u.email && v.bio == u.bio && v.title == u.title
      && v.company == u.company && v.availability == u.availability
      && v.experience == u.experience && v.avatar == u.avatar
      && o.reply == AfterMail(mailOk, Registered(RegisterMessage, email))
  {
  }

  /** A new email creates one unverified account with the fresh OTP, at the next id. */
  lemma RegisterCreatesUnverified(users: seq<User>, nextId: Id, name: string, email: string,
                                  hashed: string, role: string, skills: seq<string>,
                                  interests: seq<string>, otp: string, otpExpiry: int, mailOk: bool)
    requires IndexOfEmail(users, email).None?
    requires (role == "mentor" || role == "mentee") && Trim(name) != "" && hashed != "" && !IsBlank(email)
    ensures var o := RegisterStep(users, nextId, name, email, hashed, role, skills, interests, otp, otpExpiry, mailOk);
      && o.nextId == nextId + 1 && |o.store| == |users| + 1 && o.store[..|users|] == users
      && var u := o.store[|users|];
      && u.id == nextId && u.email == NormaliseEmail(email) && u.name == Trim(name)
      && !u.isVerified && u.otp == Some(otp) && u.otpExpiry == Some(otpExpiry)
      && u.bio == u.title == u.company == u.availability == u.experience == u.avatar == ""
  {
  }

  /** Register and resend both issue a six-digit OTP that expires ten minutes on. */
  lemma RegisterIssuesFreshOtp(users: seq<User>, nextId: Id, name: string, email: string,
                               hashed: string, role: string, skills: seq<string>,
                               interests: seq<string>, draw: real, now: int, mailOk: bool)
    requires 0.0 <= draw < 1.0
    requires var o := RegisterStep(users, nextId, name, email, hashed, role, skills, interests,
                                   GenerateOtp(draw), now + OtpLifetime, mailOk);
      o.store != users
    ensures var o := RegisterStep(users, nextId, name, email, hashed, role, skills, interests,
                                  GenerateOtp(draw), now + OtpLifetime, mailOk);
      var i := if IndexOfEmail(users, email).Some? then IndexOfEmail(users, email).value else |users|;
      && i < |o.store|
      && var u := o.store[i];
      && u.otp.Some? && |u.otp.value| == 6 && AllDigits(u.otp.value)
      && 100000 <= DigitsValue(u.otp.value) <= 999999
      && u.otpExpiry == Some(now + 600000)
  {
    var otp := GenerateOtp(draw);
    RegisterStoresOtp(users, nextId, name, email, hashed, role, skills, interests, otp, now + OtpLifetime, mailOk);
  }

  /** A register that changes the collection stores the OTP and expiry it was given
      on the account of that email, or on the new account at the end. */
  lemma RegisterStoresOtp(users: seq<User>, nextId: Id, name: string, email: string,
                          hashed: string, role: string, skills: seq<string>,
                          interests: seq<string>, otp: string, otpExpiry: int, mailOk: bool)
    requires RegisterStep(users, nextId, name, email, hashed, role, skills, interests, otp, otpExpiry, mailOk).store != users
    ensures var o := RegisterStep(users, nextId, name, email, hashed, role, skills, interests, otp, otpExpiry, mailOk);
      var i := if IndexOfEmail(users, email).Some? then IndexOfEmail(users, email).value else |users|;
      && i < |o.store| && o.store[i].otp == Some(otp) && o.store[i].otpExpiry == Some(otpExpiry)
  {
    RegisterChanged(users, nextId, name, email, hashed, role, skills, interests, otp, otpExpiry, mailOk);
  }

  /** A register that changes the collection found the role valid, and either
      overwrote the unverified account of that email or appended a new one. */
  lemma RegisterChanged(users: seq<User>, nextId: Id, name: string, email: string,
                        hashed: string, role: string, skills: seq<string>,
                        interests: seq<string>, otp: string, otpExpiry: int, mailOk: bool)
    requires RegisterStep(users, nextId, name, email, hashed, role, skills, interests, otp, otpExpiry, mailOk).store != users
    ensures var o := RegisterStep(users, nextId, name, email, hashed, role, skills, interests, otp, otpExpiry, mailOk);
      var f := IndexOfEmail(users, email);
      && ParseRole(role).Some?
      && (f.Some? ==>
            && !users[f.value].isVerified
            && o.store == users[f.value := Reregistered(users[f.value], name, hashed, ParseRole(role).value,
                                                       skills, interests, otp, otpExpiry)])
      && (f.None? ==> o.store == users + [NewUser(nextId, name, email, hashed, ParseRole(role).value,
                                                  skills, interests, Some(otp), Some(otpExpiry))])
  {
  }

  /** `new Date() > user.otpExpiry`: a missing expiry compares as the epoch. */
  function ExpiryTime(expiry: Option<int>): int {
    expiry.GetOr(0)
  }

  /** `verifyOTP`: unknown user, already verified, wrong OTP and expired OTP
      are refused in that order; otherwise the account is marked verified and
      its OTP and expiry are cleared. */
  function VerifyStep(users: seq<User>, nextId: Id, email: string, otp: string, now: int): Step<User, LoginInfo>
  {
    match IndexOfEmail(users, email)
    case None => Step(users, nextId, Fail(400, "User not found"))
    case Some(i) =>
      var u := users[i];
      if u.isVerified then Step(users, nextId, Fail(400, "Email already verified"))
      else if u.otp != Some(otp) then Step(users, nextId, Fail(400, "Invalid OTP"))
      else if now > ExpiryTime(u.otpExpiry) then
        Step(users, nextId, Fail(400, "OTP has expired. Please register again."))
      else
        var v := u.(isVerified := true, otp := None, otpExpiry := None);
        if Validates(v) then Step(users[i := v], nextId, Ok(LoginInfo(v.id, v.name, v.email, v.role)))
        else Step(users, nextId, ServerError())
  }

  /** POST /auth/verify-otp. */
  method VerifyOtp(db: Users, email: string, otp: string, now: int) returns (r: Reply<LoginInfo>)
    requires db.Valid()
    modifies db
    ensures db.Valid()
    ensures Step(db.all, db.nextId, r) == VerifyStep(old(db.all), old(db.nextId), email, otp, now)
  {
    var found := IndexOfEmail(db.all, email);
    if found.None? {
      return Fail(400, "User not found");
    }
    var user := db.all[found.value];
    if user.isVerified {
      return Fail(400, "Email already verified");
    }
    if user.otp != Some(otp) {
      return Fail(400, "Invalid OTP");
    }
    if now > ExpiryTime(user.otpExpiry) {
      return Fail(400, "OTP has expired. Please register again.");
    }
    user := user.(isVerified := true);
    user := user.(otp := None);
    user := user.(otpExpiry := None);
    if !Validates(user) {
      return ServerError();
    }
    db.Replace(found.value, user);
    r := Ok(LoginInfo(user.id, user.name, user.email, user.role));
  }

  /** Verification succeeds exactly when the account exists, is unverified,
      holds this OTP, has not expired and still validates; then that account
      alone becomes verified with no OTP. */
  lemma VerifySucceedsIff(users: seq<User>, nextId: Id, email: string, otp: string, now: int)
    ensures var o := VerifyStep(users, nextId, email, otp, now);
      var f := IndexOfEmail(users, email);
      && (o.reply.Ok? <==>
            && f.Some? && !users[f.value].isVerified && users[f.value].otp == Some(otp)
            && now <= ExpiryTime(users[f.value].otpExpiry)
            && Validates(users[f.value]))
      && (o.reply.Ok? ==>
            && |o.store| == |users|
            && o.store == users[f.value := users[f.value].(isVerified := true, otp := None, otpExpiry := None)]
            && o.reply.value.id == users[f.value].id && o.reply.value.email == users[f.value].email)
      && (o.reply.Fail? ==> o.store == users)
  {
  }

  /** A second verification of the same email is refused as already verified. */
  lemma VerifyTwiceRefused(users: seq<User>, nextId: Id, email: string, otp: string, now: int,
                           email2: string, otp2: string, now2: int)
    requires VerifyStep(users, nextId, email, otp, now).reply.Ok?
    requires NormaliseEmail(email2) == NormaliseEmail(email)
    ensures var o := VerifyStep(users, nextId, email, otp, now);
      VerifyStep(o.store, o.nextId, email2, otp2, now2).reply == Fail(400, "Email already verified")
  {
    var i := IndexOfEmail(users, email).value;
    var v := users[i].(isVerified := true, otp := None, otpExpiry := None);
    var o := VerifyStep(users, nextId, email, otp, now);
    VerifySucceedsIff(users, nextId, email, otp, now);
    IndexOfSameEmail(users, email, email2);
    IndexOfEmailUpdate(users, i, v, email2);
    assert IndexOfEmail(o.store, email2) == Some(i) && o.store[i].isVerified;
  }

  lemma VerifyPreservesWellFormed(users: seq<User>, nextId: Id, email: string, otp: string, now: int)
    requires WellFormed(users, nextId)
    ensures var o := VerifyStep(users, nextId, email, otp, now);
      WellFormed(o.store, o.nextId)
  {
    var f := IndexOfEmail(users, email);
    if f.Some? {
      WellFormedUpdate(users, nextId, f.value, users[f.value].(isVerified := true, otp := None, otpExpiry := None));
    }
  }

  /** `resendOTP`: only an existing, unverified account gets a new OTP and expiry. */
  function ResendStep(users: seq<User>, nextId: Id, email: string, otp: string, otpExpiry: int,
                      mailOk: bool): Step<User, string>
  {
    match IndexOfEmail(users, email)
    case None => Step(users, nextId, Fail(400, "User not found"))
    case Some(i) =>
      var u := users[i];
      if u.isVerified then Step(users, nextId, Fail(400, "Email already verified"))
      else
        var v := u.(otp := Some(otp), otpExpiry := Some(otpExpiry));
        if Validates(v) then Step(users[i := v], nextId, AfterMail(mailOk, "OTP resent to your email"))
        else Step(users, nextId, ServerError())
  }

  /** POST /auth/resend-otp. */
  method ResendOtp(db: Users, email: string, draw: real, now: int, mailOk: bool) returns (r: Reply<string>)
    requires db.Valid() && 0.0 <= draw < 1.0
    modifies db
    ensures db.Valid()
    ensures Step(db.all, db.nextId, r)
         == ResendStep(old(db.all), old(db.nextId), email, GenerateOtp(draw), now + OtpLifetime, mailOk)
  {
    var found := IndexOfEmail(db.all, email);
    if found.None? {
      return Fail(400, "User not found");
    }
    var user := db.all[found.value];
    if user.isVerified {
      return Fail(400, "Email already verified");
    }
    var otp := GenerateOtp(draw);
    user := user.(otp := Some(otp));
    user := user.(otpExpiry := Some(now + OtpLifetime));
    if !Validates(user) {
      return ServerError();
    }
    db.Replace(found.value, user);
    r := AfterMail(mailOk, "OTP resent to your email");
  }

  /** Resending touches only the OTP and expiry of the one unverified account. */
  lemma ResendChangesOnlyOtp(users: seq<User>, nextId: Id, email: string, otp: string, otpExpiry: int,
                             mailOk: bool)
    ensures var o := ResendStep(users, nextId, email, otp, otpExpiry, mailOk);
      var f := IndexOfEmail(users, email);
      && o.nextId == nextId && |o.store| == |users|
      && (o.store != users ==>
            && f.Some? && !users[f.value].isVerified
            && o.store == users[f.value := users[f.value].(otp := Some(otp), otpExpiry := Some(otpExpiry))])
      && (f.None? ==> o.reply == Fail(400, "User not found"))
      && (f.Some? && users[f.value].isVerified ==> o.reply == Fail(400, "Email already verified"))
  {
  }

  /** After a resend, the new OTP verifies until the new expiry, and the old one no longer does. */
  lemma ResendThenVerify(users: seq<User>, nextId: Id, email: string, otp: string, otpExpiry: int,
                         mailOk: bool, guess: string, now: int)
    requires var o := ResendStep(users, nextId, email, otp, otpExpiry, mailOk); o.store != users
    ensures var o := ResendStep(users, nextId, email, otp, otpExpiry, mailOk);
      VerifyStep(o.store, o.nextId, email, guess, now).reply.Ok? <==> guess == otp && now <= otpExpiry
  {
    var i := IndexOfEmail(users, email).value;
    var v := users[i].(otp := Some(otp), otpExpiry := Some(otpExpiry));
    IndexOfEmailUpdate(users, i, v, email);
  }

  lemma ResendPreservesWellFormed(users: seq<User>, nextId: Id, email: string, otp: string,
                                  otpExpiry: int, mailOk: bool)
    requires WellFormed(users, nextId)
    ensures var o := ResendStep(users, nextId, email, otp, otpExpiry, mailOk);
      WellFormed(o.store, o.nextId)
  {
    var f := IndexOfEmail(users, email);
    if f.Some? {
      WellFormedUpdate(users, nextId, f.value, users[f.value].(otp := Some(otp), otpExpiry := Some(otpExpiry)));
    }
  }

  /** `login`: unknown email and wrong password give the same 400; an
      unverified account gets 403 before the password is compared. The reply
      echoes the email as it was sent. `matches` is bcrypt's comparison. */
  function Login(users: seq<User>, email: string, password: string,
                 matches: (string, string) -> bool): (r: Reply<LoginInfo>)
    ensures r.Ok? <==> var f := IndexOfEmail(users, email);
      f.Some? && users[f.value].isVerified && matches(password, users[f.value].password)
    ensures r.Ok? ==> var u := users[IndexOfEmail(users, email).value];
      r.value == LoginInfo(u.id, u.name, email, u.role)
    ensures r.Fail? ==> (r.code == 403 <==> var f := IndexOfEmail(users, email);
      f.Some? && !users[f.value].isVerified)
    ensures r.Fail? && r.code != 403 ==> r == Fail(400, "Invalid Credentials")
  {
    match IndexOfEmail(users, email)
    case None => Fail(400, "Invalid Credentials")
    case Some(i) =>
      var u := users[i];
      if !u.isVerified then Fail(403, "Email not verified. Please register again to receive OTP.")
      else if !matches(password, u.password) then Fail(400, "Invalid Credentials")
      else Ok(LoginInfo(u.id, u.name, email, u.role))
  }

  /** An account created by register cannot log in, whatever the password, until it is verified. */
  lemma RegisteredCannotLoginYet(users: seq<User>, nextId: Id, name: string, email: string,
                                 hashed: string, role: string, skills: seq<string>,
                                 interests: seq<string>, otp: string, otpExpiry: int, mailOk: bool,
                                 password: string, matches: (string, string) -> bool)
    requires WellFormed(users, nextId)
    requires var o := RegisterStep(users, nextId, name, email, hashed, role, skills, interests,
                                   otp, otpExpiry, mailOk);
      o.store != users
    ensures var o := RegisterStep(users, nextId, name, email, hashed, role, skills, interests,
                                  otp, otpExpiry, mailOk);
      Login(o.store, email, password, matches) == Fail(403, "Email not verified. Please register again to receive OTP.")
  {
    var o := RegisterStep(users, nextId, name, email, hashed, role, skills, interests,
                          otp, otpExpiry, mailOk);
    RegisterChanged(users, nextId, name, email, hashed, role, skills, interests, otp, otpExpiry, mailOk);
    var f := IndexOfEmail(users, email);
    var ro := ParseRole(role).value;
    if f.Some? {
      var u := Reregistered(users[f.value], name, hashed, ro, skills, interests, otp, otpExpiry);
      IndexOfEmailUpdate(users, f.value, u, email);
      assert !o.store[f.value].isVerified;
    } else {
      var u := NewUser(nextId, name, email, hashed, ro, skills, interests, Some(otp), Some(otpExpiry));
      NormaliseEmailIdempotent(email);
      IndexOfEmailAppend(users, u, email);
    }
  }
}
