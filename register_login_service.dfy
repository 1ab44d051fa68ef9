/** RegisterLoginService: registration of a disabled account holding a six-digit
    code, activation with that code, login's enable guard, and the password
    reset codes. The clock, the random draw and the outcome of the mail sender
    are parameters; password hashing is the symbolic Encoded digest. */
module RegisterLoginService {
  import opened Entities
  import opened Codes
  import opened Store

  /** How long an activation code issued by register stays valid (plusHours(2)). */
  const ActivationValidity := 2 * SecondsPerHour

  /** The acknowledgement forgotPassword and changePassword return. */
  const CheckYourMail := "E-mail'inizi kontrol edin."

  // ---------------------------------------------------------------------------
  // register

  /** The row register builds: a Distributor when the role's name is
      DISTRIBUTOR, a Driver for every other role. */
  function NewAccount(req: RegisterRequest, draw: Draw, now: Time): (u: User)
    // disabled, holding a fresh six-digit code valid for two hours, with the
    // request's keys, the encoded password and the requested role
    ensures !u.enable
    ensures u.verificationCode.Some? && IsSixDigitCode(u.verificationCode.value)
    ensures u.verificationCode == Some(GenerateCode(draw))
    ensures u.verificationCodeExpiresAt == Some(now + 2 * SecondsPerHour)
    ensures u.password == Encoded(req.password)
    ensures u.role == req.role && u.username == req.username && u.mail == req.mail && u.phoneNumber == req.phoneNumber
    ensures u.profile.DistributorProfile? <==> req.role.name == "DISTRIBUTOR"
  {
    User(req.username, req.mail, Encoded(req.password), req.phoneNumber, req.role, false,
         Some(GenerateCode(draw)), Some(now + ActivationValidity),
         if req.role.name == DistributorRoleName then DistributorProfile(None) else DriverProfile(None))
  }

  /** None of the request's username, mail and phone number is taken yet. */
  predicate KeysFree(db: Db, req: RegisterRequest) {
    !Exists(db, ByMail(req.mail)) && !Exists(db, ByUsername(req.username)) && !Exists(db, ByPhone(req.phoneNumber))
  }

  function RegisterStep(db: Db, req: RegisterRequest, draw: Draw, now: Time, mailDelivered: bool): (s: Step<UserResponse>)
    // mail first, then username, then phone, each with its own error; nothing written
    ensures Exists(db, ByMail(req.mail)) ==> s == Step(Err(MailTaken), db)
    ensures !Exists(db, ByMail(req.mail)) && Exists(db, ByUsername(req.username)) ==> s == Step(Err(UsernameTaken), db)
    ensures !Exists(db, ByMail(req.mail)) && !Exists(db, ByUsername(req.username)) && Exists(db, ByPhone(req.phoneNumber))
            ==> s == Step(Err(PhoneTaken), db)
    ensures s.result.Ok? <==> KeysFree(db, req) && mailDelivered
    // past the checks exactly one user is added, and stays added even when the
    // verification mail then fails
    ensures KeysFree(db, req) ==>
      var id := db.nextUserId;
      && (UserKeysBelow(db) ==> id !in db.users)
      && s.db.users.Keys == db.users.Keys + {id}
      && (forall k :: k in db.users && k != id ==> s.db.users[k] == db.users[k])
      && s.db.nextUserId == id + 1
      && s.db.cargoes == db.cargoes && s.db.shipments == db.shipments && s.db.nextCargoId == db.nextCargoId
    ensures KeysFree(db, req) ==>
      var u := s.db.users[db.nextUserId];
      && !u.enable
      && u.verificationCode.Some? && IsSixDigitCode(u.verificationCode.value)
      && u.verificationCode == Some(GenerateCode(draw))
      && u.verificationCodeExpiresAt == Some(now + 2 * SecondsPerHour)
      && u.password == Encoded(req.password)
      && u.role == req.role && u.username == req.username && u.mail == req.mail && u.phoneNumber == req.phoneNumber
      && (u.profile.DistributorProfile? <==> req.role.name == "DISTRIBUTOR")
    ensures KeysFree(db, req) && !mailDelivered ==> s.result == Err(MailDeliveryFailed)
    // the response shows username, mail and role only
    ensures s.result.Ok? ==> s.result.value == UserResponse(req.username, req.mail, req.role)
    ensures Invariant(db) ==> Invariant(s.db)
  {
    if Exists(db, ByMail(req.mail)) then Step(Err(MailTaken), db)
    else if Exists(db, ByUsername(req.username)) then Step(Err(UsernameTaken), db)
    else if Exists(db, ByPhone(req.phoneNumber)) then Step(Err(PhoneTaken), db)
    else
      var u := NewAccount(req, draw, now);
      var db' := db.(users := db.users[db.nextUserId := u], nextUserId := db.nextUserId + 1);
      NewAccountPreservesInvariant(db, u);
      if !mailDelivered then Step(Err(MailDeliveryFailed), db')
      else Step(Ok(ToUserResponse(u)), db')
  }

  lemma NewAccountPreservesInvariant(db: Db, u: User)
    requires !Exists(db, ByMail(u.mail)) && !Exists(db, ByUsername(u.username)) && !Exists(db, ByPhone(u.phoneNumber))
    requires u.verificationCode.Some? ==> IsSixDigitCode(u.verificationCode.value)
    ensures Invariant(db) ==> Invariant(db.(users := db.users[db.nextUserId := u], nextUserId := db.nextUserId + 1))
  {
    if Invariant(db) {
      var users' := db.users[db.nextUserId := u];
      SameKindsKeepLinks(db, users');
      forall a, b | a in users' && b in users' && a != b
        ensures users'[a].username != users'[b].username
        ensures users'[a].mail != users'[b].mail
        ensures users'[a].phoneNumber != users'[b].phoneNumber
      {
        if a == db.nextUserId {
          assert !Has(db.users[b], ByMail(u.mail)) && !Has(db.users[b], ByUsername(u.username));
          assert !Has(db.users[b], ByPhone(u.phoneNumber));
        } else if b == db.nextUserId {
          assert !Has(db.users[a], ByMail(u.mail)) && !Has(db.users[a], ByUsername(u.username));
          assert !Has(db.users[a], ByPhone(u.phoneNumber));
        }
      }
    }
  }

  method Register(repo: Repository, req: RegisterRequest, draw: Draw, now: Time, mailDelivered: bool)
    returns (r: Result<UserResponse>)
    requires repo.Valid()
    modifies repo
    ensures repo.Valid()
    ensures Step(r, repo.Snapshot()) == RegisterStep(old(repo.Snapshot()), req, draw, now, mailDelivered)
  {
    var db := repo.Snapshot();
    if Exists(db, ByMail(req.mail)) {
      return Err(MailTaken);
    }
    if Exists(db, ByUsername(req.username)) {
      return Err(UsernameTaken);
    }
    if Exists(db, ByPhone(req.phoneNumber)) {
      return Err(PhoneTaken);
    }
    var profile := if req.role.name == DistributorRoleName then DistributorProfile(None) else DriverProfile(None);
    var user := User("", "", Encoded(""), "", req.role, false, None, None, profile);
    user := user.(mail := req.mail);
    user := user.(username := req.username);
    user := user.(password := Encoded(req.password));
    user := user.(phoneNumber := req.phoneNumber);
    user := user.(verificationCode := Some(GenerateCode(draw)));
    user := user.(verificationCodeExpiresAt := Some(now + ActivationValidity));
    user := user.(enable := false);
    assert user == NewAccount(req, draw, now);
    var _ := repo.InsertUser(user);
    if !mailDelivered {
      r := Err(MailDeliveryFailed);
    } else {
      r := Ok(ToUserResponse(user));
    }
    assert Step(r, repo.Snapshot()) == RegisterStep(db, req, draw, now, mailDelivered);
  }

  // ---------------------------------------------------------------------------
  // auth

  /** login, up to the token: the user must exist and be enabled before the
      credentials are looked at. The authentication manager's password check is
      the symbolic digest comparison. */
  function Auth(db: Db, username: string, password: string): (r: Result<UserResponse>)
    ensures !IsUser(db, username) ==> r == Err(UserNotFound)
    ensures IsUser(db, username) && !db.users[Lookup(db, ByUsername(username)).value].enable ==> r == Err(AccountNotVerified)
    ensures r.Ok? <==>
      IsUser(db, username) &&
      var u := db.users[Lookup(db, ByUsername(username)).value];
      u.enable && u.password == Encoded(password)
    ensures r.Ok? ==> r.value == ToUserResponse(db.users[Lookup(db, ByUsername(username)).value])
  {
    var uid := Lookup(db, ByUsername(username));
    if uid.None? then Err(UserNotFound)
    else
      var u := db.users[uid.value];
      if !u.enable then Err(AccountNotVerified)
      else if u.password != Encoded(password) then Err(BadCredentials)
      else Ok(ToUserResponse(u))
  }

  // ---------------------------------------------------------------------------
  // verifyUser

  function VerifyUserStep(db: Db, mail: string, code: string, now: Time): (s: Step<()>)
    ensures !Exists(db, ByMail(mail)) ==> s == Step(Err(UserNotFound), db)
    // the expiry is looked at before the code
    ensures Exists(db, ByMail(mail)) ==>
      var u := db.users[Lookup(db, ByMail(mail)).value];
      && (u.verificationCodeExpiresAt.None? ==> s == Step(Err(NullReference), db))
      && (u.verificationCodeExpiresAt.Some? && u.verificationCodeExpiresAt.value < now ==> s == Step(Err(CodeExpired), db))
      // then a missing code, then one that differs from the given code
      && (u.verificationCodeExpiresAt.Some? && now <= u.verificationCodeExpiresAt.value && u.verificationCode.None?
          ==> s == Step(Err(NullReference), db))
      && (u.verificationCodeExpiresAt.Some? && now <= u.verificationCodeExpiresAt.value
          && u.verificationCode.Some? && u.verificationCode.value != code
          ==> s == Step(Err(IncorrectCode), db))
      && (s.result.Ok? <==> u.verificationCodeExpiresAt.Some? && now <= u.verificationCodeExpiresAt.value &&
                            u.verificationCode == Some(code))
    ensures s.result.Err? ==> s.db == db
    // success enables the account and clears both the code and the expiry
    ensures s.result.Ok? ==> OnlyUserChanged(db, s.db, Lookup(db, ByMail(mail)).value)
    ensures s.result.Ok? ==>
      var id := Lookup(db, ByMail(mail)).value;
      s.db.users[id] == db.users[id].(enable := true, verificationCode := None, verificationCodeExpiresAt := None)
    ensures Invariant(db) ==> Invariant(s.db)
  {
    var uid := Lookup(db, ByMail(mail));
    if uid.None? then Step(Err(UserNotFound), db)
    else
      var u := db.users[uid.value];
      if u.verificationCodeExpiresAt.None? then Step(Err(NullReference), db)
      else if u.verificationCodeExpiresAt.value < now then Step(Err(CodeExpired), db)
      else if u.verificationCode.None? then Step(Err(NullReference), db)
      else if u.verificationCode.value != code then Step(Err(IncorrectCode), db)
      else
        var u' := u.(enable := true, verificationCode := None, verificationCodeExpiresAt := None);
        SameCodesKeepInvariant(db, uid.value, u');
        Step(Ok(()), db.(users := db.users[uid.value := u']))
  }

  method VerifyUser(repo: Repository, mail: string, code: string, now: Time) returns (r: Result<()>)
    requires repo.Valid()
    modifies repo
    ensures repo.Valid()
    ensures Step(r, repo.Snapshot()) == VerifyUserStep(old(repo.Snapshot()), mail, code, now)
  {
    var db := repo.Snapshot();
    var uid := Lookup(db, ByMail(mail));
    if uid.None? {
      return Err(UserNotFound);
    }
    var user := repo.users[uid.value];
    if user.verificationCodeExpiresAt.None? {
      return Err(NullReference);
    }
    if user.verificationCodeExpiresAt.value < now {
      return Err(CodeExpired);
    }
    if user.verificationCode.None? {
      return Err(NullReference);
    }
    if user.verificationCode.value != code {
      return Err(IncorrectCode);
    }
    user := user.(enable := true);
    user := user.(verificationCode := None);
    user := user.(verificationCodeExpiresAt := None);
    repo.SaveUser(uid.value, user);
    r := Ok(());
    assert Step(r, repo.Snapshot()) == VerifyUserStep(db, mail, code, now);
  }

  // ---------------------------------------------------------------------------
  // forgotPassword and changePassword

  /** The common body of forgotPassword and changePassword. */
  function IssuePasswordCodeStep(db: Db, mail: string, draw: Draw): (s: Step<string>)
    ensures !Exists(db, ByMail(mail)) ==> s == Step(Err(UserNotFound), db)
    ensures s.result.Ok? <==> Exists(db, ByMail(mail))
    ensures s.result.Ok? ==> s.result.value == CheckYourMail
    ensures s.result.Err? ==> s.db == db
    // only the code is replaced: expiry and enable stay as they were
    ensures s.result.Ok? ==> OnlyUserChanged(db, s.db, Lookup(db, ByMail(mail)).value)
    ensures s.result.Ok? ==>
      var id := Lookup(db, ByMail(mail)).value;
      s.db.users[id] == db.users[id].(verificationCode := Some(GenerateCode(draw)))
    ensures Invariant(db) ==> Invariant(s.db)
  {
    var uid := Lookup(db, ByMail(mail));
    if uid.None? then Step(Err(UserNotFound), db)
    else
      var u := db.users[uid.value];
      var u' := u.(verificationCode := Some(GenerateCode(draw)));
      assert Invariant(db) ==> UserCodesWellFormed(db.users[uid.value := u']);
      SameCodesKeepInvariant(db, uid.value, u');
      Step(Ok(CheckYourMail), db.(users := db.users[uid.value := u']))
  }

  /** Changing only the code, enable flag, expiry or password of one user keeps
      the invariant as long as the new code is a generated one. */
  lemma SameCodesKeepInvariant(db: Db, id: UserId, u': User)
    requires id in db.users
    requires u' == db.users[id].(verificationCode := u'.verificationCode, enable := u'.enable,
                                 verificationCodeExpiresAt := u'.verificationCodeExpiresAt, password := u'.password)
    requires u'.verificationCode.Some? ==> IsSixDigitCode(u'.verificationCode.value)
    ensures Invariant(db) ==> Invariant(db.(users := db.users[id := u']))
  {
    if Invariant(db) {
      SameKindsKeepLinks(db, db.users[id := u']);
    }
  }

  method IssuePasswordCode(repo: Repository, mail: string, draw: Draw, mailDelivered: bool) returns (r: Result<string>)
    requires repo.Valid()
    modifies repo
    ensures repo.Valid()
    ensures Step(r, repo.Snapshot()) == IssuePasswordCodeStep(old(repo.Snapshot()), mail, draw)
  {
    var db := repo.Snapshot();
    var uid := Lookup(db, ByMail(mail));
    if uid.None? {
      return Err(UserNotFound);
    }
    var user := repo.users[uid.value];
    var passwordCode := GenerateCode(draw);
    user := user.(verificationCode := Some(passwordCode));
    repo.SaveUser(uid.value, user);
    if !mailDelivered {
      // the exception of the mail sender is caught and only printed
    }
    r := Ok(CheckYourMail);
    assert Step(r, repo.Snapshot()) == IssuePasswordCodeStep(db, mail, draw);
  }

  method ForgotPassword(repo: Repository, mail: string, draw: Draw, mailDelivered: bool) returns (r: Result<string>)
    requires repo.Valid()
    modifies repo
    ensures repo.Valid()
    ensures Step(r, repo.Snapshot()) == IssuePasswordCodeStep(old(repo.Snapshot()), mail, draw)
  {
    r := IssuePasswordCode(repo, mail, draw, mailDelivered);
  }

  method ChangePassword(repo: Repository, mail: string, draw: Draw, mailDelivered: bool) returns (r: Result<string>)
    requires repo.Valid()
    modifies repo
    ensures repo.Valid()
    ensures Step(r, repo.Snapshot()) == IssuePasswordCodeStep(old(repo.Snapshot()), mail, draw)
  {
    r := IssuePasswordCode(repo, mail, draw, mailDelivered);
  }

  // ---------------------------------------------------------------------------
  // setPassword

  function SetPasswordStep(db: Db, mail: string, req: SetPasswordRequest): (s: Step<UserResponse>)
    ensures !Exists(db, ByMail(mail)) ==> s == Step(Err(UserNotFound), db)
    // the code is compared first, then the two password fields
    ensures Exists(db, ByMail(mail)) ==>
      var u := db.users[Lookup(db, ByMail(mail)).value];
      && (u.verificationCode.None? ==> s == Step(Err(NullReference), db))
      && (u.verificationCode.Some? && u.verificationCode.value != req.passwordCode ==> s == Step(Err(IncorrectCode), db))
      && (u.verificationCode == Some(req.passwordCode) && req.password != req.checkPassword ==> s == Step(Err(PasswordsDiffer), db))
      && (s.result.Ok? <==> u.verificationCode == Some(req.passwordCode) && req.password == req.checkPassword)
    ensures s.result.Err? ==> s.db == db
    // the new digest is stored and the code cleared; expiry and enable stay
    ensures s.result.Ok? ==> OnlyUserChanged(db, s.db, Lookup(db, ByMail(mail)).value)
    ensures s.result.Ok? ==>
      var id := Lookup(db, ByMail(mail)).value;
      && s.db.users[id] == db.users[id].(password := Encoded(req.checkPassword), verificationCode := None)
      && s.result.value == ToUserResponse(db.users[id])
    ensures Invariant(db) ==> Invariant(s.db)
  {
    var uid := Lookup(db, ByMail(mail));
    if uid.None? then Step(Err(UserNotFound), db)
    else
      var u := db.users[uid.value];
      if u.verificationCode.None? then Step(Err(NullReference), db)
      else if u.verificationCode.value != req.passwordCode then Step(Err(IncorrectCode), db)
      else if req.password != req.checkPassword then Step(Err(PasswordsDiffer), db)
      else
        var u' := u.(password := Encoded(req.checkPassword), verificationCode := None);
        SameCodesKeepInvariant(db, uid.value, u');
        Step(Ok(ToUserResponse(u')), db.(users := db.users[uid.value := u']))
  }

  method SetPassword(repo: Repository, mail: string, req: SetPasswordRequest) returns (r: Result<UserResponse>)
    requires repo.Valid()
    modifies repo
    ensures repo.Valid()
    ensures Step(r, repo.Snapshot()) == SetPasswordStep(old(repo.Snapshot()), mail, req)
  {
    var db := repo.Snapshot();
    var uid := Lookup(db, ByMail(mail));
    if uid.None? {
      return Err(UserNotFound);
    }
    var user := repo.users[uid.value];
    if user.verificationCode.None? {
      return Err(NullReference);
    }
    if user.verificationCode.value != req.passwordCode {
      return Err(IncorrectCode);
    }
    if req.password != req.checkPassword {
      return Err(PasswordsDiffer);
    }
    user := user.(password := Encoded(req.checkPassword));
    user := user.(verificationCode := None);
    repo.SaveUser(uid.value, user);
    r := Ok(ToUserResponse(user));
    assert Step(r, repo.Snapshot()) == SetPasswordStep(db, mail, req);
  }
}
