/** The services together: any sequence of service calls keeps the store
    invariant, and the lifecycle of a cargo and of an account, including the
    transitions the services allow without checking for them. */
module Lifecycle {
  import opened Entities
  import opened Codes
  import opened Store
  import DriverService
  import DistributorService
  import RegisterLoginService

  /** One call into a service, with the caller, clock and random draw it sees. */
  datatype Op =
    | Register(req: RegisterRequest, draw: Draw, now: Time, mailDelivered: bool)
    | VerifyUser(mail: string, code: string, now: Time)
    | IssuePasswordCode(mail: string, draw: Draw)
    | SetPassword(mail: string, passwordReq: SetPasswordRequest)
    | UpdateDriver(caller: string, driverReq: DriverRequest)
    | UpdateDistributor(caller: string, distributorReq: DistributorRequest)
    | AddCargo(caller: string, cargoReq: CargoRequest)
    | DeleteCargo(caller: string, cargoId: CargoId)
    | UpdateCargo(caller: string, cargoId: CargoId, cargoReq: CargoRequest)
    | TakeCargo(caller: string, cargoId: CargoId, draw: Draw, now: Time)
    | DeliverCargo(caller: string, cargoId: CargoId, code: string, now: Time)

  /** The store after one call, whatever it returned. */
  function Apply(db: Db, op: Op): (db': Db)
    requires Invariant(db)
    ensures Invariant(db')
  {
    match op
    case Register(req, draw, now, mailDelivered) => RegisterLoginService.RegisterStep(db, req, draw, now, mailDelivered).db
    case VerifyUser(mail, code, now) => RegisterLoginService.VerifyUserStep(db, mail, code, now).db
    case IssuePasswordCode(mail, draw) => RegisterLoginService.IssuePasswordCodeStep(db, mail, draw).db
    case SetPassword(mail, req) => RegisterLoginService.SetPasswordStep(db, mail, req).db
    case UpdateDriver(caller, req) => DriverService.UpdateDriverStep(db, caller, req).db
    case UpdateDistributor(caller, req) => DistributorService.UpdateDistributorStep(db, caller, req).db
    case AddCargo(caller, req) => DistributorService.AddCargoStep(db, caller, req).db
    case DeleteCargo(caller, id) => DistributorService.DeleteCargoStep(db, caller, id).db
    case UpdateCargo(caller, id, req) => DistributorService.UpdateCargoStep(db, caller, id, req).db
    case TakeCargo(caller, id, draw, now) => DriverService.TakeCargoStep(db, caller, id, draw, now).db
    case DeliverCargo(caller, id, code, now) => DriverService.DeliverCargoStep(db, caller, id, code, now).db
  }

  /** The store after a sequence of calls, in order. */
  function Run(db: Db, ops: seq<Op>): (db': Db)
    requires Invariant(db)
    ensures Invariant(db')
    decreases |ops|
  {
    if ops == [] then db else Run(Apply(db, ops[0]), ops[1..])
  }

  /** From an empty store, whatever the calls: every cargo that has a driver has
      a six-digit delivery code and a taking time, a cargo is CREATED exactly
      while it has no driver, and no two accounts share a username, mail or phone. */
  lemma {:induction false} CargoFactsHoldAfterAnyRun(ops: seq<Op>)
    ensures var db := Run(EmptyDb(), ops);
      && UniqueAccounts(db.users)
      && forall id :: id in db.cargoes && db.cargoes[id].driver.Some? ==>
           && db.cargoes[id].verificationCode.Some?
           && IsSixDigitCode(db.cargoes[id].verificationCode.value)
           && db.cargoes[id].takingTime.Some?
           && db.cargoes[id].situation != CREATED
  {
    var db := Run(EmptyDb(), ops);
    forall id | id in db.cargoes && db.cargoes[id].driver.Some?
      ensures db.cargoes[id].verificationCode.Some? && IsSixDigitCode(db.cargoes[id].verificationCode.value)
    {
      assert CargoOk(db.users, db.cargoes[id]);
    }
  }

  // ---------------------------------------------------------------------------
  // Transitions the services do not guard against

  /** takeCargo never looks at the situation: a DELIVERED cargo goes back to
      PICKED_UP with a new driver and a new code. */
  lemma DeliveredCargoCanBeRetaken(db: Db, caller: string, cargoId: CargoId, draw: Draw, now: Time)
    requires Invariant(db)
    requires cargoId in db.cargoes && db.cargoes[cargoId].situation == DELIVERED
    requires IsDriverUser(db, caller)
    ensures var s := DriverService.TakeCargoStep(db, caller, cargoId, draw, now);
      && s.result.Ok?
      && s.db.cargoes[cargoId].situation == PICKED_UP
      && s.db.cargoes[cargoId].driver == Lookup(db, ByUsername(caller))
      && s.db.cargoes[cargoId].verificationCode == Some(GenerateCode(draw))
      // the time of the earlier delivery stays on the row
      && s.db.cargoes[cargoId].deliveredTime == db.cargoes[cargoId].deliveredTime
  {
  }

  /** deliverCargo does not consume the code: the same call succeeds again and
      the log gets a second record for the same cargo. */
  lemma {:induction false} DeliveringTwiceLogsTwice(db: Db, caller: string, cargoId: CargoId, code: string, t1: Time, t2: Time)
    requires DriverService.DeliverCargoStep(db, caller, cargoId, code, t1).result.Ok?
    ensures var s1 := DriverService.DeliverCargoStep(db, caller, cargoId, code, t1);
      var s2 := DriverService.DeliverCargoStep(s1.db, caller, cargoId, code, t2);
      var c := db.cargoes[cargoId];
      && s2.result.Ok?
      && s2.db.cargoes[cargoId].deliveredTime == Some(t2)
      && s2.db.shipments == db.shipments + [ShipmentSent(c.distributor, c.driver.value, cargoId, t1),
                                            ShipmentSent(c.distributor, c.driver.value, cargoId, t2)]
  {
    var s1 := DriverService.DeliverCargoStep(db, caller, cargoId, code, t1);
    assert s1.db.users == db.users && s1.db.nextUserId == db.nextUserId;
    assert Lookup(s1.db, ByUsername(caller)) == Lookup(db, ByUsername(caller));
  }

  /** updateCargo does not check ownership: any registered user may rewrite a
      CREATED cargo of another distributor. */
  lemma AnyUserCanEditCreatedCargo(db: Db, caller: string, cargoId: CargoId, req: CargoRequest)
    requires Invariant(db)
    requires IsUser(db, caller) && cargoId in db.cargoes && db.cargoes[cargoId].situation == CREATED
    requires Some(db.cargoes[cargoId].distributor) != Lookup(db, ByUsername(caller))
    ensures var s := DistributorService.UpdateCargoStep(db, caller, cargoId, req);
      && s.result.Ok?
      && s.db.cargoes[cargoId].description == req.description
      && s.db.cargoes[cargoId].distributor == db.cargoes[cargoId].distributor
  {
  }

  /** deleteCargo does not check the situation: a delivered cargo can be
      removed while the log still names it. */
  lemma {:induction false} DeliveredCargoCanBeDeleted(db: Db, caller: string, cargoId: CargoId, i: nat)
    requires Invariant(db)
    requires cargoId in db.cargoes && db.cargoes[cargoId].situation == DELIVERED
    requires IsUser(db, caller) && Some(db.cargoes[cargoId].distributor) == Lookup(db, ByUsername(caller))
    requires i < |db.shipments| && db.shipments[i].cargo == cargoId
    ensures var s := DistributorService.DeleteCargoStep(db, caller, cargoId);
      && s.result.Ok?
      && cargoId !in s.db.cargoes
      && i < |s.db.shipments| && s.db.shipments[i].cargo == cargoId
  {
    var s := DistributorService.DeleteCargoStep(db, caller, cargoId);
    assert s.db.cargoes.Keys == db.cargoes.Keys - {cargoId};
  }

  // ---------------------------------------------------------------------------
  // The account codes

  /** A successful verifyUser clears the expiry, so verifying again
      dereferences null. */
  lemma {:induction false} VerifyingTwiceFails(db: Db, mail: string, code: string, t1: Time, t2: Time)
    requires Invariant(db)
    requires RegisterLoginService.VerifyUserStep(db, mail, code, t1).result.Ok?
    ensures var s1 := RegisterLoginService.VerifyUserStep(db, mail, code, t1);
      RegisterLoginService.VerifyUserStep(s1.db, mail, code, t2) == Step(Err(NullReference), s1.db)
  {
    var s1 := RegisterLoginService.VerifyUserStep(db, mail, code, t1);
    var id := Lookup(db, ByMail(mail)).value;
    assert Has(s1.db.users[id], ByMail(mail));
    LookupUnique(s1.db, ByMail(mail), id);
  }

  /** forgotPassword and verifyUser share one code field: a password code,
      typed into verifyUser before the registration expiry, activates the account. */
  lemma {:induction false} PasswordCodeActivatesAccount(db: Db, mail: string, draw: Draw, now: Time)
    requires Invariant(db) && Exists(db, ByMail(mail))
    requires var u := db.users[Lookup(db, ByMail(mail)).value];
      u.verificationCodeExpiresAt.Some? && now <= u.verificationCodeExpiresAt.value
    ensures var s1 := RegisterLoginService.IssuePasswordCodeStep(db, mail, draw);
      var s2 := RegisterLoginService.VerifyUserStep(s1.db, mail, GenerateCode(draw), now);
      && s2.result.Ok?
      && s2.db.users[Lookup(db, ByMail(mail)).value].enable
  {
    var s1 := RegisterLoginService.IssuePasswordCodeStep(db, mail, draw);
    var id := Lookup(db, ByMail(mail)).value;
    assert Has(s1.db.users[id], ByMail(mail));
    LookupUnique(s1.db, ByMail(mail), id);
  }

  /** setPassword clears the code but not the expiry: an account that resets its
      password before verifying can no longer be verified until it asks for a
      new code. */
  lemma {:induction false} SetPasswordBeforeVerifyLocksOut(db: Db, mail: string, req: SetPasswordRequest, code: string, now: Time)
    requires Invariant(db)
    requires RegisterLoginService.SetPasswordStep(db, mail, req).result.Ok?
    requires var u := db.users[Lookup(db, ByMail(mail)).value];
      !u.enable && u.verificationCodeExpiresAt.Some? && now <= u.verificationCodeExpiresAt.value
    ensures var s1 := RegisterLoginService.SetPasswordStep(db, mail, req);
      var s2 := RegisterLoginService.VerifyUserStep(s1.db, mail, code, now);
      && s2 == Step(Err(NullReference), s1.db)
      && !s1.db.users[Lookup(db, ByMail(mail)).value].enable
  {
    var s1 := RegisterLoginService.SetPasswordStep(db, mail, req);
    var id := Lookup(db, ByMail(mail)).value;
    assert Has(s1.db.users[id], ByMail(mail));
    LookupUnique(s1.db, ByMail(mail), id);
  }

  // ---------------------------------------------------------------------------
  // The intended flows

  /** A registered account cannot log in until it is verified; the emailed code,
      typed within two hours, verifies it and then its password logs it in; later
      than that the code has expired. */
  lemma {:induction false} RegisterVerifyLogin(db: Db, req: RegisterRequest, draw: Draw, now: Time, later: Time)
    requires Invariant(db)
    requires RegisterLoginService.RegisterStep(db, req, draw, now, true).result.Ok?
    requires now <= later
    ensures var db1 := RegisterLoginService.RegisterStep(db, req, draw, now, true).db;
      var s2 := RegisterLoginService.VerifyUserStep(db1, req.mail, GenerateCode(draw), later);
      && RegisterLoginService.Auth(db1, req.username, req.password) == Err(AccountNotVerified)
      && (later <= now + 2 * SecondsPerHour ==>
            && s2.result.Ok?
            && RegisterLoginService.Auth(s2.db, req.username, req.password) == Ok(UserResponse(req.username, req.mail, req.role)))
      && (later > now + 2 * SecondsPerHour ==> s2.result == Err(CodeExpired))
  {
    var db1 := RegisterLoginService.RegisterStep(db, req, draw, now, true).db;
    var id := db.nextUserId;
    assert Has(db1.users[id], ByMail(req.mail)) && Has(db1.users[id], ByUsername(req.username));
    LookupUnique(db1, ByMail(req.mail), id);
    LookupUnique(db1, ByUsername(req.username), id);
    var s2 := RegisterLoginService.VerifyUserStep(db1, req.mail, GenerateCode(draw), later);
    if s2.result.Ok? {
      assert Has(s2.db.users[id], ByUsername(req.username));
      LookupUnique(s2.db, ByUsername(req.username), id);
    }
  }

  /** A distributor's new cargo, taken by a driver and delivered with the code
      it was given, ends DELIVERED with one record naming both of them. */
  lemma {:induction false} AddTakeDeliver(db: Db, distributor: string, driver: string, req: CargoRequest,
                                          draw: Draw, t1: Time, t2: Time)
    requires Invariant(db)
    requires IsDistributorUser(db, distributor) && IsDriverUser(db, driver)
    ensures var id := db.nextCargoId;
      var s1 := DistributorService.AddCargoStep(db, distributor, req);
      var s2 := DriverService.TakeCargoStep(s1.db, driver, id, draw, t1);
      var s3 := DriverService.DeliverCargoStep(s2.db, driver, id, GenerateCode(draw), t2);
      && s1.result.Ok? && s2.result.Ok? && s3.result.Ok?
      && s3.db.cargoes[id].situation == DELIVERED
      && s3.db.shipments == db.shipments + [ShipmentSent(Lookup(db, ByUsername(distributor)).value,
                                                         Lookup(db, ByUsername(driver)).value, id, t2)]
  {
    var id := db.nextCargoId;
    var s1 := DistributorService.AddCargoStep(db, distributor, req);
    assert Lookup(s1.db, ByUsername(driver)) == Lookup(db, ByUsername(driver));
    var s2 := DriverService.TakeCargoStep(s1.db, driver, id, draw, t1);
    assert Lookup(s2.db, ByUsername(driver)) == Lookup(db, ByUsername(driver));
  }
}
