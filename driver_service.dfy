/** DriverService: a driver takes a cargo (becoming its driver and receiving a
    delivery code), delivers it by presenting that code, and edits its own
    account. The authenticated username and the current time are parameters. */
module DriverService {
  import opened Entities
  import opened Codes
  import opened Store

  // ---------------------------------------------------------------------------
  // takeCargo

  function TakeCargoStep(db: Db, caller: string, cargoId: CargoId, draw: Draw, now: Time): (s: Step<()>)
    // the checks, in the order the code makes them; a failure writes nothing
    ensures cargoId !in db.cargoes ==> s == Step(Err(CargoNotFound), db)
    ensures cargoId in db.cargoes && !IsUser(db, caller) ==> s == Step(Err(UserNotFound), db)
    ensures cargoId in db.cargoes && IsUser(db, caller) && !IsDriverUser(db, caller) ==> s == Step(Err(NotADriver), db)
    // no check of the situation: any existing cargo can be taken by any driver
    ensures s.result.Ok? <==> cargoId in db.cargoes && IsDriverUser(db, caller)
    ensures s.result.Ok? ==> OnlyCargoChanged(db, s.db, cargoId)
    ensures s.result.Ok? ==>
      var c, c' := db.cargoes[cargoId], s.db.cargoes[cargoId];
      && c'.driver == Lookup(db, ByUsername(caller))
      && c'.situation == PICKED_UP
      && c'.verificationCode == Some(GenerateCode(draw))
      && c'.takingTime == Some(now)
      && SameShipmentData(c, c')
      && c'.deliveredTime == c.deliveredTime
    ensures Invariant(db) ==> Invariant(s.db)
  {
    if cargoId !in db.cargoes then Step(Err(CargoNotFound), db)
    else
      var uid := Lookup(db, ByUsername(caller));
      if uid.None? then Step(Err(UserNotFound), db)
      else if !db.users[uid.value].profile.DriverProfile? then Step(Err(NotADriver), db)
      else Step(Ok(()), AssignDriver(db, cargoId, uid.value, draw, now))
  }

  /** The writes of a successful takeCargo: the driver, PICKED_UP, a new code
      and the taking time, on that one row. */
  function AssignDriver(db: Db, cargoId: CargoId, driver: UserId, draw: Draw, now: Time): (db': Db)
    requires cargoId in db.cargoes
    ensures OnlyCargoChanged(db, db', cargoId)
    ensures var c, c' := db.cargoes[cargoId], db'.cargoes[cargoId];
      && c'.driver == Some(driver)
      && c'.situation == PICKED_UP
      && c'.verificationCode == Some(GenerateCode(draw))
      && c'.takingTime == Some(now)
      && SameShipmentData(c, c')
      && c'.deliveredTime == c.deliveredTime
    ensures Invariant(db) && IsDriverId(db.users, driver) ==> Invariant(db')
  {
    var c := db.cargoes[cargoId];
    var c' := c.(driver := Some(driver), situation := PICKED_UP,
                 verificationCode := Some(GenerateCode(draw)), takingTime := Some(now));
    assert Invariant(db) && IsDriverId(db.users, driver) ==> CargoOk(db.users, c');
    CargoWritePreservesInvariant(db, cargoId, c', []);
    assert db.(cargoes := db.cargoes[cargoId := c']) == db.(cargoes := db.cargoes[cargoId := c'], shipments := db.shipments + []);
    db.(cargoes := db.cargoes[cargoId := c'])
  }

  method TakeCargo(repo: Repository, caller: string, cargoId: CargoId, draw: Draw, now: Time) returns (r: Result<()>)
    requires repo.Valid()
    modifies repo
    ensures repo.Valid()
    ensures Step(r, repo.Snapshot()) == TakeCargoStep(old(repo.Snapshot()), caller, cargoId, draw, now)
  {
    var db := repo.Snapshot();
    if cargoId !in repo.cargoes {
      return Err(CargoNotFound);
    }
    var cargo := repo.cargoes[cargoId];
    var uid := Lookup(db, ByUsername(caller));
    if uid.None? {
      return Err(UserNotFound);
    }
    if !repo.users[uid.value].profile.DriverProfile? {
      return Err(NotADriver);
    }
    cargo := cargo.(driver := uid);
    cargo := cargo.(situation := PICKED_UP);
    cargo := cargo.(verificationCode := Some(GenerateCode(draw)));
    cargo := cargo.(takingTime := Some(now));
    repo.SaveCargo(cargoId, cargo);
    r := Ok(());
    assert Step(r, repo.Snapshot()) == TakeCargoStep(db, caller, cargoId, draw, now);
  }

  // ---------------------------------------------------------------------------
  // deliverCargo

  function DeliverCargoStep(db: Db, caller: string, cargoId: CargoId, code: string, now: Time): (s: Step<()>)
    ensures !IsUser(db, caller) ==> s == Step(Err(NoValuePresent), db)
    ensures IsUser(db, caller) && !IsDriverUser(db, caller) ==> s == Step(Err(NotADriver), db)
    // "Cargo Not found" unless the cargo exists and the caller is its driver
    ensures IsDriverUser(db, caller) &&
            !(cargoId in db.cargoes && db.cargoes[cargoId].driver == Lookup(db, ByUsername(caller)))
            ==> s == Step(Err(CargoNotFound), db)
    // a code that differs from the stored one changes nothing
    ensures cargoId in db.cargoes && db.cargoes[cargoId].verificationCode != Some(code) ==> s.result.Err? && s.db == db
    ensures s.result.Err? ==> s.db == db
    ensures s.result.Ok? <==>
      && IsDriverUser(db, caller)
      && cargoId in db.cargoes
      && db.cargoes[cargoId].driver == Lookup(db, ByUsername(caller))
      && db.cargoes[cargoId].verificationCode == Some(code)
    ensures s.result.Ok? ==> db.cargoes.Keys == s.db.cargoes.Keys
    ensures s.result.Ok? ==>
      var c, c' := db.cargoes[cargoId], s.db.cargoes[cargoId];
      && (forall k :: k in db.cargoes && k != cargoId ==> s.db.cargoes[k] == db.cargoes[k])
      && s.db.users == db.users
      && c'.situation == DELIVERED
      && c'.deliveredTime == Some(now)
      // the code is not consumed
      && c'.verificationCode == c.verificationCode
      && c'.driver == c.driver && c'.takingTime == c.takingTime
      && SameShipmentData(c, c')
      // exactly one audit row: cargo, driver, the cargo's distributor, now
      && s.db.shipments == db.shipments + [ShipmentSent(c.distributor, c.driver.value, cargoId, now)]
      && s.db.nextCargoId == db.nextCargoId && s.db.nextUserId == db.nextUserId
    ensures Invariant(db) ==> Invariant(s.db)
  {
    var uid := Lookup(db, ByUsername(caller));
    if uid.None? then Step(Err(NoValuePresent), db)
    else if !db.users[uid.value].profile.DriverProfile? then Step(Err(NotADriver), db)
    else if cargoId !in db.cargoes || db.cargoes[cargoId].driver != uid then Step(Err(CargoNotFound), db)
    else
      var c := db.cargoes[cargoId];
      if c.verificationCode.None? then Step(Err(NullReference), db)
      else if c.verificationCode.value != code then Step(Err(IncorrectCode), db)
      else Step(Ok(()), RecordDelivery(db, cargoId, now))
  }

  /** The writes of a successful deliverCargo: DELIVERED and the delivery time
      on the row, and one record naming its distributor and driver. */
  function RecordDelivery(db: Db, cargoId: CargoId, now: Time): (db': Db)
    requires cargoId in db.cargoes && db.cargoes[cargoId].driver.Some?
    ensures db.cargoes.Keys == db'.cargoes.Keys
    ensures var c, c' := db.cargoes[cargoId], db'.cargoes[cargoId];
      && (forall k :: k in db.cargoes && k != cargoId ==> db'.cargoes[k] == db.cargoes[k])
      && db'.users == db.users
      && c'.situation == DELIVERED
      && c'.deliveredTime == Some(now)
      && c'.verificationCode == c.verificationCode
      && c'.driver == c.driver && c'.takingTime == c.takingTime
      && SameShipmentData(c, c')
      && db'.shipments == db.shipments + [ShipmentSent(c.distributor, c.driver.value, cargoId, now)]
      && db'.nextCargoId == db.nextCargoId && db'.nextUserId == db.nextUserId
    ensures Invariant(db) ==> Invariant(db')
  {
    var c := db.cargoes[cargoId];
    var c' := c.(situation := DELIVERED, deliveredTime := Some(now));
    var record := ShipmentSent(c.distributor, c.driver.value, cargoId, now);
    assert Invariant(db) ==> CargoOk(db.users, c') && RecordOk(db.users, record);
    CargoWritePreservesInvariant(db, cargoId, c', [record]);
    db.(cargoes := db.cargoes[cargoId := c'], shipments := db.shipments + [record])
  }

  method DeliverCargo(repo: Repository, caller: string, cargoId: CargoId, code: string, now: Time) returns (r: Result<()>)
    requires repo.Valid()
    modifies repo
    ensures repo.Valid()
    ensures Step(r, repo.Snapshot()) == DeliverCargoStep(old(repo.Snapshot()), caller, cargoId, code, now)
  {
    var db := repo.Snapshot();
    var uid := Lookup(db, ByUsername(caller));
    if uid.None? {
      return Err(NoValuePresent);
    }
    if !repo.users[uid.value].profile.DriverProfile? {
      return Err(NotADriver);
    }
    if cargoId !in repo.cargoes || repo.cargoes[cargoId].driver != uid {
      return Err(CargoNotFound);
    }
    var cargo := repo.cargoes[cargoId];
    if cargo.verificationCode.None? {
      return Err(NullReference);
    }
    if cargo.verificationCode.value != code {
      return Err(IncorrectCode);
    }
    cargo := cargo.(situation := DELIVERED);
    cargo := cargo.(deliveredTime := Some(now));
    repo.SaveCargo(cargoId, cargo);
    repo.AppendShipment(ShipmentSent(cargo.distributor, uid.value, cargoId, now));
    r := Ok(());
    assert Step(r, repo.Snapshot()) == DeliverCargoStep(db, caller, cargoId, code, now);
  }

  // ---------------------------------------------------------------------------
  // updateDriver

  function UpdateDriverStep(db: Db, caller: string, req: DriverRequest): (s: Step<DriverResponse>)
    ensures !IsUser(db, caller) ==> s == Step(Err(UserNotFound), db)
    // the uniqueness checks come before the cast and before any write
    ensures IsUser(db, caller) ==>
      var conflict := ChangeConflict(db, db.users[Lookup(db, ByUsername(caller)).value],
                                     req.username, req.mail, req.phoneNumber);
      && (conflict.Some? ==> s == Step(Err(conflict.value), db))
      && (conflict.None? && !IsDriverUser(db, caller) ==> s == Step(Err(NotADriver), db))
      && (conflict.None? && IsDriverUser(db, caller) ==> s.result.Ok?)
    ensures s.result.Err? ==> s.db == db
    ensures s.result.Ok? ==> IsDriverUser(db, caller)
    ensures s.result.Ok? ==> OnlyUserChanged(db, s.db, Lookup(db, ByUsername(caller)).value)
    ensures s.result.Ok? ==>
      var id := Lookup(db, ByUsername(caller)).value;
      var u, u' := db.users[id], s.db.users[id];
      // exactly mail, phone, username and car type are written
      && u' == u.(mail := req.mail, phoneNumber := req.phoneNumber, username := req.username,
                  profile := DriverProfile(Some(req.carType)))
      && s.result.value == DriverResponse(req.username, req.carType, u.password, req.phoneNumber, req.mail)
    ensures Invariant(db) ==> Invariant(s.db)
  {
    var uid := Lookup(db, ByUsername(caller));
    if uid.None? then Step(Err(UserNotFound), db)
    else
      var u := db.users[uid.value];
      var conflict := ChangeConflict(db, u, req.username, req.mail, req.phoneNumber);
      if conflict.Some? then Step(Err(conflict.value), db)
      else if !u.profile.DriverProfile? then Step(Err(NotADriver), db)
      else
        var u' := u.(mail := req.mail, phoneNumber := req.phoneNumber, username := req.username,
                     profile := DriverProfile(Some(req.carType)));
        var db' := db.(users := db.users[uid.value := u']);
        RenamePreservesInvariant(db, uid.value, u');
        Step(Ok(DriverResponse(u'.username, req.carType, u'.password, u'.phoneNumber, u'.mail)), db')
  }

  method UpdateDriver(repo: Repository, caller: string, req: DriverRequest) returns (r: Result<DriverResponse>)
    requires repo.Valid()
    modifies repo
    ensures repo.Valid()
    ensures Step(r, repo.Snapshot()) == UpdateDriverStep(old(repo.Snapshot()), caller, req)
  {
    var db := repo.Snapshot();
    var uid := Lookup(db, ByUsername(caller));
    if uid.None? {
      return Err(UserNotFound);
    }
    var driver := repo.users[uid.value];
    var conflict := ChangeConflict(db, driver, req.username, req.mail, req.phoneNumber);
    if conflict.Some? {
      return Err(conflict.value);
    }
    driver := driver.(mail := req.mail);
    driver := driver.(phoneNumber := req.phoneNumber);
    driver := driver.(username := req.username);
    if !driver.profile.DriverProfile? {
      return Err(NotADriver);
    }
    driver := driver.(profile := DriverProfile(Some(req.carType)));
    repo.SaveUser(uid.value, driver);
    r := Ok(DriverResponse(driver.username, req.carType, driver.password, driver.phoneNumber, driver.mail));
    assert Step(r, repo.Snapshot()) == UpdateDriverStep(db, caller, req);
  }
}
