/** DistributorService: a distributor edits its account, creates cargoes, deletes
    the ones it owns and edits cargoes that are still CREATED. The authenticated
    username is a parameter. */
module DistributorService {
  import opened Entities
  import opened Store

  // ---------------------------------------------------------------------------
  // findAllByDistributorId and the response list of addCargo

  /** The ids in [from, bound) of the cargoes whose distributor is d, in
      increasing order. */
  function OwnedIds(cargoes: map<CargoId, Cargo>, d: UserId, from: nat, bound: nat): (ids: seq<CargoId>)
    ensures forall i :: 0 <= i < |ids| ==>
      from <= ids[i] < bound && ids[i] in cargoes && cargoes[ids[i]].distributor == d
    ensures forall i, j :: 0 <= i < j < |ids| ==> ids[i] < ids[j]
    ensures forall id :: from <= id < bound && id in cargoes && cargoes[id].distributor == d ==> id in ids
    decreases bound - from
  {
    if from >= bound then []
    else if from in cargoes && cargoes[from].distributor == d then [from] + OwnedIds(cargoes, d, from + 1, bound)
    else OwnedIds(cargoes, d, from + 1, bound)
  }

  /** findAllByDistributorId: every cargo of distributor d, each exactly once. */
  function CargoesOf(db: Db, d: UserId): (ids: seq<CargoId>)
    requires CargoKeysBelow(db)
    ensures forall id :: id in ids <==> id in db.cargoes && db.cargoes[id].distributor == d
    ensures forall i, j :: 0 <= i < j < |ids| ==> ids[i] != ids[j]
  {
    var ids := OwnedIds(db.cargoes, d, 0, db.nextCargoId);
    assert forall id :: id in ids ==> id in db.cargoes && db.cargoes[id].distributor == d by {
      forall id | id in ids ensures id in db.cargoes && db.cargoes[id].distributor == d {
        var i :| 0 <= i < |ids| && ids[i] == id;
      }
    }
    ids
  }

  /** The stream of addCargo mapping each listed cargo to a CargoResponse. */
  function Responses(cargoes: map<CargoId, Cargo>, ids: seq<CargoId>): (rs: seq<CargoResponse>)
    requires forall id :: id in ids ==> id in cargoes
    ensures |rs| == |ids|
    ensures forall i :: 0 <= i < |ids| ==> rs[i] == ToCargoResponse(cargoes[ids[i]])
  {
    seq(|ids|, i requires 0 <= i < |ids| => ToCargoResponse(cargoes[ids[i]]))
  }

  // ---------------------------------------------------------------------------
  // updateDistributor

  function UpdateDistributorStep(db: Db, caller: string, req: DistributorRequest): (s: Step<DistributorResponse>)
    ensures !IsUser(db, caller) ==> s == Step(Err(UserNotFound), db)
    // the uniqueness checks (username, mail, phone) precede the cast
    ensures IsUser(db, caller) ==>
      var conflict := ChangeConflict(db, db.users[Lookup(db, ByUsername(caller)).value],
                                     req.username, req.mail, req.phoneNumber);
      && (conflict.Some? ==> s == Step(Err(conflict.value), db))
      && (conflict.None? && !IsDistributorUser(db, caller) ==> s == Step(Err(NotADistributor), db))
      && (conflict.None? && IsDistributorUser(db, caller) ==> s.result.Ok?)
    ensures s.result.Err? ==> s.db == db
    ensures s.result.Ok? ==> IsDistributorUser(db, caller)
    ensures s.result.Ok? ==> OnlyUserChanged(db, s.db, Lookup(db, ByUsername(caller)).value)
    ensures s.result.Ok? ==>
      var id := Lookup(db, ByUsername(caller)).value;
      var u, u' := db.users[id], s.db.users[id];
      // exactly phone, address, username and mail are written
      && u' == u.(phoneNumber := req.phoneNumber, profile := DistributorProfile(Some(req.address)),
                  username := req.username, mail := req.mail)
      && s.result.value == DistributorResponse(req.username, req.address, u.password, req.phoneNumber, req.mail)
    ensures Invariant(db) ==> Invariant(s.db)
  {
    var uid := Lookup(db, ByUsername(caller));
    if uid.None? then Step(Err(UserNotFound), db)
    else
      var u := db.users[uid.value];
      var conflict := ChangeConflict(db, u, req.username, req.mail, req.phoneNumber);
      if conflict.Some? then Step(Err(conflict.value), db)
      else if !u.profile.DistributorProfile? then Step(Err(NotADistributor), db)
      else
        var u' := u.(phoneNumber := req.phoneNumber, profile := DistributorProfile(Some(req.address)),
                     username := req.username, mail := req.mail);
        RenamePreservesInvariant(db, uid.value, u');
        Step(Ok(DistributorResponse(u'.username, req.address, u'.password, u'.phoneNumber, u'.mail)),
             db.(users := db.users[uid.value := u']))
  }

  method UpdateDistributor(repo: Repository, caller: string, req: DistributorRequest) returns (r: Result<DistributorResponse>)
    requires repo.Valid()
    modifies repo
    ensures repo.Valid()
    ensures Step(r, repo.Snapshot()) == UpdateDistributorStep(old(repo.Snapshot()), caller, req)
  {
    var db := repo.Snapshot();
    var uid := Lookup(db, ByUsername(caller));
    if uid.None? {
      return Err(UserNotFound);
    }
    var user := repo.users[uid.value];
    var conflict := ChangeConflict(db, user, req.username, req.mail, req.phoneNumber);
    if conflict.Some? {
      return Err(conflict.value);
    }
    if !user.profile.DistributorProfile? {
      return Err(NotADistributor);
    }
    user := user.(phoneNumber := req.phoneNumber);
    user := user.(profile := DistributorProfile(Some(req.address)));
    user := user.(username := req.username);
    user := user.(mail := req.mail);
    repo.SaveUser(uid.value, user);
    r := Ok(DistributorResponse(user.username, req.address, user.password, user.phoneNumber, user.mail));
    assert Step(r, repo.Snapshot()) == UpdateDistributorStep(db, caller, req);
  }

  // ---------------------------------------------------------------------------
  // addCargo

  function AddCargoStep(db: Db, caller: string, req: CargoRequest): (s: Step<seq<CargoResponse>>)
    requires CargoKeysBelow(db)
    ensures !IsUser(db, caller) ==> s == Step(Err(UserNotFound), db)
    // the cast fails before anything is saved
    ensures IsUser(db, caller) && !IsDistributorUser(db, caller) ==> s == Step(Err(NotADistributor), db)
    ensures s.result.Ok? <==> IsDistributorUser(db, caller)
    ensures s.result.Ok? ==>
      var id := db.nextCargoId;
      // exactly one new row, under a fresh id
      && s.db.cargoes.Keys == db.cargoes.Keys + {id}
      && id !in db.cargoes
      && (forall k :: k in db.cargoes ==> s.db.cargoes[k] == db.cargoes[k])
      && s.db.nextCargoId == id + 1
      && s.db.users == db.users && s.db.shipments == db.shipments && s.db.nextUserId == db.nextUserId
    ensures s.result.Ok? ==>
      var c := s.db.cargoes[db.nextCargoId];
      && c.situation == CREATED
      && Some(c.distributor) == Lookup(db, ByUsername(caller))
      && c.measure == req.measure && c.description == req.description
      && c.phoneNumber == req.phoneNumber && c.selfLocation == req.selfLocation
      && c.targetLocation.None? && c.driver.None? && c.verificationCode.None?
      && c.takingTime.None? && c.deliveredTime.None?
    // one response per cargo of the caller, the new one included
    ensures s.result.Ok? ==>
      var d := Lookup(db, ByUsername(caller)).value;
      && CargoKeysBelow(s.db)
      && db.nextCargoId in CargoesOf(s.db, d)
      && s.result.value == Responses(s.db.cargoes, CargoesOf(s.db, d))
    ensures Invariant(db) ==> Invariant(s.db)
  {
    var uid := Lookup(db, ByUsername(caller));
    if uid.None? then Step(Err(UserNotFound), db)
    else if !db.users[uid.value].profile.DistributorProfile? then Step(Err(NotADistributor), db)
    else
      var c := Cargo(req.selfLocation, None, req.measure, CREATED, req.phoneNumber, None, None, None,
                     req.description, uid.value, None);
      var db' := db.(cargoes := db.cargoes[db.nextCargoId := c], nextCargoId := db.nextCargoId + 1);
      assert Invariant(db) ==> CargoOk(db'.users, c);
      Step(Ok(Responses(db'.cargoes, CargoesOf(db', uid.value))), db')
  }

  method AddCargo(repo: Repository, caller: string, req: CargoRequest) returns (r: Result<seq<CargoResponse>>)
    requires repo.Valid()
    modifies repo
    ensures repo.Valid()
    ensures Step(r, repo.Snapshot()) == AddCargoStep(old(repo.Snapshot()), caller, req)
  {
    var db := repo.Snapshot();
    var uid := Lookup(db, ByUsername(caller));
    if uid.None? {
      return Err(UserNotFound);
    }
    if !repo.users[uid.value].profile.DistributorProfile? {
      return Err(NotADistributor);
    }
    var cargo := Cargo(req.selfLocation, None, req.measure, CREATED, req.phoneNumber, None, None, None,
                       req.description, uid.value, None);
    var _ := repo.InsertCargo(cargo);
    var cargoList := CargoesOf(repo.Snapshot(), uid.value);
    r := Ok(Responses(repo.cargoes, cargoList));
    assert Step(r, repo.Snapshot()) == AddCargoStep(db, caller, req);
  }

  // ---------------------------------------------------------------------------
  // deleteCargo

  function DeleteCargoStep(db: Db, caller: string, cargoId: CargoId): (s: Step<()>)
    ensures !IsUser(db, caller) ==> s == Step(Err(UserNotFound), db)
    // "Kargo bulunamadı." unless the cargo exists and the caller is its distributor;
    // the situation of the cargo plays no part
    ensures s.result.Ok? <==>
      IsUser(db, caller) && cargoId in db.cargoes && Some(db.cargoes[cargoId].distributor) == Lookup(db, ByUsername(caller))
    ensures IsUser(db, caller) && !s.result.Ok? ==> s == Step(Err(CargoNotFound), db)
    ensures s.result.Err? ==> s.db == db
    // only that row goes; no other cargo is touched
    ensures s.result.Ok? ==>
      && s.db.cargoes.Keys == db.cargoes.Keys - {cargoId}
      && (forall k :: k in s.db.cargoes ==> s.db.cargoes[k] == db.cargoes[k])
      && s.db.users == db.users && s.db.shipments == db.shipments
      && s.db.nextCargoId == db.nextCargoId && s.db.nextUserId == db.nextUserId
    ensures Invariant(db) ==> Invariant(s.db)
  {
    var uid := Lookup(db, ByUsername(caller));
    if uid.None? then Step(Err(UserNotFound), db)
    else if cargoId !in db.cargoes || db.cargoes[cargoId].distributor != uid.value then Step(Err(CargoNotFound), db)
    else Step(Ok(()), db.(cargoes := db.cargoes - {cargoId}))
  }

  method DeleteCargo(repo: Repository, caller: string, cargoId: CargoId) returns (r: Result<()>)
    requires repo.Valid()
    modifies repo
    ensures repo.Valid()
    ensures Step(r, repo.Snapshot()) == DeleteCargoStep(old(repo.Snapshot()), caller, cargoId)
  {
    var db := repo.Snapshot();
    var uid := Lookup(db, ByUsername(caller));
    if uid.None? {
      return Err(UserNotFound);
    }
    if cargoId !in repo.cargoes || repo.cargoes[cargoId].distributor != uid.value {
      return Err(CargoNotFound);
    }
    repo.DeleteCargo(cargoId);
    r := Ok(());
    assert Step(r, repo.Snapshot()) == DeleteCargoStep(db, caller, cargoId);
  }

  // ---------------------------------------------------------------------------
  // updateCargo

  function UpdateCargoStep(db: Db, caller: string, cargoId: CargoId, req: CargoRequest): (s: Step<CargoResponse>)
    ensures !IsUser(db, caller) ==> s == Step(Err(UserNotFound), db)
    ensures IsUser(db, caller) && cargoId !in db.cargoes ==> s == Step(Err(CargoNotFound), db)
    ensures IsUser(db, caller) && cargoId in db.cargoes && db.cargoes[cargoId].situation != CREATED
            ==> s == Step(Err(NotEditable), db)
    // no check that the caller owns the cargo
    ensures s.result.Ok? <==> IsUser(db, caller) && cargoId in db.cargoes && db.cargoes[cargoId].situation == CREATED
    ensures s.result.Err? ==> s.db == db
    ensures s.result.Ok? ==> OnlyCargoChanged(db, s.db, cargoId)
    ensures s.result.Ok? ==>
      var c, c' := db.cargoes[cargoId], s.db.cargoes[cargoId];
      // exactly measure, phone, both locations and description are overwritten
      && c'.measure == req.measure && c'.phoneNumber == req.phoneNumber
      && c'.selfLocation == req.selfLocation && c'.targetLocation == Some(req.targetLocation)
      && c'.description == req.description
      && c'.situation == c.situation && c'.driver == c.driver && c'.distributor == c.distributor
      && c'.verificationCode == c.verificationCode
      && c'.takingTime == c.takingTime && c'.deliveredTime == c.deliveredTime
      && s.result.value == ToCargoResponse(c')
    ensures Invariant(db) ==> Invariant(s.db)
  {
    var uid := Lookup(db, ByUsername(caller));
    if uid.None? then Step(Err(UserNotFound), db)
    else if cargoId !in db.cargoes then Step(Err(CargoNotFound), db)
    else if db.cargoes[cargoId].situation != CREATED then Step(Err(NotEditable), db)
    else
      var db' := EditCargo(db, cargoId, req);
      Step(Ok(ToCargoResponse(db'.cargoes[cargoId])), db')
  }

  /** The writes of a successful updateCargo, on that one row. */
  function EditCargo(db: Db, cargoId: CargoId, req: CargoRequest): (db': Db)
    requires cargoId in db.cargoes
    ensures OnlyCargoChanged(db, db', cargoId)
    ensures var c, c' := db.cargoes[cargoId], db'.cargoes[cargoId];
      && c'.measure == req.measure && c'.phoneNumber == req.phoneNumber
      && c'.selfLocation == req.selfLocation && c'.targetLocation == Some(req.targetLocation)
      && c'.description == req.description
      && c'.situation == c.situation && c'.driver == c.driver && c'.distributor == c.distributor
      && c'.verificationCode == c.verificationCode
      && c'.takingTime == c.takingTime && c'.deliveredTime == c.deliveredTime
    ensures Invariant(db) ==> Invariant(db')
  {
    var c := db.cargoes[cargoId];
    var c' := c.(measure := req.measure, phoneNumber := req.phoneNumber, selfLocation := req.selfLocation,
                 targetLocation := Some(req.targetLocation), description := req.description);
    assert Invariant(db) ==> CargoOk(db.users, c');
    CargoWritePreservesInvariant(db, cargoId, c', []);
    assert db.(cargoes := db.cargoes[cargoId := c']) == db.(cargoes := db.cargoes[cargoId := c'], shipments := db.shipments + []);
    db.(cargoes := db.cargoes[cargoId := c'])
  }

  method UpdateCargo(repo: Repository, caller: string, cargoId: CargoId, req: CargoRequest) returns (r: Result<CargoResponse>)
    requires repo.Valid()
    modifies repo
    ensures repo.Valid()
    ensures Step(r, repo.Snapshot()) == UpdateCargoStep(old(repo.Snapshot()), caller, cargoId, req)
  {
    var db := repo.Snapshot();
    var uid := Lookup(db, ByUsername(caller));
    if uid.None? {
      return Err(UserNotFound);
    }
    if cargoId !in repo.cargoes {
      return Err(CargoNotFound);
    }
    var cargo := repo.cargoes[cargoId];
    if cargo.situation != CREATED {
      return Err(NotEditable);
    }
    cargo := cargo.(measure := req.measure);
    cargo := cargo.(phoneNumber := req.phoneNumber);
    cargo := cargo.(selfLocation := req.selfLocation);
    cargo := cargo.(targetLocation := Some(req.targetLocation));
    cargo := cargo.(description := req.description);
    repo.SaveCargo(cargoId, cargo);
    r := Ok(ToCargoResponse(cargo));
    assert Step(r, repo.Snapshot()) == UpdateCargoStep(db, caller, cargoId, req);
  }
}
