/** The repositories the services talk to (CargoRepository, UserRepository,
    ShipmentSendRepository): the cargo and user tables keyed by their identity
    column, the append-only ShipmentSent log, and the queries the services run. */
module Store {
  import opened Entities
  import opened Codes

  /** The contents of the three tables, with the next value of each identity column. */
  datatype Db = Db(
    cargoes: map<CargoId, Cargo>,
    users: map<UserId, User>,
    shipments: seq<ShipmentSent>,
    nextCargoId: nat,
    nextUserId: nat)

  /** What an operation returned, and the tables after it. */
  datatype Step<+T> = Step(result: Result<T>, db: Db)

  /** The derived queries of UserRepository: findBy/existsBy Username, Mail, PhoneNumber. */
  datatype Key = ByUsername(username: string) | ByMail(mail: string) | ByPhone(phoneNumber: string)

  predicate Has(u: User, k: Key) {
    match k
    case ByUsername(n) => u.username == n
    case ByMail(m) => u.mail == m
    case ByPhone(p) => u.phoneNumber == p
  }

  /** The lowest user id in [from, bound) whose row matches the key. */
  function FindUser(users: map<UserId, User>, k: Key, from: nat, bound: nat): (r: Option<UserId>)
    ensures r.Some? ==> from <= r.value < bound && r.value in users && Has(users[r.value], k)
    ensures r.Some? ==> forall id :: from <= id < r.value && id in users ==> !Has(users[id], k)
    ensures r.None? ==> forall id :: from <= id < bound && id in users ==> !Has(users[id], k)
    decreases bound - from
  {
    if from >= bound then None
    else if from in users && Has(users[from], k) then Some(from)
    else FindUser(users, k, from + 1, bound)
  }

  /** findByUsername / findByMail / findByPhoneNumber. */
  function Lookup(db: Db, k: Key): (r: Option<UserId>)
    ensures r.Some? ==> r.value in db.users && Has(db.users[r.value], k)
    ensures r.None? && UserKeysBelow(db) ==> forall id :: id in db.users ==> !Has(db.users[id], k)
  {
    FindUser(db.users, k, 0, db.nextUserId)
  }

  /** existsByUsername / existsByMail / existsByPhoneNumber. */
  predicate Exists(db: Db, k: Key) { Lookup(db, k).Some? }

  /** The user behind an authenticated name, when there is one. */
  predicate IsUser(db: Db, name: string) { Lookup(db, ByUsername(name)).Some? }

  /** The caller exists and its row is a Driver. */
  predicate IsDriverUser(db: Db, name: string) {
    var id := Lookup(db, ByUsername(name));
    id.Some? && db.users[id.value].profile.DriverProfile?
  }

  predicate IsDistributorUser(db: Db, name: string) {
    var id := Lookup(db, ByUsername(name));
    id.Some? && db.users[id.value].profile.DistributorProfile?
  }

  /** The fields of a cargo that only its distributor's request sets. */
  predicate SameShipmentData(c: Cargo, c': Cargo) {
    && c'.description == c.description
    && c'.selfLocation == c.selfLocation
    && c'.targetLocation == c.targetLocation
    && c'.measure == c.measure
    && c'.phoneNumber == c.phoneNumber
    && c'.distributor == c.distributor
  }

  /** db' differs from db at most in the row of cargo id, which exists in both. */
  predicate OnlyCargoChanged(db: Db, db': Db, id: CargoId) {
    && id in db.cargoes
    && db'.cargoes.Keys == db.cargoes.Keys
    && (forall k :: k in db.cargoes && k != id ==> db'.cargoes[k] == db.cargoes[k])
    && db'.users == db.users
    && db'.shipments == db.shipments
    && db'.nextCargoId == db.nextCargoId
    && db'.nextUserId == db.nextUserId
  }

  /** db' differs from db at most in the row of user id, which exists in both. */
  predicate OnlyUserChanged(db: Db, db': Db, id: UserId) {
    && id in db.users
    && db'.users.Keys == db.users.Keys
    && (forall k :: k in db.users && k != id ==> db'.users[k] == db.users[k])
    && db'.cargoes == db.cargoes
    && db'.shipments == db.shipments
    && db'.nextCargoId == db.nextCargoId
    && db'.nextUserId == db.nextUserId
  }

  /** The uniqueness checks of updateDriver and updateDistributor: a new
      username, mail or phone number is refused when it differs from the
      user's current one and some user already has it; username is checked
      first, then mail, then phone. */
  function ChangeConflict(db: Db, u: User, username: string, mail: string, phoneNumber: string): (e: Option<Error>)
    ensures u.username != username && Exists(db, ByUsername(username)) ==> e == Some(UsernameTaken)
    ensures (&& !(u.username != username && Exists(db, ByUsername(username)))
             && u.mail != mail && Exists(db, ByMail(mail)))
            ==> e == Some(MailTaken)
    ensures (&& !(u.username != username && Exists(db, ByUsername(username)))
             && !(u.mail != mail && Exists(db, ByMail(mail)))
             && u.phoneNumber != phoneNumber && Exists(db, ByPhone(phoneNumber)))
            ==> e == Some(PhoneTaken)
    ensures e.None? <==>
      && (username == u.username || !Exists(db, ByUsername(username)))
      && (mail == u.mail || !Exists(db, ByMail(mail)))
      && (phoneNumber == u.phoneNumber || !Exists(db, ByPhone(phoneNumber)))
  {
    if u.username != username && Exists(db, ByUsername(username)) then Some(UsernameTaken)
    else if u.mail != mail && Exists(db, ByMail(mail)) then Some(MailTaken)
    else if u.phoneNumber != phoneNumber && Exists(db, ByPhone(phoneNumber)) then Some(PhoneTaken)
    else None
  }

  // ---------------------------------------------------------------------------
  // The invariant every operation keeps.

  predicate CargoKeysBelow(db: Db) { forall id :: id in db.cargoes ==> id < db.nextCargoId }

  predicate UserKeysBelow(db: Db) { forall id :: id in db.users ==> id < db.nextUserId }

  /** No two users share a username, a mail or a phone number. */
  predicate UniqueAccounts(users: map<UserId, User>) {
    forall a, b :: a in users && b in users && a != b ==>
      && users[a].username != users[b].username
      && users[a].mail != users[b].mail
      && users[a].phoneNumber != users[b].phoneNumber
  }

  /** A pending account code is always one the generator produced. */
  predicate UserCodesWellFormed(users: map<UserId, User>) {
    forall id :: id in users && users[id].verificationCode.Some? ==> IsSixDigitCode(users[id].verificationCode.value)
  }

  predicate IsDriverId(users: map<UserId, User>, id: UserId) { id in users && users[id].profile.DriverProfile? }

  predicate IsDistributorId(users: map<UserId, User>, id: UserId) { id in users && users[id].profile.DistributorProfile? }

  /** The facts about one cargo row that the lifecycle maintains. */
  predicate CargoOk(users: map<UserId, User>, c: Cargo) {
    && IsDistributorId(users, c.distributor)
    && (c.driver.Some? ==> IsDriverId(users, c.driver.value))
    // a cargo is CREATED exactly while it has no driver
    && (c.situation == CREATED <==> c.driver.None?)
    // the driver is only ever set together with a delivery code and a taking time
    && (c.driver.Some? ==> c.verificationCode.Some? && c.takingTime.Some?)
    && (c.verificationCode.Some? ==> IsSixDigitCode(c.verificationCode.value))
    && (c.situation == DELIVERED ==> c.deliveredTime.Some?)
  }

  predicate RecordOk(users: map<UserId, User>, r: ShipmentSent) {
    IsDistributorId(users, r.distributor) && IsDriverId(users, r.driver)
  }

  predicate Invariant(db: Db) {
    && CargoKeysBelow(db)
    && UserKeysBelow(db)
    && UniqueAccounts(db.users)
    && UserCodesWellFormed(db.users)
    && (forall id :: id in db.cargoes ==> CargoOk(db.users, db.cargoes[id]))
    && (forall i :: 0 <= i < |db.shipments| ==> RecordOk(db.users, db.shipments[i]))
  }

  /** Under the invariant, a lookup by a key finds the only user with that key. */
  lemma LookupUnique(db: Db, k: Key, id: UserId)
    requires Invariant(db) && id in db.users && Has(db.users[id], k)
    ensures Lookup(db, k) == Some(id)
  {
    assert Lookup(db, k).Some?;
  }

  /** Rewriting users without changing any profile kind keeps cargo rows and
      log records consistent. */
  lemma SameKindsKeepLinks(db: Db, users': map<UserId, User>)
    requires Invariant(db)
    requires db.users.Keys <= users'.Keys
    requires forall id :: id in db.users ==> users'[id].profile.DriverProfile? == db.users[id].profile.DriverProfile?
    ensures forall id :: id in db.cargoes ==> CargoOk(users', db.cargoes[id])
    ensures forall i :: 0 <= i < |db.shipments| ==> RecordOk(users', db.shipments[i])
  {
    forall id | id in db.cargoes ensures CargoOk(users', db.cargoes[id]) {
      assert CargoOk(db.users, db.cargoes[id]);
    }
    forall i | 0 <= i < |db.shipments| ensures RecordOk(users', db.shipments[i]) {
      assert RecordOk(db.users, db.shipments[i]);
    }
  }

  /** Rewriting one user's account fields keeps the invariant when each new
      username, mail and phone number is the user's own or taken by nobody, and
      the row stays of the same subclass. */
  lemma RenamePreservesInvariant(db: Db, id: UserId, u': User)
    requires id in db.users
    requires u'.profile.DriverProfile? == db.users[id].profile.DriverProfile?
    requires u'.verificationCode == db.users[id].verificationCode
    requires u'.username == db.users[id].username || !Exists(db, ByUsername(u'.username))
    requires u'.mail == db.users[id].mail || !Exists(db, ByMail(u'.mail))
    requires u'.phoneNumber == db.users[id].phoneNumber || !Exists(db, ByPhone(u'.phoneNumber))
    ensures Invariant(db) ==> Invariant(db.(users := db.users[id := u']))
  {
    if !Invariant(db) {
      return;
    }
    var users' := db.users[id := u'];
    SameKindsKeepLinks(db, users');
    forall a, b | a in users' && b in users' && a != b
      ensures users'[a].username != users'[b].username
      ensures users'[a].mail != users'[b].mail
      ensures users'[a].phoneNumber != users'[b].phoneNumber
    {
      if a == id || b == id {
        var other := if a == id then b else a;
        assert !Has(db.users[other], ByUsername(db.users[id].username));
        assert u'.username != db.users[id].username ==> !Has(db.users[other], ByUsername(u'.username));
        assert u'.mail != db.users[id].mail ==> !Has(db.users[other], ByMail(u'.mail));
        assert u'.phoneNumber != db.users[id].phoneNumber ==> !Has(db.users[other], ByPhone(u'.phoneNumber));
      }
    }
  }

  /** Replacing one cargo row by a consistent one, and appending consistent
      log records, keeps the invariant. */
  lemma CargoWritePreservesInvariant(db: Db, id: CargoId, c': Cargo, records: seq<ShipmentSent>)
    requires id in db.cargoes
    ensures (&& Invariant(db) && CargoOk(db.users, c')
             && (forall i :: 0 <= i < |records| ==> RecordOk(db.users, records[i])))
            ==> Invariant(db.(cargoes := db.cargoes[id := c'], shipments := db.shipments + records))
  {
  }

  /** The database with no rows, as the application starts. */
  function EmptyDb(): (db: Db)
    ensures Invariant(db) && db.cargoes == map[] && db.users == map[] && db.shipments == []
  {
    Db(map[], map[], [], 0, 0)
  }

  // ---------------------------------------------------------------------------
  // The repositories as mutable state.

  class Repository {
    var cargoes: map<CargoId, Cargo>
    var users: map<UserId, User>
    var shipments: seq<ShipmentSent>
    var nextCargoId: nat
    var nextUserId: nat

    function Snapshot(): Db
      reads this
    {
      Db(cargoes, users, shipments, nextCargoId, nextUserId)
    }

    ghost predicate Valid()
      reads this
    {
      Invariant(Snapshot())
    }

    constructor ()
      ensures Valid() && Snapshot() == EmptyDb()
    {
      cargoes := map[];
      users := map[];
      shipments := [];
      nextCargoId := 0;
      nextUserId := 0;
    }

    /** CrudRepository.save of a cargo row under its id. */
    method SaveCargo(id: CargoId, c: Cargo)
      modifies this
      ensures Snapshot() == old(Snapshot()).(cargoes := old(cargoes)[id := c])
    {
      cargoes := cargoes[id := c];
    }

    /** CrudRepository.save of a new cargo row: the identity column assigns the id. */
    method InsertCargo(c: Cargo) returns (id: CargoId)
      modifies this
      ensures id == old(nextCargoId)
      ensures Snapshot() == old(Snapshot()).(cargoes := old(cargoes)[id := c], nextCargoId := id + 1)
    {
      id := nextCargoId;
      cargoes := cargoes[id := c];
      nextCargoId := nextCargoId + 1;
    }

    method DeleteCargo(id: CargoId)
      modifies this
      ensures Snapshot() == old(Snapshot()).(cargoes := old(cargoes) - {id})
    {
      cargoes := cargoes - {id};
    }

    method SaveUser(id: UserId, u: User)
      modifies this
      ensures Snapshot() == old(Snapshot()).(users := old(users)[id := u])
    {
      users := users[id := u];
    }

    method InsertUser(u: User) returns (id: UserId)
      modifies this
      ensures id == old(nextUserId)
      ensures Snapshot() == old(Snapshot()).(users := old(users)[id := u], nextUserId := id + 1)
    {
      id := nextUserId;
      users := users[id := u];
      nextUserId := nextUserId + 1;
    }

    method AppendShipment(r: ShipmentSent)
      modifies this
      ensures Snapshot() == old(Snapshot()).(shipments := old(shipments) + [r])
    {
      shipments := shipments + [r];
    }
  }
}
