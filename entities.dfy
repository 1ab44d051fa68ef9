/** The persistent entities of the cargo service (Cargo, User and its Driver and
    Distributor subclasses, ShipmentSent), the request and response records the
    services exchange, and the error outcomes of the service operations. */
module Entities {

  datatype Option<+T> = None | Some(value: T)

  /** A failed operation carries the reason the Java code throws. */
  datatype Result<+T> = Ok(value: T) | Err(error: Error)

  /** Every exception a modelled service operation can end with. */
  datatype Error =
    | UserNotFound        // findByUsername / findByMail came back empty
    | NoValuePresent      // Optional.get() on an empty lookup (deliverCargo)
    | CargoNotFound       // findById / findByIdAndDistributorId / findByIdAndDriverId came back empty
    | NotADriver          // the (Driver) cast failed
    | NotADistributor     // the (Distributor) cast failed
    | NullReference       // a null code or expiry was dereferenced
    | IncorrectCode       // a submitted code differs from the stored one
    | NotEditable         // updateCargo on a cargo that is no longer CREATED
    | MailTaken
    | UsernameTaken
    | PhoneTaken
    | AccountNotVerified  // login with enable = false
    | CodeExpired
    | PasswordsDiffer
    | BadCredentials      // rejected by the authentication manager
    | MailDeliveryFailed  // the verification mail of register could not be sent

  /** LocalDateTime, as a count of seconds. */
  type Time = int
  const SecondsPerHour := 3600

  /** Identity columns assigned by the database. */
  type CargoId = nat
  type UserId = nat

  /** Location, Measure and Address are entities of their own that a cargo or a
      distributor only refers to; the model keeps the reference. */
  datatype Location = Location(row: nat)
  datatype Measure = Measure(row: nat)
  datatype Address = Address(row: nat)

  /** The result of PasswordEncoder.encode, kept symbolic: the encoder itself is
      not part of this model. */
  datatype Digest = Encoded(secret: string)

  /** A value of the Roles enum, by its name; the granted authority is "ROLE_" + name. */
  datatype Role = Role(name: string)

  const DistributorRoleName := "DISTRIBUTOR"

  function Authority(role: Role): (a: string)
    ensures |a| == 5 + |role.name| && a[..5] == "ROLE_" && a[5..] == role.name
  {
    "ROLE_" + role.name
  }

  datatype Situation = CREATED | PICKED_UP | DELIVERED

  /** The JPA subclass a User row belongs to, with the fields of that subclass
      the services write. A (Driver) or (Distributor) cast succeeds exactly when
      the profile is of that kind. */
  datatype Profile =
    | DriverProfile(carType: Option<string>)
    | DistributorProfile(address: Option<Address>)

  datatype User = User(
    username: string,
    mail: string,
    password: Digest,
    phoneNumber: string,
    role: Role,
    enable: bool,
    verificationCode: Option<string>,
    verificationCodeExpiresAt: Option<Time>,
    profile: Profile)

  /** A cargo row; its id is the key it is stored under. */
  datatype Cargo = Cargo(
    selfLocation: Location,
    targetLocation: Option<Location>,
    measure: Measure,
    situation: Situation,
    phoneNumber: string,
    verificationCode: Option<string>,
    takingTime: Option<Time>,
    deliveredTime: Option<Time>,
    description: string,
    distributor: UserId,
    driver: Option<UserId>)

  /** The audit row written when a driver delivers a cargo. */
  datatype ShipmentSent = ShipmentSent(distributor: UserId, driver: UserId, cargo: CargoId, date: Time)

  // Request records

  datatype CargoRequest = CargoRequest(
    description: string,
    selfLocation: Location,
    targetLocation: Location,
    measure: Measure,
    phoneNumber: string)

  datatype DriverRequest = DriverRequest(username: string, mail: string, phoneNumber: string, carType: string)

  datatype DistributorRequest = DistributorRequest(phoneNumber: string, address: Address, username: string, mail: string)

  datatype RegisterRequest = RegisterRequest(mail: string, username: string, password: string, phoneNumber: string, role: Role)

  datatype SetPasswordRequest = SetPasswordRequest(passwordCode: string, password: string, checkPassword: string)

  // Response records

  datatype CargoResponse = CargoResponse(
    description: string,
    selfLocation: Location,
    targetLocation: Option<Location>,
    measure: Measure,
    phoneNumber: string,
    situation: Situation)

  datatype UserResponse = UserResponse(username: string, mail: string, role: Role)

  datatype DriverResponse = DriverResponse(username: string, carType: string, password: Digest, phoneNumber: string, mail: string)

  datatype DistributorResponse = DistributorResponse(username: string, address: Address, password: Digest, phoneNumber: string, mail: string)

  function ToCargoResponse(c: Cargo): CargoResponse
  {
    CargoResponse(c.description, c.selfLocation, c.targetLocation, c.measure, c.phoneNumber, c.situation)
  }

  /** The public projection: username, mail and role, never the password or a code. */
  function ToUserResponse(u: User): UserResponse
  {
    UserResponse(u.username, u.mail, u.role)
  }
}
