# Cargo: shipment lifecycle, account verification and route authorisation

A Dafny model of the core of the Cargo service: a Spring back end where distributors post cargoes and drivers pick them up and deliver them.

- **Cargo lifecycle.** A distributor creates a cargo in situation `CREATED`. It can edit the cargo while it is `CREATED` and delete any cargo it owns. A driver *takes* a cargo, which makes it the cargo's driver, moves the cargo to `PICKED_UP` and issues a six-digit delivery code. The driver *delivers* the cargo by presenting that code. This moves it to `DELIVERED` and appends a `ShipmentSent` audit record.
- **Accounts.** `register` creates a disabled account that holds a six-digit activation code valid for two hours. `verifyUser` enables the account with that code, and `auth` refuses a disabled account. `forgotPassword` and `changePassword` issue a new code into the same field, and `setPassword` uses that code to replace the password.
- **Route authorisation.** The filter chain's ordered `requestMatchers` table decides each path for an anonymous caller or for the single `ROLE_<name>` authority of an account.

Layout, one module per file:

| file | module | contents |
|---|---|---|
| `entities.dfy` | `Entities` | Users, with a driver or distributor profile; cargoes; shipment records; requests, responses and errors |
| `codes.dfy` | `Codes` | `random.nextInt(900000) + 100000` rendered in decimal; the decimal round trip |
| `store.dfy` | `Store` | The tables as a `Db` value; the `Repository` class that holds them; the `findBy…` lookups; the store invariant |
| `driver_service.dfy` | `DriverService` | takeCargo, deliverCargo, updateDriver |
| `distributor_service.dfy` | `DistributorService` | updateDistributor, addCargo, deleteCargo, updateCargo |
| `register_login_service.dfy` | `RegisterLoginService` | register, auth, verifyUser, forgotPassword, changePassword, setPassword |
| `security_configuration.dfy` | `SecurityConfiguration` | The first-match rule table and the route lemmas |
| `lifecycle.dfy` | `Lifecycle` | Sequences of calls; the transitions the services leave unguarded; the intended flows |

Every operation that changes the store appears twice; `forgotPassword` and `changePassword`, whose bodies are identical, share one step function `IssuePasswordCodeStep`, and `auth`, which reads the store only, is the single function `Auth`.

- **`XStep(db, …)`** is a function. It returns the result (`Ok` or `Err(error)`) together with the store after the call. Its contract gives:
  - each error in the order the code checks for it;
  - when the call succeeds, as an if-and-only-if;
  - every field written;
  - that the store invariant is preserved.
- **`X(repo, …)`** is a method. It performs the same setter sequence on the `Repository` object and `modifies` it. Its postcondition is that the result and the new repository state are those of `XStep` on the old state.

Inputs from outside the core are parameters:

- The authenticated username from `SecurityContextHolder`.
- `LocalDateTime.now()`, as a `Time` in seconds.
- The value `Random.nextInt(900000)` returned, as a `Draw`.
- Whether the mail sender threw, as `mailDelivered`.

A Java exception is an `Err`, one constructor per distinct cause. A failed cast to `Driver` or `Distributor` is `NotADriver` or `NotADistributor`. `Optional.get()` on an empty value is `NoValuePresent`. A method call on a null field is `NullReference`.

The invariant (`Store.Invariant`) says:

- usernames, mails and phone numbers are unique;
- every cargo's distributor is a distributor and its driver, if any, a driver;
- a cargo is `CREATED` exactly while it has no driver;
- a cargo with a driver has a delivery code and a taking time;
- every stored code is a six-digit code.

The model follows the code, which leaves these transitions unguarded:

- `takeCargo` has no situation check, so a delivered cargo can be taken again.
- `deliverCargo` does not clear the code, so a second delivery succeeds and logs a second record.
- `updateCargo` does not check ownership.
- `deleteCargo` works in any situation.
- `register` fails after saving the account when the verification mail cannot be sent.

`DriverService.java` contains unresolved merge-conflict markers. Both sides share the modelled logic. They differ only in what `takeCargo` returns (a `CargoResponse` or `true`), and the model returns no value.

## Model

| member | source | states |
|---|---|---|
| Entities.Authority | cargo/src/main/java/com/hilgo/cargo/entity/User.java:90 | An account's single authority is "ROLE_" followed by its role's name, and that name can be read back from it |
| Codes.GenerateCode | cargo/src/main/java/com/hilgo/cargo/service/DriverService.java:57-61 | A generated code has exactly six decimal digits with no leading zero, and reads back as 100000 plus the drawn value |
| Codes.ParseDecimalString | cargo/src/main/java/com/hilgo/cargo/service/RegisterLoginService.java:175-179 | Reading the decimal rendering of a number gives back that number |
| Codes.DecimalStringLength | cargo/src/main/java/com/hilgo/cargo/service/RegisterLoginService.java:177-178 | A number from 10^k up to but not including 10^(k+1) renders as k+1 digits without a leading zero |
| Codes.GenerateCodeInjective | cargo/src/main/java/com/hilgo/cargo/service/RegisterLoginService.java:175-179 | Two draws give the same code exactly when they are the same draw |
| Store.FindUser | cargo/src/main/java/com/hilgo/cargo/service/RegisterLoginService.java:45-56 | The search finds the lowest id in range whose username, mail or phone equals the key, or reports that no id in range has it |
| Store.Lookup | cargo/src/main/java/com/hilgo/cargo/service/RegisterLoginService.java:45-56 | A found id is a user with the key; under the invariant, not found means no user has the key |
| Store.ChangeConflict | cargo/src/main/java/com/hilgo/cargo/service/DistributorService.java:34-44 | A new username, then mail, then phone is refused only when it differs from the account's own value and another account has it; no error exactly when none of the three is refused |
| Store.LookupUnique | cargo/src/main/java/com/hilgo/cargo/service/RegisterLoginService.java:45-58 | Under the invariant, a lookup by a key returns the only account that has that key |
| Store.RenamePreservesInvariant | cargo/src/main/java/com/hilgo/cargo/service/DriverService.java:165-172 | Overwriting one account's username, mail or phone keeps the invariant when each new value is unchanged or unused, and the profile kind and code stay the same |
| Store.CargoWritePreservesInvariant | cargo/src/main/java/com/hilgo/cargo/service/DriverService.java:96 | Saving one existing cargo whose links are well formed, with well-formed shipment records appended, keeps the invariant |
| Store.Repository.SaveCargo | cargo/src/main/java/com/hilgo/cargo/service/DriverService.java:75 | save() overwrites one cargo row and nothing else |
| Store.Repository.InsertCargo | cargo/src/main/java/com/hilgo/cargo/service/DistributorService.java:76 | Saving a new cargo stores it under the next identity value and advances the counter |
| Store.Repository.DeleteCargo | cargo/src/main/java/com/hilgo/cargo/service/DistributorService.java:96 | delete() removes exactly one cargo row |
| Store.Repository.SaveUser | cargo/src/main/java/com/hilgo/cargo/service/RegisterLoginService.java:169 | save() overwrites one account row and nothing else |
| Store.Repository.InsertUser | cargo/src/main/java/com/hilgo/cargo/service/RegisterLoginService.java:76 | Saving a new account stores it under the next identity value and advances the counter |
| Store.Repository.AppendShipment | cargo/src/main/java/com/hilgo/cargo/service/DriverService.java:121-126 | Saving a ShipmentSent appends exactly that record to the log |
| DriverService.TakeCargoStep | cargo/src/main/java/com/hilgo/cargo/service/DriverService.java:64-98 | Fails without writing for an unknown cargo, then an unknown caller, then a caller who is not a driver. It succeeds exactly otherwise, whatever the situation. On success it changes only that cargo: driver := caller, PICKED_UP, a fresh generated code, takingTime := now; the shipment data and deliveredTime are kept. Keeps the invariant |
| DriverService.AssignDriver | cargo/src/main/java/com/hilgo/cargo/service/DriverService.java:92-96 | The four setters and save of a successful takeCargo change only that cargo: driver, PICKED_UP, the new code and takingTime, everything else kept; the invariant holds afterwards when the new driver is a driver |
| DriverService.TakeCargo | cargo/src/main/java/com/hilgo/cargo/service/DriverService.java:87-97 | The setter sequence and save on the repository leave the result and state of TakeCargoStep, and keep the repository valid |
| DriverService.DeliverCargoStep | cargo/src/main/java/com/hilgo/cargo/service/DriverService.java:101-128 | An unknown caller fails on get(), then a non-driver on the cast, then "Cargo Not found" unless the cargo exists with the caller as its driver. A code not equal to the stored one fails and changes nothing. Success, exactly when all checks pass, sets DELIVERED and deliveredTime := now, keeps the code, and appends exactly one record (distributor, driver, cargo, now). Keeps the invariant |
| DriverService.RecordDelivery | cargo/src/main/java/com/hilgo/cargo/service/DriverService.java:113-126 | The writes of a successful delivery: the cargo becomes DELIVERED with deliveredTime := now, other cargoes and all accounts are untouched, and exactly one record (distributor, driver, cargo, now) is appended; keeps the invariant |
| DriverService.DeliverCargo | cargo/src/main/java/com/hilgo/cargo/service/DriverService.java:101-128 | The repository steps, with their two saves, leave the result and state of DeliverCargoStep |
| DriverService.UpdateDriverStep | cargo/src/main/java/com/hilgo/cargo/service/DriverService.java:135-209 | An unknown caller fails, then the conditional uniqueness checks in the order username, mail, phone, then the Driver cast; no failure writes anything. On success exactly mail, phone, username and carType change, and the response carries the new values and the stored password digest. Keeps the invariant |
| DriverService.UpdateDriver | cargo/src/main/java/com/hilgo/cargo/service/DriverService.java:135-172 | The in-place setters and save leave the result and state of UpdateDriverStep |
| DistributorService.OwnedIds | cargo/src/main/java/com/hilgo/cargo/service/DistributorService.java:78 | Lists, in ascending order without repetition, exactly the ids in range whose cargo belongs to the distributor |
| DistributorService.CargoesOf | cargo/src/main/java/com/hilgo/cargo/service/DistributorService.java:78 | findAllByDistributorId: every cargo of the distributor, once each, and nothing else |
| DistributorService.Responses | cargo/src/main/java/com/hilgo/cargo/service/DistributorService.java:80-87 | One CargoResponse per listed cargo, in list order |
| DistributorService.UpdateDistributorStep | cargo/src/main/java/com/hilgo/cargo/service/DistributorService.java:29-62 | An unknown caller fails, then the uniqueness checks in the order username, mail, phone, then the Distributor cast, with nothing written. On success only phone, address, username and mail change. Keeps the invariant |
| DistributorService.UpdateDistributor | cargo/src/main/java/com/hilgo/cargo/service/DistributorService.java:29-62 | The in-place setters and save leave the result and state of UpdateDistributorStep |
| DistributorService.AddCargoStep | cargo/src/main/java/com/hilgo/cargo/service/DistributorService.java:64-88 | An unknown caller fails, then a non-distributor at the cast, before anything is saved. Success, exactly for a distributor, inserts exactly one cargo under a fresh id: CREATED, owned by the caller, with measure, description, phone and selfLocation from the request, and no target, driver, code or times. It returns one response per cargo of the caller, the new one included. Keeps the invariant |
| DistributorService.AddCargo | cargo/src/main/java/com/hilgo/cargo/service/DistributorService.java:64-88 | Insert, query and projection on the repository leave the result and state of AddCargoStep |
| DistributorService.DeleteCargoStep | cargo/src/main/java/com/hilgo/cargo/service/DistributorService.java:90-99 | An unknown caller fails. Success, exactly when the cargo exists and its distributor is the caller, in any situation, removes that row only. Otherwise "Kargo bulunamadı." with nothing changed. Keeps the invariant |
| DistributorService.DeleteCargo | cargo/src/main/java/com/hilgo/cargo/service/DistributorService.java:90-99 | The repository delete leaves the result and state of DeleteCargoStep |
| DistributorService.UpdateCargoStep | cargo/src/main/java/com/hilgo/cargo/service/DistributorService.java:101-127 | An unknown caller fails, then an unknown cargo, then a cargo that is not CREATED, with nothing changed. Success, exactly otherwise and with no ownership check, overwrites only measure, phone, both locations and description, and returns the updated cargo's response. Keeps the invariant |
| DistributorService.EditCargo | cargo/src/main/java/com/hilgo/cargo/service/DistributorService.java:110-116 | The five setters and save overwrite exactly measure, phone, both locations and description of that one cargo, and keep the invariant |
| DistributorService.UpdateCargo | cargo/src/main/java/com/hilgo/cargo/service/DistributorService.java:101-127 | The setters and save leave the result and state of UpdateCargoStep |
| RegisterLoginService.NewAccount | cargo/src/main/java/com/hilgo/cargo/service/RegisterLoginService.java:60-74 | The new account is disabled, holds a generated six-digit code expiring two hours after now, has the encoded password, the request's username, mail, phone and role, and is a distributor exactly when the role is DISTRIBUTOR |
| RegisterLoginService.RegisterStep | cargo/src/main/java/com/hilgo/cargo/service/RegisterLoginService.java:42-85 | A taken mail, then username, then phone fails with its own error and nothing written. Otherwise exactly one account is added, and stays added when the mail then fails, which gives MailDeliveryFailed: disabled, with a generated six-digit code expiring 2 hours after now, the encoded password and the requested role, and a distributor exactly for the DISTRIBUTOR role. The response is only username, mail and role. Keeps the invariant |
| RegisterLoginService.Register | cargo/src/main/java/com/hilgo/cargo/service/RegisterLoginService.java:42-85 | The setters, save and mail outcome leave the result and state of RegisterStep |
| RegisterLoginService.Auth | cargo/src/main/java/com/hilgo/cargo/service/RegisterLoginService.java:140-156 | An unknown username fails, then a disabled account, before the credentials are compared. Success exactly for an enabled account whose digest matches the password, returning its username, mail and role |
| RegisterLoginService.VerifyUserStep | cargo/src/main/java/com/hilgo/cargo/service/RegisterLoginService.java:159-173 | An unknown mail fails. The expiry is checked (null, then before now) before the code (null, then mismatch), and failures change nothing. Success, exactly for an unexpired equal code, enables the account and clears the code and the expiry. Keeps the invariant |
| RegisterLoginService.VerifyUser | cargo/src/main/java/com/hilgo/cargo/service/RegisterLoginService.java:159-173 | The setters and save leave the result and state of VerifyUserStep |
| RegisterLoginService.IssuePasswordCodeStep | cargo/src/main/java/com/hilgo/cargo/service/RegisterLoginService.java:181-207 | An unknown mail fails with nothing changed. Otherwise only the account's code is replaced by a generated one, leaving expiry and enable, and the acknowledgement is returned. Keeps the invariant |
| RegisterLoginService.IssuePasswordCode | cargo/src/main/java/com/hilgo/cargo/service/RegisterLoginService.java:181-193 | The shared body leaves the result and state of IssuePasswordCodeStep whether or not the mail is sent |
| RegisterLoginService.ForgotPassword | cargo/src/main/java/com/hilgo/cargo/service/RegisterLoginService.java:181-193 | Behaves as IssuePasswordCodeStep, and a mail failure is swallowed |
| RegisterLoginService.ChangePassword | cargo/src/main/java/com/hilgo/cargo/service/RegisterLoginService.java:195-207 | Behaves as IssuePasswordCodeStep, exactly as forgotPassword does |
| RegisterLoginService.SetPasswordStep | cargo/src/main/java/com/hilgo/cargo/service/RegisterLoginService.java:209-225 | An unknown mail fails. A null code, then a code mismatch, then differing passwords fail with nothing changed. Success, exactly otherwise, stores the encoded checkPassword and clears the code, leaving expiry and enable. Keeps the invariant |
| RegisterLoginService.SetPassword | cargo/src/main/java/com/hilgo/cargo/service/RegisterLoginService.java:209-225 | The setters and save leave the result and state of SetPasswordStep |
| SecurityConfiguration.Matches | cargo/src/main/java/com/hilgo/cargo/config/SecurityConfiguration.java:32-44 | A pattern matches only paths that begin with its text; a literal matches exactly its path; a double-star pattern matches its base or continues it with "/", so /distributor/** does not match /distributorX; anyRequest() matches everything |
| SecurityConfiguration.FirstMatch | cargo/src/main/java/com/hilgo/cargo/config/SecurityConfiguration.java:30-45 | Returns the earliest rule whose patterns match the path; no rule before it matches; if none is returned, no rule matches |
| SecurityConfiguration.Decide | cargo/src/main/java/com/hilgo/cargo/config/SecurityConfiguration.java:30-45 | An anonymous caller is let through only on a path of the public rule that the password rule does not claim; a logged-in caller is refused only by the password, distributor or employee rule |
| SecurityConfiguration.DecideByRule | cargo/src/main/java/com/hilgo/cargo/config/SecurityConfiguration.java:30-45 | The decision is the requirement of the first matching rule, in declaration order; anyRequest() catches every remaining path and needs only a logged-in caller |
| SecurityConfiguration.PasswordRoutesNeedAccount | cargo/src/main/java/com/hilgo/cargo/config/SecurityConfiguration.java:31 | /auth/change, /auth/forgot and /auth/setPassword are allowed exactly for ROLE_DRIVER or ROLE_DISTRIBUTOR, not publicly |
| SecurityConfiguration.AuthRoutesArePublic | cargo/src/main/java/com/hilgo/cargo/config/SecurityConfiguration.java:32 | Every other path under /auth is allowed to anyone, anonymous callers included |
| SecurityConfiguration.DocumentationRoutesArePublic | cargo/src/main/java/com/hilgo/cargo/config/SecurityConfiguration.java:33-42 | Every documentation path the public rule lists is allowed to anyone: /v2/api-docs, /swagger-ui.html, /configuration/ui and /configuration/security exactly, and /v3/api-docs, /swagger-resources, /swagger-ui and /webjars together with everything below them |
| SecurityConfiguration.DistributorRoutesNeedDistributor | cargo/src/main/java/com/hilgo/cargo/config/SecurityConfiguration.java:43 | A path under /distributor is allowed exactly for ROLE_DISTRIBUTOR |
| SecurityConfiguration.EmployeeRoutesNeedEmployee | cargo/src/main/java/com/hilgo/cargo/config/SecurityConfiguration.java:44 | A path under /employee is allowed exactly for ROLE_EMPLOYEE |
| SecurityConfiguration.OtherRoutesNeedLogin | cargo/src/main/java/com/hilgo/cargo/config/SecurityConfiguration.java:45 | Every path outside /auth, the documentation paths, /distributor and /employee (such as /api/x, /cargo or /status) is allowed exactly for a logged-in caller of any role |
| SecurityConfiguration.DriverRoutesNeedLogin | cargo/src/main/java/com/hilgo/cargo/config/SecurityConfiguration.java:45 | The /driver paths have no rule of their own: any logged-in caller, a distributor included, passes the filter chain |
| SecurityConfiguration.AnonymousAccess | cargo/src/main/java/com/hilgo/cargo/config/SecurityConfiguration.java:30-45 | An anonymous caller is let through exactly on the /auth paths other than the three password routes and on the documentation paths |
| SecurityConfiguration.DistributorRoutesByRole | cargo/src/main/java/com/hilgo/cargo/config/SecurityConfiguration.java:43 | An account's authority opens the distributor's paths exactly when its role is DISTRIBUTOR, so a driver is refused |
| SecurityConfiguration.DistributorAuthority | cargo/src/main/java/com/hilgo/cargo/entity/User.java:90 | The authority string built from a role equals "ROLE_DISTRIBUTOR" exactly when the role is DISTRIBUTOR |
| SecurityConfiguration.AtMostOneRoleRule | cargo/src/main/java/com/hilgo/cargo/config/SecurityConfiguration.java:43-44 | No account passes both the distributor rule and the employee rule |
| Lifecycle.Apply | cargo/src/main/java/com/hilgo/cargo/service/DriverService.java:71-75 | Every service call, failed or not, keeps the store invariant |
| Lifecycle.Run | cargo/src/main/java/com/hilgo/cargo/service/DriverService.java:71-75 | Any sequence of service calls keeps the store invariant |
| Lifecycle.CargoFactsHoldAfterAnyRun | cargo/src/main/java/com/hilgo/cargo/service/DriverService.java:71-74 | Whatever calls have run from an empty store, accounts stay unique, and every cargo with a driver has a six-digit code and a taking time and is no longer CREATED |
| Lifecycle.DeliveredCargoCanBeRetaken | cargo/src/main/java/com/hilgo/cargo/service/DriverService.java:64-75 | A DELIVERED cargo is taken again by any driver: PICKED_UP, new driver, new code |
| Lifecycle.DeliveringTwiceLogsTwice | cargo/src/main/java/com/hilgo/cargo/service/DriverService.java:110-127 | After a successful delivery the same call succeeds again and the log holds two records for the cargo |
| Lifecycle.AnyUserCanEditCreatedCargo | cargo/src/main/java/com/hilgo/cargo/service/DistributorService.java:101-116 | Any registered user rewrites another distributor's CREATED cargo |
| Lifecycle.DeliveredCargoCanBeDeleted | cargo/src/main/java/com/hilgo/cargo/service/DistributorService.java:90-99 | Its distributor deletes a DELIVERED cargo while a log record still names it |
| Lifecycle.VerifyingTwiceFails | cargo/src/main/java/com/hilgo/cargo/service/RegisterLoginService.java:159-173 | After a successful verification the same call fails on the cleared expiry and changes nothing |
| Lifecycle.PasswordCodeActivatesAccount | cargo/src/main/java/com/hilgo/cargo/service/RegisterLoginService.java:181-193 | A forgotPassword code entered in verifyUser before the registration expiry enables the account |
| Lifecycle.SetPasswordBeforeVerifyLocksOut | cargo/src/main/java/com/hilgo/cargo/service/RegisterLoginService.java:209-225 | A password reset on an unverified account clears the code, so no verification can succeed until a new code is issued |
| Lifecycle.RegisterVerifyLogin | cargo/src/main/java/com/hilgo/cargo/service/RegisterLoginService.java:140-173 | A new account cannot log in. Its mailed code verifies it within two hours, and then its password logs it in. Later the code has expired |
| Lifecycle.AddTakeDeliver | cargo/src/main/java/com/hilgo/cargo/service/DriverService.java:101-128 | A new cargo, taken by a driver and delivered with the code it received, is DELIVERED with exactly one record naming its distributor, the driver, the cargo and the delivery time |

## Left out

- Mail composition and sending (`sendVerificationCode`, `sendVerificationEmail`): the HTML and the transport are not modelled. Only whether sending threw is a parameter.
- Password hashing: `passwordEncoder.encode` is the symbolic digest `Encoded(password)`. The authentication manager's comparison is equality with that digest.
- RegisterLoginService.Auth: the JWT returned with the login response is not modelled, and neither are `JwtService`, the JWT filter, the logout URL and its handler. They are foreign code.
- The clock and the random source: they are parameters, so the model says nothing about how codes are distributed or how fresh they are. A time is whole seconds.
- `deliverCargo` calls `now()` separately for `deliveredTime` and for the record's date. The model uses one `now` for both.
- `getMyCargoes`, `getAllCargoes` and pagination are not modelled. Neither are the controllers, the CORS configuration, the `tc` and `vkn` fields of the responses, or the floating-point coordinates and weights behind `Location` and `Measure`. Location, measure and address are opaque row references.
- JPA schema constraints are not modelled:
  - A generated schema may put unique constraints on the `@OneToOne` join columns of `ShipmentSent`, which would refuse a second record for the same cargo, driver or distributor.
  - The foreign key from the log to the cargo would refuse deleting a cargo that a record names.
  - `DeliveringTwiceLogsTwice` and `DeliveredCargoCanBeDeleted` describe the service code only.
- Transactions and concurrency: the model is sequential. The services have no `@Transactional`, so a failure after a save keeps that save. The model shows this only for `register`.
- The `Roles` enum is not part of this model. A role is its enum name. `register` compares `getRole().toString()` with `"DISTRIBUTOR"` by reference; this is modelled as name equality, which holds for an enum whose `toString` is the default.
- Route matching is ant-style only: a literal path, or a base followed by the double-star wildcard. Not modelled:
  - the trailing-slash and suffix variants that Spring MVC's matcher also accepts;
  - servlet-path handling;
  - the anonymous authority Spring gives unauthenticated callers, which is in none of the table's sets.
- Null request fields: every field of a request is modelled as present. A `register` whose role is null throws a NullPointerException at `getRole().toString()` (RegisterLoginService.java:60) before anything is written, and `updateCargo` with a null target location stores null (DistributorService.java:113); the model always builds the account and always stores the given target.
- `UserRepository`, `CargoRepository` and `ShipmentSendRepository` are not part of this model. Their derived queries are modelled from their names: `findByX` and `existsByX` as the lowest-id search `Store.Lookup`, and `findAllByDistributorId` as the ascending-id list `DistributorService.CargoesOf`.
