# Device management: the device store and its two command handlers

This project models the core of a small device-inventory service in Dafny. A device record
(`Device`) is keyed by its serial number, a Guid. It has four init-only fields (serial number,
model id, model name, manufacturer) and four settable ones (primary user, operating system,
device type, device status). The store (`DeviceRepository`) offers a lookup, an insert and an
update. The update copies the four settable fields onto the stored row. Two command handlers
sit on the store:

- insert refuses a serial number that is already stored;
- update refuses a body whose serial-number text differs from the route's Guid.

An exception filter turns the exceptions into HTTP responses.

Modules, one per source component:

- `Wrappers`: `Option` (C# `null`) and `Result` (a thrown exception).
- `Guids`: `System.Guid` as 32 hexadecimal digits, and its `ToString()` in the canonical
  lower-case 8-4-4-4-12 form.
- `Devices`: the entity and the `DeviceType` / `DeviceStatus` enumerations.
- `Exceptions`: the exceptions that reach the filter, and their messages.
- `Dtos`: the transfer record, and the two conversions passed to the handlers as function values.
- `Repository`: the table `map<Guid, Device>`. It holds the specification functions `Find`, `Add`
  and `Update`, and the class `DeviceRepository`, whose methods change its `devices` field
  exactly as those functions say.
- `InsertCommand`, `UpdateCommand`: each handler is a class that holds the repository. Its
  `Handle` method is proved equal to a pure step function (`HandleInsert`, `HandleUpdate`),
  and the lemmas are stated about that function.
- `ExceptionFilter`: the response switch `ResponseFor`, and `OnException` on an exception context.
- `DeviceController`: each endpoint's answer is the handler's result plus the filter's response.
- `Lifecycle`: any sequence of requests keeps every row's init-only fields.

The table invariant `KeyedBySerial` stores every row under its own serial number. It stands for
the primary key and the unique index on `SerialNumber`.

The model follows the code where the controller's own response declarations
(`ProducesResponseType(... Status404NotFound)`, DeviceManagament/Controllers/DeviceController.cs:30)
and the integration tests (DeviceManagementTests/ControllerTests/DeviceControllerUpdateTests.cs:74
and :110) expect otherwise:

- Updating an absent device throws `KeyNotFoundException`.
- A route/body mismatch throws `ArgumentException`.
- The filter has no case for either exception, so both are answered with 500. The tests
  expect 404 and 400.
- The route/body check compares text. A body that names the route's Guid in upper case, or in
  any form other than the canonical one, is rejected.
- A second insert of a stored serial number is refused by the handler's pre-check with 409.
  An `AddDevice` on a stored key fails at save time and overwrites nothing.
- The update silently ignores the init-only fields of the request. It does not reject them.
- `SerialNumber` is a `Guid` key with no value-generation setting. By EF Core's key convention,
  `Devices.Add` replaces an all-zero serial number (`Guid.Empty`) with a Guid generated on the
  client. The generated Guid is a parameter of `Add`, of the insert handler and of the POST
  endpoint. A body whose serial number is `Guid.Empty` is therefore stored under a new key
  each time and never conflicts with an earlier such body.

## Model

| member | source | states |
|---|---|---|
| `Guids.Hex` | DeviceManagament/Commands/UpdateDeviceCommand.cs:15 | the hexadecimal rendering has one digit character per nibble, in order |
| `Guids.GuidTextShape` | DeviceManagament/Commands/UpdateDeviceCommand.cs:15 | `ToString()` of a Guid is 36 characters with hyphens exactly at 8, 13, 18, 23, and each digit at a fixed index |
| `Guids.GuidTextInjective` | DeviceManagament/Commands/UpdateDeviceCommand.cs:15 | two Guids with the same text are equal, so the text comparison is a Guid comparison on canonical input |
| `Guids.GuidTextIsLowerCase` | DeviceManagament/Commands/UpdateDeviceCommand.cs:15 | `ToString()` contains no upper-case letter |
| `Guids.UpperCaseTextDiffers` | DeviceManagament/Commands/UpdateDeviceCommand.cs:15 | the upper-case spelling of a Guid with a letter digit is a different string from its `ToString()` |
| `Guids.GuidText` | DeviceManagament/Commands/UpdateDeviceCommand.cs:15 | `Guid.ToString()` is 36 characters with hyphens at 8, 13, 18 and 23 |
| `Devices.DeviceTypeValue` | DeviceManagament/Domain/Models/Device.cs:19-23 | members are numbered in declaration order: Laptop is 0, Desktop is 1, and no value reaches 2 |
| `Devices.DeviceStatusValue` | DeviceManagament/Domain/Models/Device.cs:25-30 | members are numbered in declaration order: Active is 0, Inactive is 1, Retired is 2, and no value reaches 3 |
| `Devices.DeviceTypeHasTwoMembers` | DeviceManagament/Domain/Models/Device.cs:19-23 | value 0 is Laptop and 1 is Desktop; the values are a bijection onto {0, 1}, so there are exactly these two members |
| `Devices.DeviceStatusHasThreeMembers` | DeviceManagament/Domain/Models/Device.cs:25-30 | values 0, 1, 2 are Active, Inactive, Retired; the values are a bijection onto {0, 1, 2}, so there are exactly these three members |
| `Exceptions.Message` | DeviceManagament/Exceptions/DeviceAlreadyExistsException.cs:3-4 | the DeviceAlreadyExists message is exactly "Device with Serial Number " + serial text + " already exists."; the KeyNotFound message of DeviceRepository.cs:37 is exactly "Device with serial number " + the serial's canonical text + " not found." |
| `Dtos.MapToDto` | DeviceManagament/Commands/InsertDeviceCommand.cs:27-28 | a returned device becomes `Success(ToDeviceDto(device))`; an exception passes through unchanged |
| `Repository.KeyedBySerial` | DeviceManagament/Database/DeviceManagerDBContext.cs:19-21 | the primary key and unique index: each row is stored under its own serial number, so no two rows share one |
| `Repository.StoredKey` | DeviceManagament/Repositories/DeviceRepository.cs:18 | `AddAsync` keeps a non-empty serial number and never yields `Guid.Empty` when the generator does not |
| `Repository.Stored` | DeviceManagament/Repositories/DeviceRepository.cs:18 | the tracked device is the argument with only its key set: model id, model name, manufacturer and the four settable fields are kept, and a non-empty serial leaves it unchanged |
| `Repository.Find` | DeviceManagament/Repositories/DeviceRepository.cs:23-27 | on a keyed table, finds a row iff some row has the argument's serial number, and then that row; other fields play no part |
| `Repository.Add` | DeviceManagament/Repositories/DeviceRepository.cs:16-21 | the device is keyed by its serial number, or by the generated Guid when that is `Guid.Empty`; a fresh key adds exactly that row and returns the device with its key, and `Find` then finds it; a stored key fails with a duplicate-key error and leaves the table unchanged; no existing row is overwritten; the key invariant is kept |
| `Repository.Update` | DeviceManagament/Repositories/DeviceRepository.cs:29-47 | an absent serial throws `KeyNotFound` and leaves the table unchanged; otherwise the stored row takes the argument's four settable fields, keeps its init-only fields, and is returned; no other row changes; keys and the key invariant are kept |
| `Repository.AddThenFind` | DeviceManagament/Repositories/DeviceRepository.cs:16-21 | after adding a fresh non-empty serial, the lookup returns the added device unchanged |
| `Repository.AddDuplicateKeepsRow` | DeviceManagament/Repositories/DeviceRepository.cs:18-19 | adding a stored non-empty serial fails at save, and the lookup still returns the original row |
| `Repository.AddEmptySerialUsesGeneratedKey` | DeviceManagament/Repositories/DeviceRepository.cs:18-20 | a `Guid.Empty` serial is stored and returned under a fresh generated key, and no `Guid.Empty` row appears |
| `Repository.UpdateChangesOnlySettableFields` | DeviceManagament/Repositories/DeviceRepository.cs:40-46 | the updated row has the argument's settable fields and the stored init-only fields; it equals the argument iff their init-only fields agree |
| `Repository.UpdateIdempotent` | DeviceManagament/Repositories/DeviceRepository.cs:40-45 | a second identical update returns the same row and leaves the same table |
| `Repository.DeviceRepository.constructor` | DeviceManagament/Repositories/DeviceRepository.cs:14 | the repository starts on a keyed table |
| `Repository.DeviceRepository.GetDevice` | DeviceManagament/Repositories/DeviceRepository.cs:23-27 | returns `Find` of the table: a stored row with the argument's serial number, or null |
| `Repository.DeviceRepository.AddDevice` | DeviceManagament/Repositories/DeviceRepository.cs:16-21 | the returned value and the new table are those of `Add`; the key invariant is kept |
| `Repository.DeviceRepository.UpdateDevice` | DeviceManagament/Repositories/DeviceRepository.cs:29-47 | assigns the four fields one at a time; the returned value and the new table are those of `Update` |
| `InsertCommand.HandleInsert` | DeviceManagament/Commands/InsertDeviceCommand.cs:16-29 | a conversion failure is thrown before the store is touched; a stored serial throws `DeviceAlreadyExists` with the stored serial's text; a fresh non-empty serial gives the old table plus the device and returns its DTO; a fresh `Guid.Empty` serial gives the old table plus the device under a fresh generated key, and fails at save with a duplicate-key error when the generated key is already stored; every failure leaves the table unchanged |
| `InsertCommand.InsertDuplicateRejected` | DeviceManagament/Commands/InsertDeviceCommand.cs:19-24 | on a keyed table, a stored serial is refused with the request's own serial text, and the table is unchanged |
| `InsertCommand.DuplicateDecidedBySerialAlone` | DeviceManagament/Commands/InsertDeviceCommand.cs:19-20 | two requests with the same serial number get the same answer from a table holding it, however their other fields differ |
| `InsertCommand.EmptySerialInsertsUnderGeneratedKey` | DeviceManagament/Commands/InsertDeviceCommand.cs:19-28 | on a table without a `Guid.Empty` row, a `Guid.Empty` body passes the pre-check, is stored under the generated key and returned with it, and the table still has no `Guid.Empty` row |
| `InsertCommand.InsertDeviceCommandHandler.constructor` | DeviceManagament/Commands/InsertDeviceCommand.cs:12-14 | the handler holds the given repository and conversions |
| `InsertCommand.InsertDeviceCommandHandler.Handle` | DeviceManagament/Commands/InsertDeviceCommand.cs:16-29 | the result and the repository's new table are those of `HandleInsert` |
| `UpdateCommand.RouteMatchesBody` | DeviceManagament/Commands/UpdateDeviceCommand.cs:15 | a matching body serial is 36 characters long and has no upper-case letter |
| `UpdateCommand.HandleUpdate` | DeviceManagament/Commands/UpdateDeviceCommand.cs:12-22 | a conversion failure wins over a mismatch; a mismatch throws `ArgumentException` and leaves the table unchanged; on a match, an absent serial throws `KeyNotFound`, and otherwise the result is the DTO of the row `Update` stored; keys and the key invariant are kept |
| `UpdateCommand.CanonicalBodyMatchesOnlyItsGuid` | DeviceManagament/Commands/UpdateDeviceCommand.cs:15 | when the body holds some Guid's canonical text, the mismatch is raised iff that Guid is not the route's |
| `UpdateCommand.UpperCaseBodyIsMismatch` | DeviceManagament/Commands/UpdateDeviceCommand.cs:15-18 | a body serial containing an upper-case letter is always a mismatch, and the table is unchanged |
| `UpdateCommand.UpperCaseRouteGuidIsMismatch` | DeviceManagament/Commands/UpdateDeviceCommand.cs:15-18 | the route's own Guid written in upper case is refused when it has a letter digit |
| `UpdateCommand.HandleUpdateIdempotent` | DeviceManagament/Commands/UpdateDeviceCommand.cs:20 | handling the same update request twice leaves the same table as handling it once |
| `UpdateCommand.UpdateDeviceCommandHandler.constructor` | DeviceManagament/Commands/UpdateDeviceCommand.cs:10 | the handler holds the given repository and conversions |
| `UpdateCommand.UpdateDeviceCommandHandler.Handle` | DeviceManagament/Commands/UpdateDeviceCommand.cs:12-22 | the result and the repository's new table are those of `HandleUpdate` |
| `ExceptionFilter.ResponseFor` | DeviceManagament/Exceptions/ExceptionFilter.cs:17-27 | the status is always 409 or 500; it is 409 iff the exception is `DeviceAlreadyExists`, with its message as the body; otherwise the body is the fixed unexpected-error text |
| `ExceptionFilter.UnexpectedResponseIsUniform` | DeviceManagament/Exceptions/ExceptionFilter.cs:23-26 | every exception other than `DeviceAlreadyExists` gets the same 500 response, so nothing of the exception leaks |
| `ExceptionFilter.ConflictBodyNamesSerial` | DeviceManagament/Exceptions/ExceptionFilter.cs:19-22 | the 409 body holds the serial text verbatim after the fixed prefix |
| `ExceptionFilter.ExceptionContext.constructor` | DeviceManagament/Exceptions/ExceptionFilter.cs:15-17 | a context holds its exception, has no result yet and is not yet marked handled |
| `ExceptionFilter.OnException` | DeviceManagament/Exceptions/ExceptionFilter.cs:15-32 | the context's result is set to `ResponseFor` of its exception, and the exception is marked handled |
| `DeviceController.Respond` | DeviceManagament/Controllers/DeviceController.cs:21-35 | success answers the endpoint's code with the DTO; an exception answers the filter's status with the filter's error text as the body |
| `DeviceController.InsertDevice` | DeviceManagament/Controllers/DeviceController.cs:21-25 | POST answers 201 exactly when the insert handler returns a DTO, with that DTO as the body, and leaves the handler's table |
| `DeviceController.UpdateDevice` | DeviceManagament/Controllers/DeviceController.cs:31-35 | PATCH answers 200 exactly when the update handler returns a DTO, with that DTO as the body, and leaves the handler's table |
| `DeviceController.InsertStatusCodes` | DeviceManagament/Controllers/DeviceController.cs:21-25 | POST answers only 201, 409 or 500, and changes the table only when it answers 201 |
| `DeviceController.InsertDuplicateAnswersConflict` | DeviceManagament/Commands/InsertDeviceCommand.cs:19-24 | inserting a stored serial answers 409, names the serial in the body, and leaves the table unchanged |
| `DeviceController.UpdateMissingDeviceAnswers500` | DeviceManagament/Repositories/DeviceRepository.cs:35-38 | updating an absent device answers 500 with the fixed text, not 404, and changes nothing |
| `DeviceController.UpdateMismatchAnswers500` | DeviceManagament/Commands/UpdateDeviceCommand.cs:15-18 | a route/body mismatch answers 500 with the fixed text, not 400, and changes nothing |
| `DeviceController.UpdateStatusCodes` | DeviceManagament/Controllers/DeviceController.cs:31-35 | PATCH answers only 200, 409 or 500, never 400 or 404, and changes the table only when it answers 200 |
| `Lifecycle.ApplyKeepsRows` | DeviceManagament/Domain/Models/Device.cs:8-11 | one insert or update request keeps every stored row and its init-only fields, and keeps the key invariant |
| `Lifecycle.RunKeepsRows` | DeviceManagament/Domain/Models/Device.cs:8-11 | over any sequence of requests, no row is removed, no init-only field changes, and the key invariant holds throughout |
| `Lifecycle.ApplyKeepsEmptyGuidOut` | DeviceManagament/Repositories/DeviceRepository.cs:18 | one request never adds a `Guid.Empty` row when the generator does not hand out `Guid.Empty` |
| `Lifecycle.RunKeepsEmptyGuidOut` | DeviceManagament/Repositories/DeviceRepository.cs:18 | over any sequence of requests, no row is ever stored under `Guid.Empty`, so `Guid.Empty` bodies never conflict with one another |

## Left out

- `DeviceDto.ToDevice()` and `Device.ToDeviceDto()` are not part of this model. They are passed
  to the handlers as function values. `ToDevice` may return any exception, and no round trip is
  claimed. Guid parsing and enum-name parsing are therefore not modelled.
- `Guid.ToString()` is modelled by its documented canonical format rather than by .NET's code.
  A Guid is its 32 digits in display order, not the runtime's mixed-endian byte layout.
- EF Core's Guid key generator is not modelled. Its output for each insert is a parameter, and
  the lemmas that need it assume it is not `Guid.Empty` (and, where stated, not already stored).
- `Exceptions.Message`: the `DbUpdateException` text for a duplicate key is EF Core's generic
  save-failure message. The provider's inner exception is not modelled.
- Async/await, `CancellationToken`, and the race between the insert pre-check and `AddDevice`
  are not modelled. Each request is handled to completion before the next one starts.
- Logging in the insert handler and the exception filter is not modelled. Neither is the
  filter's logger field.
- The `[EmailAddress]` annotation on `PrimaryUser` is not modelled. It is enforced, if at all,
  by framework validation outside these files.
- Model binding is not modelled. That covers the null-body and malformed-route answers, API
  versioning, routing, Swagger, startup, the database context factory and the EF schema
  configuration. The schema survives only as the invariant `KeyedBySerial`.
- Repository: the EF change tracker is not modelled. `UpdateDevice` writes a new value for
  the row, not a tracked object, so aliasing between a returned `Device` and the stored row is
  not captured.
- Calls to `AddDevice` are not recorded. That a rejected insert never calls it is stated only
  through its effect, an unchanged table.
