# Device manager core, modelled in Dafny

This project models the core of a small device-inventory service. It covers four parts:

- **The device aggregate.** A device has an id, an optional name, an optional brand, a state (available, in use or inactive) and a creation time. It can be renamed, rebranded, moved to another state and checked before deletion. Renaming, rebranding and deletion are refused while the device is in use. The refusal is a `DeviceInUseException` whose message names the refused operation.
- **The list query.** It filters by brand and/or state, orders newest first by creation time, and returns one page, with pages numbered from 1.
- **The create handler.** It builds a device from a command, stages it in the repository and commits it through the unit of work.
- **The device endpoints' request logic.** This is:
  - the two state-string tables;
  - the case-insensitive parse of a state string;
  - the 400 "Invalid state" problem for an unknown string;
  - the list endpoint's defaults (page 1, page size 50);
  - the paged response.

The source mutates the device in place and throws an exception. The model uses an immutable `Device` instead, and each guarded operation returns a `Result`. `Failure` stands for "the exception was thrown before any field was assigned". The store is a `map` from id to device. The list query works over the sequence of rows the store yields. The fresh `Guid` and the clock reading are parameters.

Modules:

- `Wrappers` (`Option`, `Result`, `Outcome`)
- `Exceptions` (the domain error and its message)
- `Devices` (the aggregate)
- `DevicesQueries` and `DevicesQueriesPaging` (the list query and its paging facts)
- `DevicesCommandHandler` (the create use case)
- `DeviceEndpoints` (request parsing and response shaping)

A created device is always available. The create handler calls `Device.Create(command.Name, command.Brand)` and never passes `command.State` on, so the stored device starts out available whatever state the request names. `DevicesCommandHandler.CreateIgnoresRequestedState` and `DeviceEndpoints.PostInUseStoresAvailable` state this.

## Model

| member | source | states |
|---|---|---|
| Devices.Create | src/DeviceManager.Domain/Entities/Device.cs:15-27 | the new device carries the given id, name, brand and state; its creation time is the supplied one when given and the clock reading otherwise |
| Devices.EnsureNotInUse | src/DeviceManager.Domain/Entities/Device.cs:52-56 | the guard fails exactly when the device is in use, and the error names the operation it was given |
| Devices.Rename | src/DeviceManager.Domain/Entities/Device.cs:29-33 | fails with the "rename" error iff the device is in use; otherwise only the name changes, and id and creation time are kept |
| Devices.Rebrand | src/DeviceManager.Domain/Entities/Device.cs:35-39 | fails with the "rebrand" error iff the device is in use; otherwise only the brand changes, and id and creation time are kept |
| Devices.ChangeState | src/DeviceManager.Domain/Entities/Device.cs:41-45 | never fails, from any state to any state; sets the state and leaves name, brand, id and creation time alone |
| Devices.EnsureCanBeDeleted | src/DeviceManager.Domain/Entities/Device.cs:47-50 | fails with the "delete" error iff the device is in use |
| Devices.Apply | src/DeviceManager.Domain/Entities/Device.cs:29-50 | one call on the aggregate fails iff the device is in use and the call is not a state change, and the error names that call's operation ("rename", "rebrand" or "delete"); a successful call changes only the field it targets (a deletion check changes nothing) and keeps id and creation time |
| Devices.ApplyAll | src/DeviceManager.Domain/Entities/Device.cs:9-13 | over any sequence of calls, id and creation time never change (they are init-only), and every error names one of the three guarded operations |
| Devices.ApplyAllConcat | src/DeviceManager.Domain/Entities/Device.cs:29-50 | running two call sequences one after the other is the same as running their concatenation, with the first error stopping everything |
| Devices.StateChangesNeverFail | src/DeviceManager.Domain/Entities/Device.cs:41-45 | any sequence of state changes succeeds whatever the states, keeps name and brand, and leaves the last requested state |
| Devices.InUseIsFrozen | src/DeviceManager.Domain/Entities/Device.cs:29-56 | with no state change among the calls, a device in use cannot be altered: any non-empty call sequence fails, with the first call's error |
| Devices.GuardReadsCurrentState | src/DeviceManager.Domain/Entities/Device.cs:52-56 | the guard looks at the state at call time: rename then "mark in use" succeeds, the reverse order fails with the rename error |
| Devices.CreatedDeviceIsUnguarded | src/DeviceManager.Domain/Entities/Device.cs:18 | a device created with the default state is available, so rename, rebrand and the deletion check all pass on it |
| Exceptions.Message | src/DeviceManager.Domain/Exceptions/DeviceInUseException.cs:3 | the message is "Cannot ", then the operation name, then " a device that is in use." |
| Exceptions.MessageRoundTrip | src/DeviceManager.Domain/Exceptions/DeviceInUseException.cs:3 | the operation name can always be read back out of the message |
| Exceptions.MessageInjective | src/DeviceManager.Domain/Exceptions/DeviceInUseException.cs:3 | two errors have the same message iff they name the same operation |
| Exceptions.RenameMessage | tests/DeviceManager.Domain.Tests/Entities/DeviceTests.cs:28-37 | a refused rename reports exactly "Cannot rename a device that is in use." |
| Exceptions.RebrandMessage | tests/DeviceManager.Domain.Tests/Entities/DeviceTests.cs:60-69 | a refused rebrand reports exactly "Cannot rebrand a device that is in use." |
| Exceptions.DeleteMessage | tests/DeviceManager.Domain.Tests/Entities/DeviceTests.cs:111-120 | a refused deletion reports exactly "Cannot delete a device that is in use." |
| DevicesQueries.Filter | src/DeviceManager.Infrastructure/Persistence/DevicesQueries.cs:19-23 | every row that matches both optional filters is kept, as many times as it occurs; no other row is kept |
| DevicesQueries.SortNewestFirst | src/DeviceManager.Infrastructure/Persistence/DevicesQueries.cs:26 | the result is a permutation of the input, with creation times non-increasing |
| DevicesQueries.Insert | src/DeviceManager.Infrastructure/Persistence/DevicesQueries.cs:26 | inserting into a newest-first list keeps it newest-first and adds exactly the one device |
| DevicesQueries.Skip | src/DeviceManager.Infrastructure/Persistence/DevicesQueries.cs:27 | drops the first n elements; a count at or below zero drops nothing, and one past the end drops everything |
| DevicesQueries.Take | src/DeviceManager.Infrastructure/Persistence/DevicesQueries.cs:28 | keeps the first n elements; a count at or below zero keeps nothing, and one past the end keeps everything |
| DevicesQueries.Page | src/DeviceManager.Infrastructure/Persistence/DevicesQueries.cs:27-28 | skip then take is the run of at most `take` elements that starts at the clamped skip position |
| DevicesQueries.GetAll | src/DeviceManager.Infrastructure/Persistence/DevicesQueries.cs:10-30 | every returned device is a stored row that matches the filters; the page is newest-first and holds at most pageSize devices |
| DevicesQueries.PageIsSubMultiset | src/DeviceManager.Infrastructure/Persistence/DevicesQueries.cs:27-28 | a page never holds a device more often than the ordered matches do |
| DevicesQueries.PageIsNewestFirst | src/DeviceManager.Infrastructure/Persistence/DevicesQueries.cs:26-28 | cutting a page out of a newest-first list keeps it newest-first |
| DevicesQueries.Wrap32 | src/DeviceManager.Infrastructure/Persistence/DevicesQueries.cs:11-12 | C#'s unchecked `int` arithmetic: the result is a 32-bit value congruent to the exact one, and equal to it when the exact one fits |
| DevicesQueries.SkipCountAsWritten | src/DeviceManager.Infrastructure/Persistence/DevicesQueries.cs:27 | `(page - 1) * pageSize` on 32-bit operands is always a 32-bit value congruent to the exact product modulo 2^32 (which fixes it uniquely), and so equals the exact product when that product fits |
| DevicesQueries.GetAllAsWritten | src/DeviceManager.Infrastructure/Persistence/DevicesQueries.cs:10-30 | even with a wrapped skip count, every returned device is a stored row matching the filters, the page is newest-first and holds at most pageSize devices; whenever the skip count fits in 32 bits it agrees with the exact query |
| DevicesQueries.SkipCountOverflowShowsFirstPage | src/DeviceManager.Infrastructure/Persistence/DevicesQueries.cs:27 | page 65537 with page size 65536 wraps the skip count to 0: the query as written returns the first row, while the exact query returns nothing |
| DevicesQueriesPaging.GetAllIsPageSlice | src/DeviceManager.Infrastructure/Persistence/DevicesQueries.cs:26-28 | for page >= 1, the page is exactly the elements of the newest-first matches from (page-1)*pageSize on, at most pageSize of them, with their number stated |
| DevicesQueriesPaging.FirstPageHoldsAllMatches | src/DeviceManager.Infrastructure/Persistence/DevicesQueries.cs:19-28 | when the page size covers all matches, page 1 holds every matching row, as often as it occurs, and nothing else |
| DevicesQueriesPaging.EveryMatchIsOnSomePage | src/DeviceManager.Infrastructure/Persistence/DevicesQueries.cs:26-28 | with a positive page size, every stored row that matches the filters appears on some page |
| DevicesCommandHandler.Add | src/DeviceManager.Application/DevicesCommandHandler.cs:12 | adding stages the device under its id, leaves the committed table alone and keeps the other staged entries |
| DevicesCommandHandler.SaveChanges | src/DeviceManager.Application/DevicesCommandHandler.cs:13 | saving commits every staged entry over the table, keeps the rest of the table and clears the staged set |
| DevicesCommandHandler.HandleCreate | src/DeviceManager.Application/DevicesCommandHandler.cs:9-15 | returns the fresh id; the table gains exactly that key and no existing entry changes; the stored device has the command's name and brand, is available and was created at the clock reading |
| DevicesCommandHandler.CreateAddsExactlyOne | src/DeviceManager.Application/DevicesCommandHandler.cs:11-14 | the table grows by one, and removing the returned id gives back the old table |
| DevicesCommandHandler.CreateIgnoresRequestedState | src/DeviceManager.Application/DevicesCommandHandler.cs:11 | the state in the command makes no difference to what is stored |
| DevicesCommandHandler.CreationTimeNotBeforeCall | tests/DeviceManager.Api.IntegrationTests/Endpoints/DevicesEndpointsTests.cs:24-46 | with a clock that never goes backwards, the creation time is on or after any earlier reading |
| DeviceEndpoints.Unmap | src/DeviceManager.Api/Extensions/WebApplicationExtensions.cs:24-29 | every state has a string, and that pair is an entry of the parse table |
| DeviceEndpoints.LowerChar | src/DeviceManager.Api/Extensions/WebApplicationExtensions.cs:42 | ASCII capitals become their lower-case letter; every other character is unchanged; no capital remains |
| DeviceEndpoints.ToLowerInvariant | src/DeviceManager.Api/Extensions/WebApplicationExtensions.cs:42 | same length as the input, with each character lowered |
| DeviceEndpoints.ToLowerInvariantIdempotent | src/DeviceManager.Api/Extensions/WebApplicationExtensions.cs:42 | lowering twice is the same as lowering once |
| DeviceEndpoints.Lookup | src/DeviceManager.Api/Extensions/WebApplicationExtensions.cs:42 | a value is found iff some entry has the key, and the value found is stored under that key |
| DeviceEndpoints.Parse | src/DeviceManager.Api/Extensions/WebApplicationExtensions.cs:42 | a string parses to a state iff its lower-cased form is that state's key in the table |
| DeviceEndpoints.ParseUnmap | src/DeviceManager.Api/Extensions/WebApplicationExtensions.cs:17-29 | the string of every state parses back to that state |
| DeviceEndpoints.UnmapParse | src/DeviceManager.Api/Extensions/WebApplicationExtensions.cs:17-29 | every key of the parse table parses, and its state prints back as that key |
| DeviceEndpoints.UnmapInjective | src/DeviceManager.Api/Extensions/WebApplicationExtensions.cs:24-29 | distinct states have distinct strings |
| DeviceEndpoints.Join | src/DeviceManager.Api/Extensions/WebApplicationExtensions.cs:46 | joining nothing gives the empty string, one item gives that item, and two or more start with the first item followed by the separator |
| DeviceEndpoints.JoinEndsWithLast | src/DeviceManager.Api/Extensions/WebApplicationExtensions.cs:46 | a join of at least one item ends with the last item |
| DeviceEndpoints.Keys | src/DeviceManager.Api/Extensions/WebApplicationExtensions.cs:46 | the table's keys in declaration order |
| DeviceEndpoints.InvalidState | src/DeviceManager.Api/Extensions/WebApplicationExtensions.cs:43-47 | the problem has title "Invalid state" and status 400 |
| DeviceEndpoints.JoinedStateKeys | src/DeviceManager.Api/Extensions/WebApplicationExtensions.cs:46 | the keys are listed as "available, in-use, inactive" |
| DeviceEndpoints.InvalidStateDetail | src/DeviceManager.Api/Extensions/WebApplicationExtensions.cs:46 | the detail quotes the input as given, not lowered, then lists the three keys |
| DeviceEndpoints.ParseStateParameter | src/DeviceManager.Api/Extensions/WebApplicationExtensions.cs:38-50 | no parameter gives no state; a known string in any ASCII casing gives its state; any other string gives the invalid-state problem quoting that string |
| DeviceEndpoints.PostDevice | src/DeviceManager.Api/Extensions/WebApplicationExtensions.cs:36-55 | creation is refused iff the state parameter is invalid, with that problem; otherwise the table gains exactly the fresh id, every existing entry is kept, and the new device carries the returned id, the request's name and brand, state available and the clock reading as creation time |
| DeviceEndpoints.MixedCaseParses | src/DeviceManager.Api/Extensions/WebApplicationExtensions.cs:42 | "In-Use" parses to the in-use state |
| DeviceEndpoints.PostInUseStoresAvailable | src/DeviceManager.Application/DevicesCommandHandler.cs:11 | a create request with state "In-Use" is accepted, yet the stored device is available |
| DeviceEndpoints.UnknownIsNotAState | src/DeviceManager.Api/Extensions/WebApplicationExtensions.cs:42 | every string whose lower-case form is "unknown" fails to parse |
| DeviceEndpoints.PostUnknownStateIsRejected | src/DeviceManager.Api/Extensions/WebApplicationExtensions.cs:40-47 | a create request with state "unknown" gets the 400 problem, whose detail quotes "unknown" and lists the valid keys; nothing is stored |
| DeviceEndpoints.ToUpdateCommand | src/DeviceManager.Api/Extensions/WebApplicationExtensions.cs:63-77 | the update command carries the id, name and brand unchanged and the parsed state; a state string that does not parse gives instead the 400 invalid-state problem quoting that string |
| DeviceEndpoints.ToGetDevicesQuery | src/DeviceManager.Api/Extensions/WebApplicationExtensions.cs:104-119 | a missing page is 1 and a missing page size is 50; given values and the brand pass through; the state is the parsed state string; a state string that does not parse gives instead the 400 invalid-state problem quoting that string |
| DeviceEndpoints.Summarize | src/DeviceManager.Api/Extensions/WebApplicationExtensions.cs:87-92 | the summary carries the device's fields, with the state as its exact key in the table, which parses back to the device's state |
| DeviceEndpoints.ToPagedResponse | src/DeviceManager.Api/Extensions/WebApplicationExtensions.cs:121-128 | one summary per device, in order, and a total count equal to the number of devices on the page |
| DeviceEndpoints.TotalCountCountsThePage | src/DeviceManager.Api/Extensions/WebApplicationExtensions.cs:128 | when more devices match than fit on page 1, the total count is the page size, not the number of matches |

## Left out

- HTTP hosting, routing, endpoint metadata, the exception-to-problem mapping, and the migration runner: framework plumbing with no logic of its own here.
- Entity Framework Core, the database and SQL translation. The store is a map. The list query runs over the sequence of rows the store yields, with LINQ-to-objects semantics.
- Asynchrony and cancellation tokens. Every operation is a single step.
- `Guid.NewGuid()` and `DateTimeOffset.UtcNow`. They are parameters. `HandleCreate` requires the fresh id to be absent from the table, so id collisions are not modelled.
- Storage of the state as an integer column, and the column types of the table.
- The update and delete command handlers, the `DeleteDeviceCommand` and the list query handler are not part of this model. `DeviceEndpoints.ToUpdateCommand` stops at the command the PUT endpoint builds. `DeviceEndpoints.ToGetDevicesQuery` stops at the query the GET endpoint builds. `DeviceEndpoints.TotalCountCountsThePage` assumes that handler returns `DevicesQueries.GetAll`'s page.
- The query handler for a single device (`GetByIdAsync`) is only modelled as far as the summary it is turned into.
- The `DeviceOperations` constants are not part of this model. The names "rename", "rebrand" and "delete" are the ones the messages in the domain tests show.
- DeviceEndpoints.ToLowerInvariant: lowers ASCII letters only. The invariant culture's full Unicode case mapping (for example of U+0130 or the Kelvin sign) is not modelled. No such character lowers to one of the three table keys, which are plain ASCII.
- DevicesQueries.Skip: a negative skip count is treated as LINQ to objects does (nothing skipped). A database provider may instead reject a negative offset, and that error path is not modelled.
- DevicesQueries.Take: a negative page size takes nothing, as LINQ to objects does. The source hands it to the database as a negative limit, and what the provider does with that is not modelled.
- DevicesQueriesPaging.EveryMatchIsOnSomePage: holds because the model sorts the same rows in the same order for every page request. The ordering clause has no tie-breaker for equal creation times, so separate page requests to the database may order tied rows differently, and a tied row at a page boundary could then appear on no page. The model does not capture that.
- DeviceEndpoints.Join: its contract pins the empty and single-item cases, the first item and separator at the head, and (through `DeviceEndpoints.JoinEndsWithLast`) the last item at the tail; it does not characterise the middle items. The one join in the program, of the three state keys, is pinned exactly by `DeviceEndpoints.JoinedStateKeys` and `DeviceEndpoints.InvalidStateDetail`.
- DevicesQueries.SortNewestFirst: the order among devices with equal creation times is one valid order. The contract only promises newest-first order and a permutation, which is all that the ordering clause promises.
- DevicesCommandHandler.CreateDeviceCommand: its state is declared as a non-nullable state in the source, while the endpoint passes a nullable one. It is modelled as an `Option`. The handler ignores it either way.
- Timestamps are integers on one time line. Offsets of `DateTimeOffset` are not modelled, because ordering and comparison use the instant.

## Findings

| source | as written | input that shows it | evidently intended | confidence | as-written member | corrected member |
|---|---|---|---|---|---|---|
| src/DeviceManager.Infrastructure/Persistence/DevicesQueries.cs:27 | the skip count `(page - 1) * pageSize` is computed in unchecked 32-bit `int` arithmetic | page 65537 with page size 65536: the exact skip 2^32 wraps to 0, so a one-row table returns its row, where that page should be empty | skip exactly (page - 1) * pageSize rows, so that a page past the end is empty | medium, not executed | DevicesQueries.SkipCountOverflowShowsFirstPage | DevicesQueriesPaging.GetAllIsPageSlice |
