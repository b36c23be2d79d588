# Organisational hierarchy: first-managers resolver

A Dafny model of `hierarchy-demo`, a small Go program. The program answers
"who are the immediate managers of employee E?" over employees, positions and
attribute records. It has three parts:

- the records `Employee`, `Position` and `HierarchyAttributes`, and the typed
  accessor `GetAttribute` that reads a property from a record's
  heterogeneous property bag;
- the in-memory `Storage` with its four order-preserving listing operations,
  where a nil filter lists everything;
- the `PolicyManager`, which looks up the employee, then the employee's
  position, then the last position-kind attribute record owned by that
  position. It reads `managerPosition` from that record and lists the
  employees holding the named position. It fails with one of four
  classified errors when a lookup returns zero rows or more than one.

Files and modules:

- `wrappers.dfy` (`Wrappers`): `Option` for Go's `(value, ok)` and nil
  filters, and `Result` for `([]Employee, error)`.
- `seqs.dfy` (`Seqs`): `Filter`, the order-preserving filter that every
  storage loop computes, and its properties: membership, multiplicity,
  subsequence, empty, exactly one, at least two.
- `entities.dfy` (`Entities`): the records, the property-bag `Value`
  variant (`VString`, `VInt`, `VOther`) and `GetStringAttribute`.
- `sources.dfy` (`Sources`): the three source interfaces, each a record of
  total functions, and `PolicyManagerDependency`.
- `memory_storage.dfy` (`MemoryStorage`): `Storage`. Each `List*` method is a
  loop proved equal to a specification function. `AsDependency` plugs one
  storage in as all three sources, as the program's entry point does.
- `policy.dfy` (`Policy`): the error enum, the last-wins scan `LastMatch`,
  `PolicyManager.FirstManagers` (the answer as one expression) and the
  method `PolicyManager.GetFirstManagers`, which follows the Go code step by
  step and is proved to return `FirstManagers`.
- `storage_policy.dfy` (`StoragePolicy`): the outcome taxonomy stated in
  terms of storage contents. It says which stored rows lead to which error
  or answer.
- `scenarios.dfy` (`Scenarios`): the `NewStorage` fixture and the answers
  over it and over variants of it.

## Model

| member | source | states |
|---|---|---|
| `Entities.GetStringAttribute` | cmd/v1/main.go:45-55 | the result is `Some(v)` exactly when the key is present and holds the string `v`; an absent key and a non-string value both give `None` |
| `Entities.NonStringReadsAsAbsent` | cmd/v1/main.go:53-54 | a present value of another type reads exactly as if the key were removed, that is as `None` |
| `Entities.StoredStringReadsBack` | cmd/v1/main.go:48-54 | a string stored under a key is read back unchanged by the string accessor |
| `Seqs.Filter` | cmd/v1/main.go:128-134 | defines the listing an `append` loop builds: the elements passing the test, in storage order |
| `Seqs.FilterSnoc` | cmd/v1/main.go:129-133 | one loop iteration appends the element exactly when it passes the test |
| `Seqs.FilterMembership` | cmd/v1/main.go:128-134 | an element is in the listing exactly when it is stored and passes the test |
| `Seqs.FilterCount` | cmd/v1/main.go:128-134 | a passing element occurs in the listing as often as in storage, so duplicate ids give several rows; a failing one never occurs |
| `Seqs.FilterIsSubsequence` | cmd/v1/main.go:128-134 | the listing is a subsequence of storage, in storage order |
| `Seqs.FilterKeepsAll` | cmd/v1/main.go:128-134 | when every stored element passes, the listing is all of storage |
| `Seqs.FilterEmpty` | cmd/v1/main.go:128-134 | the listing is empty exactly when no stored element passes |
| `Seqs.FilterSingle` | cmd/v1/main.go:128-134 | the listing is exactly `[x]` when `x` is the only stored element that passes |
| `Seqs.FilterAtLeastTwo` | cmd/v1/main.go:128-134 | the listing has two or more rows exactly when two stored positions pass |
| `MemoryStorage.Storage.AttributesOfKind` | cmd/v1/main.go:109-121 | defines what `ListAttributes(t)` returns: all records for `""`, otherwise the records whose kind is `t` |
| `MemoryStorage.Storage.EmployeesWithIds` | cmd/v1/main.go:123-135 | defines what `ListEmployees(ids)` returns: all employees for nil, otherwise those whose id is listed |
| `MemoryStorage.Storage.EmployeesInPositions` | cmd/v1/main.go:137-149 | defines what `ListEmployeesByPosition(ids)` returns: all employees for nil, otherwise those whose position id is listed |
| `MemoryStorage.Storage.PositionsWithIds` | cmd/v1/main.go:151-164 | defines what `ListPositions(ids)` returns: all positions for nil, otherwise those whose id is listed |
| `MemoryStorage.Storage.AsDependency` | cmd/v1/main.go:10-14 | defines one storage serving as the employee, position and attribute source |
| `MemoryStorage.Storage.ListAttributes` | cmd/v1/main.go:109-121 | returns every record for the empty kind, otherwise the records of that kind in storage order |
| `MemoryStorage.Storage.ListEmployees` | cmd/v1/main.go:123-135 | returns every employee for the nil filter, otherwise the employees whose id is listed, in storage order |
| `MemoryStorage.Storage.ListEmployeesByPosition` | cmd/v1/main.go:137-149 | returns every employee for the nil filter, otherwise the employees whose position id is listed, in storage order |
| `MemoryStorage.Storage.ListPositions` | cmd/v1/main.go:151-164 | returns every position for the nil filter, otherwise the positions whose id is listed, in storage order |
| `Policy.LastMatch` | cmd/v1/main.go:214-220 | defines the record the scan leaves: the last one owned by the id, or the zero record |
| `Policy.PolicyManager.FirstManagers` | cmd/v1/main.go:195-228 | defines the answer as one expression over the sources: the two cardinality checks, the last-wins record, the `managerPosition` read and the by-position listing |
| `Policy.LastMatchIsLastOccurrence` | cmd/v1/main.go:214-220 | the scan's record is the last record owned by the position's id |
| `Policy.LastMatchAbsent` | cmd/v1/main.go:214-220 | when no record is owned by the id, the scan leaves the zero record |
| `Policy.PolicyManager.GetFirstManagers` | cmd/v1/main.go:195-228 | the step-by-step method, with its last-wins loop, returns exactly the answer `FirstManagers` defines |
| `Policy.EmployeeStepDecides` | cmd/v1/main.go:197-203 | zero employee rows give employee-not-found and several give invalid-employee-response, whatever the later sources hold |
| `Policy.PositionStepDecides` | cmd/v1/main.go:205-212 | with one employee row, zero position rows give position-not-found and several give invalid-position-response, whatever the attribute source and the by-position lookup hold |
| `Policy.SuccessIsByPositionLookup` | cmd/v1/main.go:195-228 | errors come only from a lookup that did not return exactly one row; a non-empty answer is the by-position listing for the `managerPosition` string of the last position-kind record owned by the employee's position |
| `StoragePolicy.LastMatchOfKind` | cmd/v1/main.go:215-220 | scanning the position-kind listing picks the last stored position-kind record owned by the id |
| `StoragePolicy.LastMatchOfKindAbsent` | cmd/v1/main.go:215-220 | with no position-kind record owned by the id, the scan leaves the zero record |
| `StoragePolicy.EmployeeNotFoundIff` | cmd/v1/main.go:197-203 | the answer is employee-not-found exactly when no stored employee has the id |
| `StoragePolicy.DuplicateEmployeeIff` | cmd/v1/main.go:197-198 | the answer is invalid-employee-response exactly when two stored employees share the id |
| `StoragePolicy.PositionOutcomesIff` | cmd/v1/main.go:205-212 | for a uniquely stored employee: position-not-found exactly when no position has its position id, invalid-position-response exactly when two do |
| `StoragePolicy.ResolvedThroughRecord` | cmd/v1/main.go:214-227 | past both cardinality checks the answer depends only on `managerPosition` in the last position-kind record of the position |
| `StoragePolicy.NoRecordMeansNoManagers` | cmd/v1/main.go:214-224 | a position with no position-kind record gives an empty answer, not an error |
| `StoragePolicy.UnusableManagerPositionMeansNoManagers` | cmd/v1/main.go:222-225 | an absent or non-string `managerPosition` gives an empty answer, not an error |
| `StoragePolicy.ManagersHoldManagerPosition` | cmd/v1/main.go:222-227 | with manager position `m` the answer is `ListEmployeesByPosition([m])`. It holds every stored holder of `m` and only those, in storage order and with their multiplicity. It is empty exactly when nobody holds `m` |
| `StoragePolicy.NilFilterListsEverything` | cmd/v1/main.go:109-164 | the nil filter (for ids, position ids and positions) and the empty kind list all of storage, and so does a filter naming every stored employee id |
| `StoragePolicy.KindFilterListsThatKind` | cmd/v1/main.go:109-121 | a non-empty kind lists exactly the records of that kind, with their multiplicity, in storage order |
| `StoragePolicy.IdFiltersListMatchingRows` | cmd/v1/main.go:123-164 | an id filter lists exactly the rows whose id (or position id) is listed, each as often as it is stored, in storage order; unknown ids add nothing |
| `Scenarios.NewStorage` | cmd/v1/main.go:63-107 | defines the seed: two attribute records, two positions, three employees |
| `Scenarios.SeedManagersOfEmployee2` | cmd/v1/main.go:63-107 | with the seed, the second unfiltered employee is "2", and its managers are employees "1" and "3" in that order |
| `Scenarios.SeedHoldersOfPosition1` | cmd/v1/main.go:89-105 | in the seed, employees "1" and "3" hold position "1", in that order |
| `Scenarios.SeedManagersOfEmployee1` | cmd/v1/main.go:63-107 | with the seed, employee "1" has no managers and no error: position "1" has no record |
| `Scenarios.SeedUnknownEmployee` | cmd/v1/main.go:197-203 | with the seed, id "99" gives employee-not-found |
| `Scenarios.SeedNonStringManagerPosition` | cmd/v1/main.go:222-225 | with `managerPosition` set to the integer 42, employee "2" has no managers and no error |
| `Scenarios.SeedOrphanManagerPosition` | cmd/v1/main.go:227 | with `managerPosition` naming position "99", which nobody holds, employee "2" has no managers and no error |
| `Scenarios.SeedDuplicateEmployee` | cmd/v1/main.go:197-198 | with a second stored employee "2", querying "2" gives invalid-employee-response |

## Left out

- `main` (cmd/v1/main.go:8-26) only wires the storage in as the three sources and prints. The wiring is `Storage.AsDependency`. Printing is I/O and is not modelled. The query it makes is the subject of `Scenarios.SeedManagersOfEmployee2`.
- `NewPolicyManager` (cmd/v1/main.go:189-193) only stores its argument. Here it is the datatype constructor `PolicyManager(d)`. The Go pointer is not modelled, since nothing ever mutates the manager.
- `GetAttribute` is generic over any target type `T` and uses a runtime type assertion. Only the `string` instance that the resolver uses is modelled, over the tagged `Value` variant. Every non-string dynamic type is `VInt` or `VOther`.
- Error values and the `fmt.Errorf` message texts are modelled as the enum `HierarchyError`.
- Go distinguishes a nil result slice (`return nil, nil`) from an empty one. Both are the empty sequence here.
- The sources in the code never return errors, take no context and do not run concurrently. So there are no source errors, no cancellation and no concurrency to model. No source can return an error, so there is no outcome that passes one through.
- Determinism and idempotence of the resolver hold trivially, because `FirstManagers` is a function of the source contents. No separate lemma states them.
- Display names, including the non-ASCII position names of the fixture, are carried as strings but play no part in any decision.
- The code checks "more than one row" before "no rows". The model keeps that order. It gives the same outcome as checking for no rows first.
