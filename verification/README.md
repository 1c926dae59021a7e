# tetration-vc: a Dafny model of the inventory export logic

`tetration-vc` reads the virtual machines of one vCenter datacenter and
uploads them to Tetration as CSV rows `IP,VRF,VM Name,VM Tags`. It works in
two modes. A one-shot snapshot sorts the machines by name and uploads one
row for every machine that has guest info. An optional subscription mode
turns rename and custom-field-change events into rows, and a goroutine
batches them and uploads the batch on a timer. This project models the
sequential logic inside that plumbing, all of it in `main.go`:

- `inventory.dfy` (module `Inventory`): field definitions, custom values,
  virtual machines, rows and the header row.
- `tags.dfy` (module `Tags`): the field-id to name map, and the tag string
  of `name=value;` pairs.
- `byname.dfy` (module `ByName`): Go's string order, `ByName.Len`/`Less`/`Swap`,
  and the in-place `sort.Sort`.
- `rows.dfy` (module `RowBuilder`): the four-column row of a machine and the
  rows of a list of machines.
- `snapshot.dfy` (module `Snapshot`): the snapshot loop and payload.
- `events.dfy` (module `Events`): the event handler.
- `exporter.dfy` (module `Exporter`): the batching goroutine. `Run` is a pure
  specification of the goroutine's state after a sequence of signals.
  `BatchExporter` is the same state updated in place, with a ghost log of
  uploaded payloads; its `Valid()` ties it to `Run`.
- `pipeline.dfy` (module `Pipeline`): the channel hand-off from the handler
  to the goroutine.

The model follows the code where the code differs from what a design might
expect:

- Rows are not dropped for an empty address. The guard
  `&vm.Guest.IpAddress != nil` (main.go:157, 210) takes the address of a
  field, so it is never nil. The only filter is `vm.Guest != nil`
  (`Snapshot.GuestInfoIsTheOnlyFilter`).
- A custom value whose field id has no definition is not skipped. The map
  lookup gives Go's zero value `""`, so the pair is emitted with an empty
  name (`Tags.UnknownFieldHasEmptyName`).
- When several field definitions share a key, the last one's name wins
  (`Tags.LaterDefinitionWins`). Two custom values that resolve to the same
  name are both emitted.
- The tag string depends on the order of the custom values as vCenter returns
  them (`Tags.TagStringDependsOnOrder`).
- `sort.Sort` is not stable, so the order of machines with equal names is not
  fixed.
- After a flush, the batch is reset whether or not the upload succeeded.
  `h4.Upload`'s response is only printed (main.go:246-250), so there is no
  retry and no retained batch.
- A machine that `pc.RetrieveOne` cannot fetch gives no row. The error is
  ignored, and the zero-valued machine it leaves has no guest info
  (`Events.UnretrievableMachineGivesNoRow`).
- A custom-field-change or rename event that names no virtual machine, such
  as a custom-field change on a host or datastore of the datacenter, has a
  nil `Vm`. `event.GetEvent().Vm.Vm.Reference()` (main.go:206) then panics.
  The rest of the batch is not handled, and since the handler runs on the
  main goroutine the process ends, so the rows pending in the batch body are
  never uploaded (`Events.HandleEvent`, `Events.PanicEndsTheBatch`,
  `Pipeline.PanicLeavesRowsPending`).

## Model

| member | source | states |
|---|---|---|
| `Tags.BuildFieldMap` | main.go:140-143 | the map holds exactly the defined keys, and each key maps to the name of its last definition |
| `Tags.FieldMapExtend` | main.go:141-142 | one more loop iteration turns the map of the definitions so far into the map of the longer list |
| `Tags.FieldMapIsUnique` | main.go:140-143 | that description fixes the map: any two maps that meet it are equal |
| `Tags.LaterDefinitionWins` | main.go:140-143 | the last definition of a key wins: with an earlier definition of the same key at the front of the list and another at the end, the map holds the one at the end |
| `Tags.TagStringTerminated` | main.go:160-173 | the tag string is empty exactly when there are no custom values; otherwise its last character is `;` |
| `Tags.FormatTags` | main.go:160-173 | the buffer loop produces the tag string of the custom values |
| `Tags.TagStringAppend` | main.go:164-173 | the tag string of a concatenation is the concatenation of the tag strings |
| `Tags.TagStringCons` | main.go:164-173 | read from the front, the tag string is the first value's `name=value;` followed by the rest's, in order |
| `Tags.UnknownFieldHasEmptyName` | main.go:167-172 | a value whose field id is not in the map is still emitted, as `=value;` with an empty name |
| `Tags.TagStringDependsOnOrder` | main.go:164-173 | the same two values in the opposite order give a different tag string |
| `ByName.NameLessIrreflexive` | main.go:58 | no name is less than itself |
| `ByName.NameLessTransitive` | main.go:58 | the name order is transitive |
| `ByName.NameLessTotal` | main.go:58 | any two names are equal or ordered one way or the other |
| `ByName.Swap` | main.go:57 | the two machines are exchanged, all others are unchanged, and the contents are a permutation of the old ones |
| `ByName.LeastFrom` | main.go:154 | the returned position holds a machine that no later machine is `Less` than |
| `ByName.SelectionStep` | main.go:154 | swapping that least machine forward extends the sorted, partitioned prefix by one |
| `ByName.SortByName` | main.go:154 | after sorting in place, no machine is `Less` than an earlier one, and the array is a permutation of the input |
| `RowBuilder.Rows` | main.go:175 | every data row has the header's four columns and `"Default"` in the second |
| `RowBuilder.WithGuest` | main.go:157 | the filtered list holds exactly the machines that have guest info |
| `RowBuilder.RowsOfGuests` | main.go:155-178 | there is exactly one row per machine with guest info, in list order: row i is the row of the i-th such machine |
| `RowBuilder.RowsAppend` | main.go:155-178 | the rows of two lists in sequence are the rows of the first list followed by those of the second |
| `RowBuilder.RowsComeFromGuests` | main.go:157-175 | every data row is the row of some machine in the list that has guest info |
| `Snapshot.BuildPayload` | main.go:148-178 | the payload is the header row followed by the rows of the machines in list order |
| `Snapshot.TakeSnapshot` | main.go:140-178 | the field map is built, the machines are sorted in place and are a permutation of the input, and the payload is the header plus their rows |
| `Snapshot.WithGuestKeepsOrder` | main.go:154-157 | dropping machines without guest info keeps name order |
| `Snapshot.SnapshotRowsInNameOrder` | main.go:154-178 | after the sort, the `VM Name` column of the snapshot rows never decreases |
| `Snapshot.GuestInfoIsTheOnlyFilter` | main.go:157-175 | a machine without guest info gives no row, but one with an empty address does |
| `Events.EligibleMachines` | main.go:203-208 | at most one machine is retrieved per event, and every machine listed is the one retrieved for some rename or custom-field-change event that names it |
| `Events.PanicIndex` | main.go:203-206 | the position of the first rename or custom-field-change event that names no machine, or the batch length if there is none |
| `Events.PanicEndsTheBatch` | main.go:203-206 | events after the first panicking one are never handled |
| `Events.HandleEvent` | main.go:202-231 | the handler panics exactly when some rename or custom-field-change event names no machine; until then it sends the rows of the eligible events, in delivery order |
| `Events.EventRowsAreMachineRows` | main.go:203-228 | the handler's rows are exactly the rows of the machines retrieved for rename and custom-field-change events, in delivery order |
| `Events.EventRowsAppend` | main.go:203-228 | two batches handled in sequence give the first batch's rows, then the second's |
| `Events.IneligibleEventsGiveNoRows` | main.go:204-205 | a batch with no rename or custom-field-change event gives no rows |
| `Events.UnretrievableMachineGivesNoRow` | main.go:206-210 | an eligible event whose machine cannot be retrieved gives no row |
| `Exporter.RunAccountsForEveryRow` | main.go:233-254 | the body starts with the header, and `written` holds exactly when it has a data row; every payload is the header plus at least one row; payload rows followed by pending rows are exactly the arrivals, in order |
| `Exporter.IdleTickChangesNothing` | main.go:242-243 | a tick while `written` is false uploads nothing and changes nothing |
| `Exporter.FlushUploadsPendingRows` | main.go:242-251 | a tick while `written` is true uploads the header plus exactly the rows since the last upload, in order, then resets the body to the header and clears `written` |
| `Exporter.UploadsOnlyGrow` | main.go:242-251 | later signals never change or extend a payload already uploaded |
| `Exporter.BatchExporter.constructor` | main.go:234-236 | the goroutine starts with the body equal to the header, `written` false and no uploads |
| `Exporter.BatchExporter.OnRow` | main.go:239-241 | a received row is appended to the body, `written` is set, and nothing is uploaded |
| `Exporter.BatchExporter.OnTick` | main.go:242-251 | with `written` set, the body is uploaded, reset to the header, and `written` is cleared; otherwise nothing changes |
| `Pipeline.Deliver` | main.go:225 | each row sent on the channel becomes one received row, in the order sent |
| `Pipeline.DeliverArrives` | main.go:225-241 | the rows the goroutine receives are exactly the rows sent, in order |
| `Pipeline.DeliverFromStart` | main.go:234-241 | from the start of the goroutine, received rows accumulate in the body after the header, and nothing is uploaded |
| `Pipeline.DeliverThenTick` | main.go:239-251 | rows received from the start, then a tick: one payload of the header and those rows, or no upload if there were none |
| `Pipeline.BatchThenTick` | main.go:225-251 | from the goroutine's start, a batch of events the handler gets through, then a tick, uploads one payload: the header plus exactly that batch's rows. If the batch gave no rows, nothing is uploaded |
| `Pipeline.PanicLeavesRowsPending` | main.go:202-241 | from the goroutine's start, when the handler panics on a batch, the rows sent before the panic are pending in the body and nothing has been uploaded |
| `Pipeline.TagChangeReachesNextFlush` | main.go:202-251 | a tag change on A at 10.0.0.1 (env=prod, tier=web) is flushed as `10.0.0.1,Default,A,env=prod;tier=web;`, and `written` is clear afterwards |

`ByName.NameLess` (Go's string `<`, main.go:58), `ByName.SortedByName`,
`ByName.Len`, `ByName.Less`, `Tags.LastDefinition`, `Tags.IsFieldMap`,
`Tags.LastIndex`, `Exporter.Consistent`, `Exporter.DataRows`,
`Events.Eligible` (the type switch at main.go:204-205), `Events.Panics`,
`Tags.FieldName`, `Tags.Pair`, `Tags.PairText`, `Tags.TagString`,
`RowBuilder.GuestRow`, `RowBuilder.RowsOf`, `Events.Retrieve`,
`Events.EventRows`, `Exporter.Step`, `Exporter.Run`, `Exporter.Arrivals` and
`Exporter.Delivered` are the specification functions that the members above
are stated in terms of.

## Left out

- The vCenter connection: `GetURL`, the login, the finder, `VirtualMachineList`,
  the property collector's `Retrieve` and the custom-field manager
  (main.go:48-52, 93-139). The retrieved machines and field definitions are
  parameters. `pc.RetrieveOne` is a lookup in an inventory map.
- The Tetration client `h4.Upload` (main.go:185-192, 246). It is foreign
  code. An upload is recorded as its payload in a ghost log. Its response and
  its boolean arguments are not modelled. The snapshot's upload is not
  modelled: `Snapshot.TakeSnapshot` returns the payload it would send.
- The event subscription `eventManager.Events`, the goroutine and the `rows`
  channel with capacity 1 (main.go:201, 233, 257-263). Concurrency is
  abstracted to a sequence of row and tick signals. Blocking on a full
  channel is not modelled.
- The timer `time.After(EXPORT_INTERVAL)` (main.go:27, 242). A tick is an
  abstract signal. How long it takes to arrive, and the timer restart after
  every row, are wall-clock behaviour.
- Settings loading, command-line flags and console or tabwriter output
  (main.go:65-89, 151, 159-170, 194-199, 226).
- Reflection-based reading of a custom value (main.go:165-166, 215-216). A
  custom value is a plain `(key, value)` pair, and its value prints as a
  string.
- The CSV encoding and quoting of `encoding/csv` (main.go:147, 181, 245).
  Rows are sequences of string fields.
- `SortByName`: Go's own sorting algorithm is not modelled. It is stood in for
  by a selection sort that also uses only `Len`, `Less` and `Swap`; its steps
  are `ByName.LeastFrom` and `ByName.SelectionStep`. The
  contract is what `sort.Sort` promises: ordered by `Less`, and a permutation.
  The order among machines with equal names is not captured.
- `NameLess` compares characters, while Go compares UTF-8 bytes. For valid
  UTF-8 strings the two orders agree. Invalid UTF-8 is not modelled.
- The snapshot reuses one buffer and CSV writer for the snapshot and for the
  goroutine (main.go:146-148, 235-236). The model keeps the snapshot payload
  and the goroutine's body apart, as the goroutine resets the buffer before
  first use.
