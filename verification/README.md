# Verified model of NG Gateway

NG Gateway is an industrial gateway: drivers collect telemetry from devices, apps receive it, operators
configure channels, devices, points and actions, and write values back through the drivers. This project
models the parts of it with the most state, branching and interleaving, and proves what they keep over all
inputs, all runs and all interleavings.

| module | what it models |
|---|---|
| `Tree`, `StableSort` | building menu and organisation trees from flat rows with parent ids, cyclic ones included |
| `PathStore`, `FoldPrefixes`, `SortedFold` | the nested JSON store addressed by dotted paths, and the folding of flat `driver_config.*` and `device_driver_config.*` keys into it, in any order and in sorted order |
| `Schema`, `CellRules`, `RowValidator`, `Import` | flattening a driver's form schema into sheet columns, validating and normalising imported rows, and the two put together |
| `ColumnLetters` | spreadsheet column letters |
| `Values`, `ValueText`, `Doubles` | typed values: range-checked casts arm by arm, big-endian bytes, decimal and hexadecimal text, and the rounding of integers to doubles the range tests rest on |
| `WriteProtocol`, `WriteReplies`, `WriteDrivers` | the write pipeline: resolve, queue for the channel's permit, call the driver, reply; what a reply says about the run; and which driver a call ends in when devices change channels |
| `OutboundQueue` | the telemetry queue that is replaced while producers and forwarders run |
| `SemaphoreSwap`, `Retry`, `RetryHistory`, `CollectLoop`, `GroupCalls` | collection: bounded concurrency with a swappable limit, the retry loop with its budget, grouping of devices into driver calls |
| `Topology` | loading the channel, device, point and action tables at start-up |
| `PointIndex`, `PointPaths`, `PointMutations`, `PointCoherence`, `PointDevices` | the in-memory point index, who owns a path after a batch, the apply-then-revert mutations, and the invariant their runs keep, for one device and for all |
| `Compensation` | point and action commands over database and runtime, with compensation |
| `BuiltinSync` | reconciling the table of builtin drivers and plugins with the disk |
| `Collections`, `Filters`, `Lexicographic` | helpers: picking from a set, folding in any order; what a filtered list is; lexicographic order |

Protocols are step relations over a state, and their theorems speak of every reachable state of every run.
Code that updates objects or fills maps in loops is a class or a method with invariants, proved against a
specification function; the properties are lemmas about that function.

## What the code does not keep

These are proved, each with the exact condition or a family of inputs.

- A form schema that contains a union rejects every imported row: discriminators are looked up as flat keys
  after those keys have been folded away (`Import.UnionSchemaRejectsEverySheet`).
- Folded keys all read back exactly when the keys are consistent, and exactly then the order of visiting
  them does not matter (`FoldPrefixes.FoldReadsBackIff`, `FoldPrefixes.AnyOrderSameIff`). The JSON map visits
  keys in sorted order unless it is built to preserve insertion order, which no manifest of the repository asks
  for. In sorted order a key reads its own value with the longer keys under it written in, so it reads back
  when those agree with it, but not only then: a longer key can repair what a disagreeing one broke
  (`SortedFold.SortedReads`, `SortedFold.AgreeingReadsBack`, `SortedFold.DisagreementHealed`; for the row both
  passes leave `SortedFold.DriverKeyReads` and `SortedFold.DeviceKeyReads`).
- Validation does add paths inside an enum column whose key is an object, and only there
  (`RowValidator.EnumKeyAddsPath`, `RowValidator.RunAddsNothing`).
- Of two columns with the same key in different union cases, a later inapplicable one erases what an earlier
  applicable one accepted, and the row is still valid (`RowValidator.ErasedRowIsValid`; the exact condition is
  `RowValidator.PresentAtEndIff`).
- Root mode has no result at all for a root on a parent cycle; the recursion does not end
  (`Tree.CyclicRootHasNoForest`, `Tree.RootForestExistsIff`).
- A 64-bit cast of a float that rounds to one above the maximum saturates instead of failing
  (`Values.FloatCastExactIff`); decimal text of an integer just outside a 64-bit range, up to 1024 or 2048
  beyond the nearest power of two, is accepted as the bound by the same route (`Values.TextCastAgreesIff`).
- A write queues for the channel its point was indexed under, but calls the driver its device has by then. A
  device update may put the device on another channel, and replacing the device leaves the entries of its points
  as they are. So the comment that writes are serialised per channel holds of permits (`WriteProtocol.OneCallPerPermit`), and of a driver as
  long as every call into it was made under its own channel's permit (`WriteDrivers.HomeCallsNeverOverlap`). A
  call under another permit can be joined at any time, and only such a call can (`WriteDrivers.CanBeJoinedIff`,
  `WriteDrivers.MovedDeviceOverlaps`); the channel it calls need not have been connected in any state of the run
  (`WriteDrivers.WriteReachesDriver`).
- Without a limit on attempts the collect loop runs for ever exactly when from some iteration on every call
  fails in no time, is followed by a zero delay and is not cancelled (`Retry.NeverStopsIff`). As soon as calls
  or delays take time it ends (`Retry.TakingTimeStops`).
- An applied update in which a later point takes or frees the path an earlier one was given loses that path;
  a refused one loses the old path of an earlier point that a later one was to take
  (`PointPaths.BatchKeepsCompleteIff`, `PointMutations.ReplaceUndoneIff`). Exchanging the keys of two points
  does both (`PointIndex.ExchangeLosesAPath`, `PointMutations.RefusedExchangeLosesAPath`).
- An update may change a point's device. Applied, it leaves the point on the lists of both devices; refused, it
  deletes the point's entry while the old device still lists it (`PointMutations.RefusedMoveLosesEntry`). Beside
  clashes of paths this is the only way an update breaks the coherence of the devices
  (`PointDevices.UpdateKeepsAllIff`, `PointDevices.RefusedUpdateKeepsAllIff`).
- A refused removal brings the points back at the end of the device's list (`PointMutations.RemoveUndone`).
- The comments on the point commands say that database and runtime are compensated on any failure. The code
  puts back only the refused group and leaves groups it has not reached in the database only
  (`Compensation.DiffersIff`); an update that changes a row's device leaves the old device running the old
  row even on success (`Compensation.SuccessInStepIff`). For a refused update it hands the update a row none of
  whose columns is marked as set, unlike `ng-gateway-models/src/initializer.rs`, which sets each column. Whether
  that writes the old row is up to the mapping library, which is not part of this model: with a library that
  writes only set columns the refused update stays in the database, and then even a single-device batch leaves
  a difference unless it changed nothing (`Compensation.OneDeviceInStepIff`, for both cases).
- With a name doubled on disk or among the builtin rows, a sync cannot give one row per name
  (`BuiltinSync.OnlyUniqueNamesSync`).

## Model

| member | source | states |
|---|---|---|
| `StableSort.SortIsStable` | ng-gateway-utils/src/tree.rs:86-93 | sorting by key ascends and keeps, for every key, the input order of its elements |
| `StableSort.StableSortIsUnique` | ng-gateway-utils/src/tree.rs:86-93 | ascending order with the same order per key determines the result, so any stable sort gives it |
| `StableSort.SortCommutesWithMap` | ng-gateway-utils/src/tree.rs:86-93 | sorting ids by the key of their nodes is sorting the nodes |
| `Tree.ClimbIsBounded` | ng-gateway-utils/src/tree.rs:136-159 | a parent chain to an origin off every cycle visits distinct ids of the data, so it is no longer than the data |
| `Tree.OffCycleIsShallow` | ng-gateway-utils/src/tree.rs:136-159 | below an origin off every cycle the recursion has bounded depth, whatever cycles exist elsewhere |
| `Tree.CountFollowsParent` | ng-gateway-utils/src/tree.rs:136-159 | in any built forest a node occurs as often as it is a root plus as often as its parent occurs |
| `Tree.CountedDescends` | ng-gateway-utils/src/tree.rs:136-159 | every node that occurs in a built forest descends from the parent of one of its roots |
| `Tree.RootModeIsExactCover` | ng-gateway-utils/src/tree.rs:97-105 | root mode holds each proper descendant of the root exactly once, no other input node, and nothing that is not an input node |
| `Tree.CyclicRootHasNoForest` | ng-gateway-utils/src/tree.rs:97-105 | for a root on a parent cycle no forest satisfies the construction |
| `Tree.RootForestExistsIff` | ng-gateway-utils/src/tree.rs:97-105 | root mode has a result if and only if the root is not on a cycle |
| `Tree.ForestModeIsExactCover` | ng-gateway-utils/src/tree.rs:108-131 | forest mode holds each node whose parent chain leaves the data exactly once, no node on or below a cycle, and nothing that is not an input node |
| `Tree.AcyclicForestIsPermutation` | ng-gateway-utils/src/tree.rs:108-131 | without cycles forest mode is a permutation of the input |
| `Tree.FillMaps` | ng-gateway-utils/src/tree.rs:68-84 | the first pass yields the last node of each id, the children of every parent in input order, and the ids present |
| `Tree.NamedByIs` | ng-gateway-utils/src/tree.rs:68-84 | the nodes naming a parent are all of them, in input order |
| `Tree.ByIdIsLast` | ng-gateway-utils/src/tree.rs:68-84 | of several nodes with one id the last is kept |
| `Tree.SortChildren` | ng-gateway-utils/src/tree.rs:86-93 | in whatever order the map is visited, every child list becomes the stable sort of the nodes naming that parent |
| `Tree.TopLevelIds` | ng-gateway-utils/src/tree.rs:108-131 | the collected roots are exactly the ids whose parent is not in the data, each once |
| `Tree.BuildTree` | ng-gateway-utils/src/tree.rs:53-133 | for unique ids the result is the forest below the root, or the whole forest with ascending roots; every node has exactly its sorted children and `has_children` accordingly |
| `PathStore.GetInsert` | ng-gateway-sdk/src/ui_schema.rs:2487-2547 | what a read at any path sees after a write at any path: equal, below, above and apart |
| `PathStore.GetRemove` | ng-gateway-sdk/src/ui_schema.rs:2528-2567 | after a removal nothing is at or below the path, apart paths are untouched, and above it the value is the old one without the path |
| `PathStore.GetSplitsPath` | ng-gateway-sdk/src/ui_schema.rs:2528-2547 | reading a concatenated path is reading its tail in the map at its head |
| `PathStore.InsertPresent` | ng-gateway-sdk/src/ui_schema.rs:1763-1769 | writing the value that is there changes nothing, so skipping equal writes refines always writing |
| `PathStore.InsertOverwrites` | ng-gateway-sdk/src/ui_schema.rs:2487-2525 | a write absorbs every earlier write at or below its path |
| `PathStore.InsertsCommute` | ng-gateway-sdk/src/ui_schema.rs:2487-2525 | writes at incomparable paths commute, scalars in the way included |
| `PathStore.RemoveAbsent` | ng-gateway-sdk/src/ui_schema.rs:2550-2567 | removing a missing path changes nothing |
| `PathStore.RemovesCommute` | ng-gateway-sdk/src/ui_schema.rs:2550-2567 | removals at incomparable paths commute |
| `PathStore.InsertAfterRemove` | ng-gateway-sdk/src/ui_schema.rs:2487-2567 | a write makes an earlier removal at its path irrelevant |
| `PathStore.InsertRemoveCommute` | ng-gateway-sdk/src/ui_schema.rs:2487-2567 | a write and a removal at incomparable paths commute |
| `PathStore.JoinSplit` | ng-gateway-sdk/src/ui_schema.rs:2487-2500 | joining the dotted segments gives the path text back |
| `PathStore.SplitIsInjective` | ng-gateway-sdk/src/ui_schema.rs:2528-2547 | different path texts address different segment lists |
| `PathStore.SplitAtDot` | ng-gateway-sdk/src/ui_schema.rs:2487-2500 | a dot in the text separates segments exactly once |
| `PathStore.RowCell.EnsureChildMap` | ng-gateway-sdk/src/ui_schema.rs:2503-2525 | the step keeps a map child, replaces a missing or scalar one by an empty map, and changes nothing else |
| `PathStore.RowCell.InsertNested` | ng-gateway-sdk/src/ui_schema.rs:2487-2500 | the loop over segments performs exactly one nested write |
| `PathStore.RowCell.RemoveByPath` | ng-gateway-sdk/src/ui_schema.rs:2550-2567 | the loop removes exactly the path and returns what a read would have seen |
| `FoldPrefixes.NoSpecialKeyLeft` | ng-gateway-sdk/src/ui_schema.rs:2447-2484 | after folding no key has a special prefix |
| `FoldPrefixes.UnrelatedUntouched` | ng-gateway-sdk/src/ui_schema.rs:2447-2484 | every other key is untouched |
| `FoldPrefixes.NestedUntouched` | ng-gateway-sdk/src/ui_schema.rs:2447-2484 | nested paths under a root that no folded key is comparable to read as before |
| `FoldPrefixes.FoldReadsBackIff` | ng-gateway-sdk/src/ui_schema.rs:2447-2484 | every folded key reads back its value by dotted lookup if and only if comparable keys carry agreeing values |
| `FoldPrefixes.IncomparableIsConsistent` | ng-gateway-sdk/src/ui_schema.rs:2447-2484 | pairwise incomparable keys satisfy that condition |
| `FoldPrefixes.FoldAnyKeyOrder` | ng-gateway-sdk/src/ui_schema.rs:2447-2484 | for consistent keys the result is the same for every order of visiting the map |
| `FoldPrefixes.AnyOrderSameIff` | ng-gateway-sdk/src/ui_schema.rs:2447-2484 | all orders of any number of keys give the same row if and only if the keys are consistent |
| `SortedFold.AboveIsFirst` | ng-gateway-sdk/src/ui_schema.rs:2447-2460 | in sorted order a key comes before every longer key under it |
| `SortedFold.SortedReads` | ng-gateway-sdk/src/ui_schema.rs:2447-2484 | in sorted order a key reads its own value with the longer keys under it written in, whatever the others are |
| `SortedFold.SortedReadsBackIff` | ng-gateway-sdk/src/ui_schema.rs:2447-2484 | so it reads back if and only if writing those into its value changes nothing |
| `SortedFold.LongestReadsBack` | ng-gateway-sdk/src/ui_schema.rs:2447-2484 | a key with no longer key under it always reads back |
| `SortedFold.AgreeingReadsBack` | ng-gateway-sdk/src/ui_schema.rs:2447-2484 | a key reads back when every longer key under it agrees with it |
| `SortedFold.OneLevelReadsBackIff` | ng-gateway-sdk/src/ui_schema.rs:2447-2484 | if the keys under it are not under each other, it reads back if and only if they all agree with it |
| `SortedFold.DriverKeyReads` | ng-gateway-sdk/src/ui_schema.rs:2447-2484 | in the row both passes leave, a driver configuration key read by its dotted path gives its own value with the longer keys under it written in |
| `SortedFold.DeviceKeyReads` | ng-gateway-sdk/src/ui_schema.rs:2447-2484 | and so does a device configuration key, whose pass comes second |
| `SortedFold.AllUndisturbedIff` | ng-gateway-sdk/src/ui_schema.rs:2447-2484 | no key's value is changed by the keys under it if and only if all comparable keys agree |
| `SortedFold.DisagreementHealed` | ng-gateway-sdk/src/ui_schema.rs:2447-2484 | otherwise a key can read back although a key under it disagrees, for every choice of names and value |
| `FoldPrefixes.TakeOut` | ng-gateway-sdk/src/ui_schema.rs:2447-2484 | the first loop takes out each key with the prefix once, with its value, and leaves the rest |
| `FoldPrefixes.WriteIn` | ng-gateway-sdk/src/ui_schema.rs:2447-2484 | the second loop writes the taken entries at their remaining paths, in that order |
| `FoldPrefixes.FoldSpecialPrefixes` | ng-gateway-sdk/src/ui_schema.rs:2447-2484 | the code folds both roots, for some order of the keys; no special key is left, and all read back if and only if the keys are consistent |
| `CellRules.NormalizeTyped` | ng-gateway-sdk/src/ui_schema.rs:1347-1484 | a normalised value has the column's type, except that text of an infinity or NaN becomes null in a float column |
| `CellRules.RulesCheckedIff` | ng-gateway-sdk/src/ui_schema.rs:1486-1660 | the ordered checks find no error if and only if the value is within its bounds, lengths and pattern |
| `CellRules.RuleReportIff` | ng-gateway-sdk/src/ui_schema.rs:1486-1660 | a rule is reported if and only if it is broken and no broken one is checked before it: the pattern last, but first in a column for any type |
| `CellRules.NormalizeIff` | ng-gateway-sdk/src/ui_schema.rs:1347-1484 | a cell becomes a value if and only if it stands for it: the number or truth value its text spells up to case, an enum key itself, the first matching label, or else the first matching key; otherwise the type is wrong |
| `CellRules.RequiredIff` | ng-gateway-sdk/src/ui_schema.rs:1266-1288 | a column is required if and only if the last condition that holds and is about requiring says so, or none does and its rule says so |
| `CellRules.ReportsIff` | ng-gateway-sdk/src/ui_schema.rs:1237-1265 | which error a column reports: missing if and only if it applies, demands a value and sees none; wrong type, or a rule, by what its cell stands for |
| `CellRules.AcceptsIff` | ng-gateway-sdk/src/ui_schema.rs:1237-1265 | a column accepts a value if and only if it applies, sees a cell that stands for it, and it is within the rules |
| `CellRules.PassesIff` | ng-gateway-sdk/src/ui_schema.rs:1237-1265 | it has nothing to do if and only if it does not apply, or sees no cell and demands none |
| `RowValidator.RequiredReportedIff` | ng-gateway-sdk/src/ui_schema.rs:1303-1344 | a missing value is reported if and only if the column applies, its trimmed cell is absent and it is required |
| `RowValidator.RunGoesOn` | ng-gateway-sdk/src/ui_schema.rs:1750-1783 | each column, on the row the ones before it left, reports and leaves it, writes what its cell stands for, or clears its key |
| `RowValidator.ErrorIff` | ng-gateway-sdk/src/ui_schema.rs:1750-1783 | an error comes out if and only if a column with that key has to report it, given the row it sees |
| `RowValidator.RowErrorIff` | ng-gateway-sdk/src/ui_schema.rs:1723-1793 | a row has exactly the errors of its missing discriminators and of its columns |
| `RowValidator.EmittedHoldsDemanded` | ng-gateway-sdk/src/ui_schema.rs:1723-1793 | an emitted row holds a value at every column that applies and is required, if no later column has a comparable key |
| `RowValidator.RunLeavesApart` | ng-gateway-sdk/src/ui_schema.rs:1723-1793 | a path incomparable to every column reads as before the columns ran |
| `RowValidator.RunAddsNothing` | ng-gateway-sdk/src/ui_schema.rs:1723-1793 | no path is added, except inside an enum column's key that is an object holding that path |
| `RowValidator.EnumKeyAddsPath` | ng-gateway-sdk/src/ui_schema.rs:1435-1479 | there one really is: the label of such a key is replaced by the object |
| `RowValidator.ValidCellIsGood` | ng-gateway-sdk/src/ui_schema.rs:1237-1265 | when no column reports, a column key that no other column is comparable to holds what its own cell stands for, of its type and within its rules, or nothing, and that only if the column does not apply or has no cell and demands none |
| `RowValidator.PresentAtEndIff` | ng-gateway-sdk/src/ui_schema.rs:1723-1793 | in a run without errors the key of a column to which no later one is comparable is present at the end if and only if that column applies and sees a cell that is not blank, and a required one sees one |
| `RowValidator.InapplicableColumnErases` | ng-gateway-sdk/src/ui_schema.rs:1723-1793 | after a column whose gate does not apply, its key is absent at the end, whatever was written before and whatever errors occur, unless it is inside an object key of a later enum column |
| `RowValidator.ErasedRowIsValid` | ng-gateway-sdk/src/ui_schema.rs:1723-1793 | two columns with one key and different gates: the first keeps the cell, the second erases it, and the row is emitted as valid |
| `RowValidator.NothingMissingIff` | ng-gateway-sdk/src/ui_schema.rs:1723-1793 | the discriminator check passes if and only if every discriminator is a flat key of the row |
| `RowValidator.MissingReportedIff` | ng-gateway-sdk/src/ui_schema.rs:1738-1748 | each missing discriminator is reported under its own name, and no other |
| `RowValidator.ValidRowsComeFromInput` | ng-gateway-sdk/src/ui_schema.rs:1723-1793 | every emitted row is the run of one input row without errors, under that row's number |
| `RowValidator.CleanRowIsEmitted` | ng-gateway-sdk/src/ui_schema.rs:1723-1793 | and every input row without errors is emitted |
| `RowValidator.ValidRowsInOrder` | ng-gateway-sdk/src/ui_schema.rs:1723-1793 | emitted rows have strictly increasing numbers, so each is emitted once and in order |
| `RowValidator.EveryRowAccountedFor` | ng-gateway-sdk/src/ui_schema.rs:1723-1793 | each input row is either emitted or has an error with its number, never both |
| `RowValidator.ValidRowsAreGood` | ng-gateway-sdk/src/ui_schema.rs:1723-1793 | with pairwise incomparable column keys every cell of every emitted row is good |
| `RowValidator.CheckDiscriminators` | ng-gateway-sdk/src/ui_schema.rs:1723-1793 | the loop reports the missing discriminators, in order |
| `RowValidator.ApplyColumn` | ng-gateway-sdk/src/ui_schema.rs:1723-1793 | one column updates, removes or reports as specified |
| `RowValidator.NormalizeColumns` | ng-gateway-sdk/src/ui_schema.rs:1723-1793 | each column reads the row as the earlier ones left it |
| `RowValidator.ValidateAndNormalizeRows` | ng-gateway-sdk/src/ui_schema.rs:1723-1793 | the loop over rows returns exactly the valid rows and the errors, and no warning |
| `Schema.FlatIffShown` | ng-gateway-sdk/src/ui_schema.rs:165-240 | a column is in the output if and only if it is the column of a field or union of the tree, at its address, with its key and gate |
| `Schema.FieldColumnIff` | ng-gateway-sdk/src/ui_schema.rs:176-197 | the column of a field has its title, type, rules, conditions, gate and items, under the prefixed path |
| `Schema.UnionColumnIff` | ng-gateway-sdk/src/ui_schema.rs:209-224 | the column of a union is an unconditional text column under the prefixed discriminator |
| `Schema.ListInPreorder` | ng-gateway-sdk/src/ui_schema.rs:165-240 | columns come in strict preorder of their addresses, so each exactly once |
| `Schema.GateNamesInnermost` | ng-gateway-sdk/src/ui_schema.rs:165-240 | a field's gate names the innermost union around it, or is the inherited one when there is none |
| `Schema.GateComesAfterItsUnion` | ng-gateway-sdk/src/ui_schema.rs:165-240 | the column of that innermost union stands before the gated column |
| `Schema.Output.FlattenNodes` | ng-gateway-sdk/src/ui_schema.rs:165-240 | the recursive walk appends the columns and the union keys of the list, in order |
| `Schema.Output.FlattenCases` | ng-gateway-sdk/src/ui_schema.rs:165-240 | the same for the cases of a union, each gated by its discriminator and case value |
| `Import.BuildTemplate` | ng-gateway-sdk/src/ui_schema.rs:102-163 | for each entity the base columns come first, then the flattened parts of the schema under their prefixes |
| `Import.TemplateColumnIff` | ng-gateway-sdk/src/ui_schema.rs:102-163 | a template holds the base columns of its entity, first, and the columns its own schemas show under their prefixes, and no others |
| `Import.TemplateDiscriminatorIff` | ng-gateway-sdk/src/ui_schema.rs:102-163 | its discriminators are the keys of the unions of those schemas |
| `Import.DiscriminatorsAreSpecial` | ng-gateway-sdk/src/ui_schema.rs:102-163 | a template has discriminators if and only if the schema has a union, and each has a prefix that is folded away |
| `Import.DiscriminatorCheckIff` | ng-gateway-sdk/src/ui_schema.rs:1802-1852 | a row read from a sheet passes the discriminator check if and only if the schema has no union |
| `Import.UnionSchemaRejectsEverySheet` | ng-gateway-sdk/src/ui_schema.rs:1723-1793 | for a schema with a union no row of any sheet is valid and every row is reported |
| `ColumnLetters.IndexOfLetters` | ng-gateway-sdk/src/ui_schema.rs:2194-2205 | letters are non-empty A-Z strings and the inverse gives the index back |
| `ColumnLetters.LettersOfIndex` | ng-gateway-sdk/src/ui_schema.rs:2194-2205 | every non-empty A-Z string is the letters of its index |
| `ColumnLetters.LettersPreserveOrder` | ng-gateway-sdk/src/ui_schema.rs:2194-2205 | a smaller index has shorter or alphabetically earlier letters, and conversely |
| `ColumnLetters.ExcelColLetter` | ng-gateway-sdk/src/ui_schema.rs:2194-2205 | the division loop and final reversal compute the letters |
| `Values.UncheckedArmsIff` | ng-gateway-sdk/src/value.rs:577-1065 | of the 64 integer arms exactly those without a range test have a source range inside the target range |
| `Values.WrapIsExactIff` | ng-gateway-sdk/src/value.rs:577-1065 | a conversion with `as` lands in the target range, and is exact if and only if the number fits |
| `Values.CastIffFits` | ng-gateway-sdk/src/value.rs:577-1065 | with the arms as written, a cast of a well-typed value that denotes an integer succeeds if and only if the integer fits the target, and then denotes the same |
| `Values.CastInRange` | ng-gateway-sdk/src/value.rs:577-1065 | a successful cast of any value is within the target's range |
| `Doubles.RoundedIsNearest` | ng-gateway-sdk/src/value.rs:577-1065 | no whole number with 53 significant bits is nearer than the one an integer bound is converted to |
| `Doubles.RoundedIsRepresentable` | ng-gateway-sdk/src/value.rs:577-1065 | and that one has 53 significant bits |
| `Values.BoundsAsF64` | ng-gateway-sdk/src/value.rs:577-1065 | of all bounds converted to doubles only the maxima of the 64-bit kinds are not exact: they round up by one |
| `Values.FloatCastExactIff` | ng-gateway-sdk/src/value.rs:577-1065 | a finite float is accepted if and only if its rounding fits, or is one above a 64-bit maximum; in the first case it gives the rounding, in the second the maximum |
| `Values.DecodeEncode` | ng-gateway-sdk/src/value.rs:353-427 | big-endian bytes followed by anything decode to the original |
| `Values.EncodeDecode` | ng-gateway-sdk/src/value.rs:353-427 | bytes of the exact width decode within range and encode back to themselves |
| `Values.BytesRoundTrip` | ng-gateway-sdk/src/value.rs:1187-1213 | an integer value turned to bytes and cast back through binary is itself |
| `Values.DecimalRoundTrip` | ng-gateway-sdk/src/value.rs:460-531 | decimal text cast back through the string parser is the integer |
| `Values.TextCastAgreesIff` | ng-gateway-sdk/src/value.rs:460-531 | decimal text of any integer casts like the integer, except for a 64-bit kind and the integers just outside its range whose double is the bound or one above; beyond the largest double it is rejected as not finite |
| `ValueText.HexCastIff` | ng-gateway-sdk/src/value.rs:460-531 | hexadecimal text, in either case, with either prefix and for signed kinds with a sign, casts to the printed number if that fits, and to the proper error otherwise |
| `ValueText.BlanksAround` | ng-gateway-sdk/src/value.rs:460-531 | blanks around any text change nothing |
| `ValueText.TrimIs` | ng-gateway-sdk/src/value.rs:460-531 | trimming takes off only blanks at the ends |
| `ValueText.TrimmedEnds` | ng-gateway-sdk/src/value.rs:460-531 | and leaves none there |
| `ValueText.BlankFails` | ng-gateway-sdk/src/value.rs:460-531 | blank text is no number |
| `ValueText.PlusDecimalRoundTrip` | ng-gateway-sdk/src/value.rs:460-531 | a plus sign before decimal digits is read over |
| `ValueText.RoundIsNearest` | ng-gateway-sdk/src/value.rs:577-1065 | floats are rounded to the nearest integer, halves away from zero |
| `ValueText.BytesAreBigEndian` | ng-gateway-sdk/src/value.rs:353-427 | byte i of an integer is its i-th most significant byte in two's complement |
| `ValueText.OtherBytesRoundTrip` | ng-gateway-sdk/src/value.rs:1187-1213 | timestamps and booleans come back from their bytes |
| `ValueText.ShortBytesFailIff` | ng-gateway-sdk/src/value.rs:353-427 | bytes are refused for their length if and only if they are too few |
| `WriteProtocol.AcceptedIffAdmissible` | ng-gateway-core/src/gateway.rs:2156-2250 | resolve accepts if and only if the point exists, is writable, of its logical type, within both limits when both are set, its channel connected and the value encodable |
| `WriteProtocol.TaskStepKeepsInv` | ng-gateway-core/src/gateway.rs:2261-2382 | every step of a request, its being dropped included, keeps permits, call log, validation and replies in order |
| `WriteProtocol.InvAlways` | ng-gateway-core/src/gateway.rs:1900-1969 | the invariant holds in every state of every interleaving of northward and REST requests |
| `WriteProtocol.OneCallPerPermit` | ng-gateway-core/src/gateway.rs:208-220 | of the requests inside drivers at most one holds the permit of a channel |
| `WriteProtocol.CallsPerPermitNeverOverlap` | ng-gateway-core/src/gateway.rs:2261-2382 | over the whole of every run each driver call under a channel's permit starts when none under it is open and ends the open one |
| `WriteProtocol.OnlyAdmissibleWrites` | ng-gateway-core/src/gateway.rs:2156-2382 | for every driver call there is an earlier step of the run in which that same request was resolved, admissible in the world of that state, and a later one in which it was called in the driver its device had then, with what its queue wait had left of its timeout, one millisecond at least |
| `WriteProtocol.PermitsComeBack` | ng-gateway-core/src/gateway.rs:2261-2382 | once all requests are done, by whatever exit, every channel has its one permit |
| `WriteProtocol.NoDeadlock` | ng-gateway-core/src/gateway.rs:2261-2382 | a queued request can take the permit, or its holder can go on |
| `WriteReplies.RejectedIffRefused` | ng-gateway-core/src/gateway.rs:2156-2250 | a write is rejected with an error if and only if it is the error of the first of the documented checks that fails |
| `WriteReplies.LogAlwaysTells` | ng-gateway-core/src/gateway.rs:2261-2382 | in every run each request calls a driver at most once, and is done with success, the driver's error or nothing exactly as that call ended |
| `WriteReplies.ReplyTellsWhatHappened` | ng-gateway-core/src/gateway.rs:1900-1969 | in every run a reply is success if and only if the driver answered the request's call with success, the driver's error if it refused it, and for a request never called the error of the first check that failed in the world it was resolved in, a queue timeout after its whole timeout, or a missing device |
| `WriteReplies.AnswerIsPassedOn` | ng-gateway-core/src/gateway.rs:1941-1969 | what the driver answered has been replied or can be in the next step |
| `WriteDrivers.HomeCallsNeverOverlap` | ng-gateway-core/src/gateway.rs:2261-2382 | if every call into a driver so far was made under its own channel's permit, each of them started when none was open in it and ended the open one |
| `WriteDrivers.TogetherMeansAstray` | ng-gateway-core/src/gateway.rs:2261-2382 | two requests in one driver hold permits of different channels, so one at least holds a permit that is not the driver's |
| `WriteDrivers.HomeCallWasConnected` | ng-gateway-core/src/gateway.rs:2156-2382 | under the driver's own permit the called channel was connected when the request was resolved |
| `WriteDrivers.WriteReachesDriver` | ng-gateway-core/src/gateway.rs:2156-2382 | a run exists that brings any admissible write into the driver its device has in any other world, through no third one |
| `WriteDrivers.CanBeJoinedIff` | ng-gateway-core/src/southward/runtime_mutation.rs:237-345 | from any state of any run with a request in a driver, a request with the driver's own permit can come to be in it too if and only if the first holds another channel's permit |
| `WriteDrivers.MovedDeviceOverlaps` | ng-gateway-core/src/southward/runtime_mutation.rs:237-345 | any admissible write whose device is moved to another channel with a writable point ends in that channel's driver together with a second request |
| `OutboundQueue.InvAlways` | ng-gateway-core/src/gateway.rs:1723-1737 | exactly-once accounting holds in every state across any number of rebuilds |
| `OutboundQueue.CapacitiesAreAsAsked` | ng-gateway-core/src/gateway.rs:1723-1737 | each capacity asked for made one queue of that capacity, one at least, and the last one is in use |
| `OutboundQueue.NewBatchesUseNewQueue` | ng-gateway-core/src/gateway.rs:1723-1737 | batches begun after a rebuild use the new queue or a newer one, and earlier ones keep theirs |
| `OutboundQueue.RoutedInBatchOrder` | ng-gateway-core/src/collector.rs:670-677 | what was routed of a batch is a prefix of the batch |
| `OutboundQueue.ExactlyOnePlace` | ng-gateway-core/src/gateway.rs:1623-1654 | every item is routed once, or in its generation once, or unsent once |
| `OutboundQueue.OnlyItsGeneration` | ng-gateway-core/src/southward/bus.rs:23-40 | a generation holds only items of batches that loaded its sender |
| `OutboundQueue.QueuesStayServed` | ng-gateway-core/src/gateway.rs:1623-1654 | no queue exceeds its capacity, none with items has lost its forwarder, and nothing is lost before shutdown |
| `OutboundQueue.ForwarderNeverStuck` | ng-gateway-core/src/gateway.rs:1623-1654 | before shutdown a generation with items can always take a step |
| `OutboundQueue.DrainedMeansDelivered` | ng-gateway-core/src/gateway.rs:1623-1654 | when the generations are empty, every fully sent batch was routed whole and in order |
| `SemaphoreSwap.InvAlways` | ng-gateway-core/src/collector.rs:130-134 | permits are conserved per generation in every state of every run |
| `SemaphoreSwap.LimitsAreAsAsked` | ng-gateway-core/src/collector.rs:130-134 | each limit asked for made one semaphore with that many permits, one at least, and the last one is in use |
| `SemaphoreSwap.NewCallsUseNewLimit` | ng-gateway-core/src/collector.rs:130-134 | calls begun after a swap use the new semaphore or a newer one |
| `SemaphoreSwap.OnePermitEach` | ng-gateway-core/src/collector.rs:386-400 | a call holds a permit of a generation if and only if it runs on it; held plus free is the limit |
| `SemaphoreSwap.RunningWithinHeldLimits` | ng-gateway-core/src/collector.rs:386-400 | running calls never exceed the limits of the generations still held |
| `SemaphoreSwap.RunningWithinCurrentLimit` | ng-gateway-core/src/collector.rs:130-134 | and not the current limit once the older ones have drained |
| `Retry.RetryController.OnFailure` | ng-gateway-sdk/src/retry.rs:182-195 | a retry is granted if and only if the count allows it and the backoff source gives a delay; only then is one used up |
| `Retry.RetryController.Reset` | ng-gateway-sdk/src/retry.rs:172-175 | a reset gives the whole count back |
| `Retry.RetryController.BudgetSnapshot` | ng-gateway-sdk/src/retry.rs:208-224 | exhausted if and only if no delay could still be granted; used plus remaining is the limit |
| `Retry.EveryRunKeeps` | ng-gateway-core/src/collector.rs:402-547 | after any number of iterations calls and retries match, no wait has a deadline beyond the budget, and time exceeds it at most by the last timer's lateness |
| `Retry.CountBudgetStops` | ng-gateway-core/src/collector.rs:402-547 | with a limit of n the loop has stopped after n + 1 iterations |
| `Retry.ExactTimersMeetBudget` | ng-gateway-core/src/collector.rs:402-547 | with exact timers the loop ends within the budget |
| `Retry.PositiveDelaysStop` | ng-gateway-core/src/collector.rs:402-547 | with positive delays it stops even with unlimited attempts |
| `Retry.TakingTimeStops` | ng-gateway-core/src/collector.rs:402-547 | it does so whenever each call or the delay after it takes time |
| `Retry.NeverStopsIff` | ng-gateway-core/src/collector.rs:402-547 | with unlimited attempts it never stops if and only if from some iteration on every call fails at once, has a zero delay and is not cancelled |
| `RetryHistory.RunTells` | ng-gateway-core/src/collector.rs:402-547 | after any number of iterations the waits made are a legal history: each call and delay follows from the one before, and a retry is made whenever count, delay and time allow it |
| `CollectLoop.CollectOneGroup` | ng-gateway-core/src/collector.rs:402-547 | wherever it ends at all, its last wait decides: answered if and only if that call succeeds in time and uncancelled, cancelled if and only if the token fires in it, and otherwise failed, with the timeout flag by its deadline and what was granted; at most n + 1 calls and every deadline within the budget |
| `GroupCalls.GroupsPartition` | ng-gateway-core/src/collector.rs:329-360 | the calls together hold every device entry as often as the input |
| `GroupCalls.SharedIffSameKey` | ng-gateway-core/src/collector.rs:329-360 | two keyed entries share a call if and only if their keys are equal |
| `GroupCalls.CallsAreOrdered` | ng-gateway-core/src/collector.rs:329-360 | no call is empty, each ascends by device id, and a keyless entry is alone |
| `GroupCalls.CallsAt` | ng-gateway-core/src/collector.rs:340-359 | the calls for keys come first, one for each, then one for each device without a key, in order |
| `GroupCalls.KeyedIs` | ng-gateway-core/src/collector.rs:329-338 | a key's entries are all those with it, in their order |
| `GroupCalls.CallCount` | ng-gateway-core/src/collector.rs:329-360 | there are as many calls as distinct keys plus keyless entries |
| `GroupCalls.PointsConserved` | ng-gateway-core/src/collector.rs:329-360 | the calls collect as many points as the entries have |
| `GroupCalls.BuildGroupCalls` | ng-gateway-core/src/collector.rs:329-360 | the code computes those groups, keyed ones in some order of the keys and then the keyless ones in input order: a partition of the entries with that many calls |
| `GroupCalls.BuildDeviceEntries` | ng-gateway-core/src/collector.rs:284-321 | fails if and only if a device is unknown; otherwise the entries with points in input order and the driver of the first |
| `GroupCalls.EntriesAre` | ng-gateway-core/src/collector.rs:284-321 | the devices with points have one entry each, in order, with their own key and points |
| `Topology.LoaderIsJoinIff` | ng-gateway-core/src/gateway.rs:1555-1612 | taking rows out of the maps equals the nested-loop join if and only if no device id with points or actions is listed twice |
| `Topology.UniqueIdsGiveJoin` | ng-gateway-core/src/gateway.rs:1555-1612 | so with unique device ids the loader is the join |
| `Topology.JoinIs` | ng-gateway-core/src/gateway.rs:1555-1612 | the join has every channel and device in its place, with all points and all actions of that device in query order |
| `Topology.QueriedChannels` | ng-gateway-core/src/gateway.rs:1584-1601 | asking the tables only for the listed devices loses nothing |
| `Topology.GroupByDevice` | ng-gateway-core/src/gateway.rs:1584-1601 | the grouping loop holds, for every device, its rows in query order |
| `Topology.TakeChannel` | ng-gateway-core/src/gateway.rs:1600-1609 | each device gets what is left for it, and the maps keep the rows of all others |
| `Topology.LoadSouthwardConfig` | ng-gateway-core/src/gateway.rs:1555-1612 | the whole loader, its no-devices shortcut included, equals the join exactly under that condition |
| `PointIndex.SoundAlways` | ng-gateway-core/src/southward/index.rs:291-358 | after any sequence of writes and removals, clashes included, a path never leads to a missing point or one with another path |
| `PointIndex.PathReadsBack` | ng-gateway-core/src/southward/index.rs:291-342 | a path reads back as channel, device and key |
| `PointIndex.UpsertKeepsCompleteIff` | ng-gateway-core/src/southward/index.rs:291-342 | a write keeps every point findable by path if and only if no other point has its path |
| `PointIndex.DropKeepsComplete` | ng-gateway-core/src/southward/index.rs:346-358 | a removal keeps every other point findable |
| `PointIndex.PathsDetermined` | ng-gateway-core/src/southward/index.rs:291-358 | a sound and complete path map is determined by the entries |
| `PointIndex.ExchangeLosesAPath` | ng-gateway-core/src/southward/runtime_mutation.rs:658-690 | exchanging two keys in one batch leaves distinct paths of which one cannot be found |
| `PointPaths.OwnsNewPathIff` | ng-gateway-core/src/southward/runtime_mutation.rs:664-668 | after a batch a point of it owns its new path if and only if no later point takes or frees it |
| `PointPaths.BatchKeepsCompleteIff` | ng-gateway-core/src/southward/runtime_mutation.rs:658-690 | after a batch every point is findable by path if and only if it takes no path of a point outside it and no later point takes or frees the path an earlier one was given |
| `PointIndex.AddUndoneIff` | ng-gateway-core/src/southward/runtime_mutation.rs:566-604 | a refused addition leaves no trace if and only if every added id and every added path was new |
| `PointMutations.BatchShape` | ng-gateway-core/src/southward/runtime_mutation.rs:668-685 | after an update the old points are in place, each replaced or kept, followed by the unknown ones of the batch |
| `PointMutations.ListRestored` | ng-gateway-core/src/southward/runtime_mutation.rs:703-719 | dropping the added and writing back the replaced points gives the old list exactly |
| `PointMutations.ReplacedInOrder` | ng-gateway-core/src/southward/runtime_mutation.rs:703-728 | replaced points are written back in the order of the batch |
| `PointMutations.ReplaceUndoneIff` | ng-gateway-core/src/southward/runtime_mutation.rs:658-728 | a refused update leaves entries, paths and lists as they were if and only if each point of the batch is the device's own or new, the batch takes no path of a point outside it, and no later point of it takes the old path of an earlier one |
| `PointMutations.RefusedMoveLosesEntry` | ng-gateway-core/src/southward/runtime_mutation.rs:703-728 | a refused update with a point of another device deletes its entry, while the other device lists it as before and is no longer coherent |
| `PointMutations.RefusedExchangeLosesAPath` | ng-gateway-core/src/southward/runtime_mutation.rs:658-728 | a refused exchange of two keys is such a case: one old path is lost |
| `PointMutations.RemoveUndone` | ng-gateway-core/src/southward/runtime_mutation.rs:756-811 | a refused removal restores entries, paths, other lists and the points; their order if and only if no point that stays stood behind one that goes |
| `PointMutations.RuntimeIndex.UpsertPointEntry` | ng-gateway-core/src/southward/index.rs:291-342 | the entry and its path are written and the old path is freed |
| `PointMutations.RuntimeIndex.RemovePointEntryById` | ng-gateway-core/src/southward/index.rs:346-358 | the entry and the path derived from it are removed |
| `PointMutations.RuntimeIndex.AddPoints` | ng-gateway-core/src/southward/runtime_mutation.rs:523-609 | fails only on refusal; applied, the points stand behind the old ones, with their entries, and nothing else changes; or undone without a trace exactly when ids and paths were new |
| `PointMutations.RuntimeIndex.ReplacePoints` | ng-gateway-core/src/southward/runtime_mutation.rs:612-731 | the same for updates: applied, known points are replaced in place and unknown ones appended in batch order; undone without a trace exactly under the condition above |
| `PointMutations.RuntimeIndex.RemovePoints` | ng-gateway-core/src/southward/runtime_mutation.rs:734-816 | the same for removals: applied, the list keeps the others in order and the entries are gone; nothing found means nothing is offered to the driver; a refusal restores all but possibly the order, with the exact condition for it |
| `PointCoherence.AddKeepsCoherentIff` | ng-gateway-core/src/southward/runtime_mutation.rs:566-584 | adding new points keeps index and list coherent if and only if their paths are distinct |
| `PointCoherence.ReplaceKeepsCoherentIff` | ng-gateway-core/src/southward/runtime_mutation.rs:658-690 | an applied update does so exactly when every point stays findable by its path |
| `PointCoherence.RemoveKeepsCoherent` | ng-gateway-core/src/southward/runtime_mutation.rs:756-777 | an applied removal always does |
| `PointCoherence.StepKeepsCoherent` | ng-gateway-core/src/southward/runtime_mutation.rs:523-816 | every applied or refused mutation under these conditions keeps the mutated device coherent, whatever the state of the others |
| `PointDevices.UpdateKeepsAllIff` | ng-gateway-core/src/southward/runtime_mutation.rs:658-690 | an applied update keeps all devices coherent, no point on two lists and no entry on none, if and only if each point of the batch is the device's own or new and every point stays findable |
| `PointDevices.RefusedUpdateKeepsAllIff` | ng-gateway-core/src/southward/runtime_mutation.rs:658-728 | and a refused one exactly when it leaves no trace |
| `PointDevices.CoherentAlways` | ng-gateway-core/src/southward/runtime_mutation.rs:523-816 | from the empty index, every run of applied and refused mutations of any of the devices under these conditions keeps all of them coherent |
| `Compensation.DiffersIff` | ng-gateway-core/src/gateway.rs:993-1095 | from agreement, a device and a row differ afterwards if and only if the row's new content was only stored and the change shows on the device, or the row was moved off the device |
| `Compensation.NewDifference` | ng-gateway-core/src/gateway.rs:993-1095 | without agreement, a new difference still has one of these causes |
| `Compensation.OneDeviceInStepIff` | ng-gateway-core/src/gateway.rs:993-1095 | a batch for one device that moves no row keeps database and runtime in step if and only if it is not refused, or refused updates are written back, or they changed nothing |
| `Compensation.SuccessInStepIff` | ng-gateway-core/src/gateway.rs:993-1095 | a successful batch keeps them in step if and only if it moves no row off a running device |
| `Compensation.MoveLeavesRowBehind` | ng-gateway-core/src/gateway.rs:1024-1066 | an applied update to another device leaves the old row running on the old one |
| `Compensation.EveryDifferenceIsBlamed` | ng-gateway-core/src/gateway.rs:1152-1255 | over any sequence of commands, every difference at the end goes back to a command that only stored the row or moved it |
| `Compensation.WriteAll` | ng-gateway-core/src/gateway.rs:1036-1042 | writing rows one by one in any order gives each its value and leaves the others |
| `Compensation.Gateway.TryGroup` | ng-gateway-core/src/gateway.rs:1013-1019 | one group is applied, skipped for an unloaded device, or refused with only its database rows put back, updates as far as the library writes them |
| `Compensation.Gateway.Execute` | ng-gateway-core/src/gateway.rs:993-1095 | all rows reach the database, then groups in any order up to the first refusal; fails if and only if one was refused |
| `Compensation.Gateway.CreateRows` | ng-gateway-core/src/gateway.rs:993-1021 | creation: succeeds if and only if no running device among the rows refuses; then every row is in the table and running on its loaded device, and nothing else changed; a refused group's rows are deleted again |
| `Compensation.Gateway.UpdateRows` | ng-gateway-core/src/gateway.rs:1024-1066 | update: the same, with the new contents; a refused group's rows get their old contents if the update writes them, and else keep the new ones |
| `Compensation.Gateway.DeleteRows` | ng-gateway-core/src/gateway.rs:1070-1094 | deletion: on success no id is left in the table or on its loaded device, and nothing else changed; ids not present are ignored, a refused group's rows are inserted again |
| `BuiltinSync.Store.LoadExisting` | ng-gateway-models/src/initializer.rs:143-158 | the map holds one builtin row for every builtin name |
| `BuiltinSync.Store.PassDisk` | ng-gateway-models/src/initializer.rs:160-188 | known libraries are updated and struck off, the others queued; with unique names exactly those on disk and those missing |
| `BuiltinSync.Store.Sync` | ng-gateway-models/src/initializer.rs:132-248 | leaves one builtin row per disk name if and only if names are unique or the disk is empty; then survivors keep id and fixed columns, all carry the probed columns, other rows are untouched |
| `BuiltinSync.CountsAddUp` | ng-gateway-models/src/initializer.rs:190-216 | builtin rows afterwards plus builtin names before equal builtin rows before plus libraries on disk, whatever the names |
| `BuiltinSync.OnlyUniqueNamesSync` | ng-gateway-models/src/initializer.rs:132-248 | one row per name afterwards implies unique names on both sides |
| `BuiltinSync.EmptyDisk` | ng-gateway-models/src/initializer.rs:217-246 | the branch for an empty disk satisfies the same relation |
| `BuiltinSync.SecondSyncOnlyTouchesTime` | ng-gateway-models/src/initializer.rs:132-248 | a second sync against the same disk changes nothing but update times |

## Left out

- Drivers, plugins, the value codec and the channel managers: abstract steps with arbitrary answers.
- The web server, authentication, settings, metrics, static files, SQL text and batching, TLS: input and output or thin wrappers.
- Reading and writing xlsx files, the localisation tables and the base column lists: libraries and constant data; a sheet row is any map of cells, base columns are a parameter.
- Order of the JSON map when it is built to preserve insertion order: covered by the results for any order only.
- Text conventions of library routines in row validation (trimming, number parsing and printing, regular expressions): parameters of `RowValidator`, constrained only by `parseInt` staying within `i64`. Condition operators are arbitrary tests.
- Error message texts: only row, field and code of an error are modelled. The row of an error is the index among the rows that have a cell, plus two: rows without any are skipped before validation (`ng-gateway-sdk/src/ui_schema.rs`, `read_rows_from_range`), so after a blank row it is not the row number of the sheet.
- Floats: values are reals with infinities and NaN; integer bounds are rounded to doubles exactly, the reading of float text is a parameter. Casts to floats, RFC 3339, hex and base64 text are not modelled.
- Request payloads of the write pipeline: any submitted value, so the REST key lookup and JSON conversion are covered only in that their result is arbitrary.
- Timing inside the driver: a driver call ends at an arbitrary later step, or never.
- The exponential backoff formula and its jitter: an arbitrary source of delays that may run dry at any question.
- The retryable flag of collection errors: the branch for a non-retryable error cannot be taken in the code as written.
- `pause` and `resume`, channel enabling, the log-level sink and `update_devices`: the code does not keep the obvious invariants, and none is claimed.
- Aliasing of the row during a nested write: `RowCell` keeps the row and the path walked so far instead of a reference into it.
- Duplicate ids in tree input: the theorems on trees are for unique ids.
- The order of forest roots with equal sort keys: roots come out of a hash map, so only ascending keys are claimed.
- Tree.BuildTree: requires unique ids, and a root off every cycle because the recursion does not end otherwise; `Tree.RootForestExistsIff` shows that no other root is excluded.
- CollectLoop.CollectOneGroup: is not called where the loop does not end, which `Retry.NeverStopsIff` characterises.
- Conversion of database rows to runtime points by the driver: rows that fail it are dropped before the modelled mutations.
- Device mutations and action mutations of the runtime index (in `WriteProtocol` devices change arbitrarily between steps, in `PointDevices` the set of devices is fixed): the same apply-then-revert pattern on simpler structures.
- Northward broadcast of runtime deltas and the refresh of observability snapshots after a mutation.
- Database failures: database steps succeed, also when they compensate.
- The runtime step of `Compensation` is all-or-nothing per group; that the point mutations behind it are, and when, is proved separately in `PointMutations`.
- Compensation.Gateway.CreateRows: created ids are new and distinct, as the table hands them out.
- Compensation.Gateway.UpdateRows: updated ids exist and are distinct; an update of a missing row fails in the database before anything else happens.
- Scanning and probing libraries on disk: the scan result is a parameter. Plugins are synchronised by the same code as drivers, but their table has a unique index on name and version (`ng-gateway-models/src/idens/plugin.rs`): a queued plugin of the same name and version as a row that is not builtin, or as another one on disk, makes the insertion fail before obsolete rows are deleted, and that failure is not modelled.
