# eflips-db core in Dafny

This project models the database layer of eflips-db: the ORM model of an electric-bus
simulation database. It covers these parts:

- **Schedule** (`schedule.dfy`): the `StopTime` and `Trip` constraints, and the two pre-flush
  validators.
  - `check_trip_before_commit` sorts a trip's stop times by arrival. It compares both ends with
    the trip's times and the route's terminal stations. It then checks, by popping from both
    lists, that the stop times visit the route's stations in distance order.
  - `check_rotation_before_commit` checks that consecutive trips of a rotation connect in space
    and in time.
- **Network** (`network.dfy`): the `Station` electrification CHECK and the `Trip` arrival CHECK.
- **Depot** (`depot.dfy`): the `Area` constraints `row_count_check` and `capacity_validity_check`,
  preceded by the NOT NULL tests of the columns an area object may leave unset; the `Process`
  duration/power CHECK as written; and the composite primary keys of `AssocPlanProcess` and
  `AssocAreaProcess`.
- **General** (`general.dfy`):
  - the CHECK constraints of `VehicleType`;
  - a `Store` class holding the scenario, vehicle type, battery type and vehicle tables and their
    id sequences;
  - `Scenario.clone` together with its helper `_copy_object`;
  - the ORM cascade that runs when a scenario is deleted.

Two support modules:

- `sql_logic.dfy` gives SQL's three-valued logic. A CHECK rejects a row only when it is FALSE,
  so NULL makes it UNKNOWN and the row passes. It also gives PostgreSQL's truncating `%`, which
  raises an error on a zero divisor.
- `sorting.dfy` models Python's stable `sorted(..., key=...)` as an insertion sort.

`wrappers.dfy` holds `Option`, `Result` and `Outcome`.

Conventions:

- **Times:** integer seconds.
- **Floating-point columns:** `real`.
- **JSON columns:** opaque strings that are only copied.
- **Primary keys and errors:**
  - Keys come from per-table sequences starting at 1.
  - A raised exception (an `IntegrityError`, a `ValueError`, a `KeyError`) becomes an `Err` or
    `Fail` value naming the violated rule.

## Model

| member | source | states |
|---|---|---|
| SqlLogic.TruncMod | eflips/model/depot.py:135-141 | PostgreSQL's `%`: the remainder has the sign of the dividend and a smaller magnitude than the divisor, and differs from the dividend by a multiple of the divisor |
| SqlLogic.SqlMod | eflips/model/depot.py:135-141 | `x % y` on nullable columns: an error exactly when a non-NULL dividend meets a zero divisor; NULL exactly when an operand is NULL |
| SqlLogic.TruncModZeroIff | eflips/model/depot.py:135-141 | the truncating remainder is zero exactly when the divisor divides the dividend, so `capacity % n = 0` is a divisibility test |
| Sorting.InsertBy | eflips/model/schedule.py:158 | inserting one element adds it to the multiset of elements and grows the length by one |
| Sorting.InsertBySorted | eflips/model/schedule.py:158 | inserting into a sequence sorted by key keeps it sorted |
| Sorting.SortBy | eflips/model/schedule.py:158 | `sorted(xs, key=...)` returns a permutation of `xs` (same multiset, same length) whose keys never decrease |
| Sorting.SortedEnds | eflips/model/schedule.py:158-170 | the first element of the sorted list has the smallest key of the input and the last has the largest, and both come from the input |
| Sorting.SortByStrict | eflips/model/schedule.py:158 | when all keys are distinct, the sorted keys increase strictly |
| Sorting.SortByStable | eflips/model/schedule.py:158 | the sort is stable: for every key, the elements carrying it appear in the sorted sequence in their order in the input |
| Sorting.InsertByWithKey | eflips/model/schedule.py:158 | inserting an element puts it in front of the elements of its own key and leaves the order of each key's elements unchanged |
| Sorting.InsertByDistinct | eflips/model/schedule.py:158 | inserting an element with a new key into a sorted sequence with distinct keys keeps the keys distinct |
| Network.StationElectrifiedCheck | eflips/model/network.py:202-215 | the electrification CHECK in three-valued logic; characterised by `Network.StationAcceptedIff` and `Network.StationCheckReadsOnlyNullness` |
| Network.TripArrivalAfterDepartureCheck | eflips/model/network.py:293-299 | `arrival_time > departure_time`; characterised by `Network.TripAcceptedIff` |
| Network.StationAcceptedIff | eflips/model/network.py:202-215 | an electrified station is accepted exactly when all five charging fields are set; a station that is not electrified, exactly when none is set |
| Network.StationCheckReadsOnlyNullness | eflips/model/network.py:202-215 | the electrification check depends only on the flag and on which charging fields are NULL, not on their values |
| Network.StationExamples | tests/test_network.py:74-110 | an electrified station without charging fields, and a station that is not electrified but has a total power, are rejected; a plain station and a fully equipped electrified station are accepted |
| Network.TripAcceptedIff | eflips/model/network.py:293-299 | a trip row is accepted exactly when it arrives strictly after it departs; equal times, or a departure one minute after the arrival, are rejected |
| Depot.RowCountCheck | eflips/model/depot.py:125-130 | `row_count_check` in three-valued logic; characterised by `Depot.InsertAreaIff` and `Depot.ZeroRowCountRejected` |
| Depot.LineCapacityTerm | eflips/model/depot.py:139 | the line clause of `capacity_validity_check`, evaluated left to right: it raises division by zero exactly when the type is LINE or NULL and the row count is 0 |
| Depot.CapacityCheck | eflips/model/depot.py:135-141 | `capacity_validity_check` with short-circuit evaluation; characterised by `Depot.InsertAreaIff` |
| Depot.InsertArea | eflips/model/depot.py:125-141 | both Area CHECKs in name order, the capacity check first; characterised by `Depot.InsertAreaIff` |
| Depot.InsertAreaIff | eflips/model/depot.py:125-141 | with both Area checks tested in name order, a row passes exactly when its capacity is positive and: a two-side area has no row count and an even capacity; a one-side area has no row count; a line area has a NULL row count or a positive row count dividing the capacity; an area of NULL type has a NULL or positive row count |
| Depot.LineAreaWithoutRowCount | eflips/model/depot.py:125-130 | a line area with NULL row count and capacity 6 passes both checks as written, and fails the corrected row-count check |
| Depot.InsertAreaCorrectedIff | eflips/model/depot.py:125-141 | under the corrected row-count check, a row passes exactly when it follows the intended per-type rule, where a line area needs a positive row count that divides the capacity |
| Depot.ZeroRowCountRejected | eflips/model/depot.py:125-141 | a row count of 0 fails the row-count check, so the division by zero in the capacity check never lets a row in |
| Depot.AreaExamples | tests/test_depot.py:25-67 | the checks on the (type, row_count, capacity) triples of the test areas: line 2/6 passes; line 2/5, one-side -1 and two-side 17 fail `capacity_validity_check`. Boundary cases: line 3/9 and two-side 6 pass; line 3/10 fails; a two-side area with a row count fails `row_count_check`; a line area with row count 0 raises division by zero |
| Depot.InsertAreaRow | eflips/model/depot.py:97-141 | a whole area row: the NOT NULL columns `scenario_id`, `depot_id`, `name` and `vehicle_type_id` are tested in column order before the CHECKs; characterised by `Depot.InsertAreaRowIff` |
| Depot.InsertAreaRowIff | eflips/model/depot.py:97-141 | a whole area row is stored exactly when its four NOT NULL columns are set and both CHECKs admit its values |
| Depot.AreaTestsFailBeforeChecks | tests/test_depot.py:41-67 | an area built as the tests build it, with no depot and no vehicle type, fails on NOT NULL `depot_id` whatever its values, even the line area 2/6 that both checks admit |
| Depot.AreaTestsWithDepotFailOnCapacity | tests/test_depot.py:41-67 | with a depot and a vehicle type set, the three invalid test areas fail `capacity_validity_check`, and the line area 2/6 is stored |
| Depot.PositiveDurationAndPowerCheck | eflips/model/depot.py:197-205 | `positive_duration_and_power_check` as written, a four-way OR; characterised by `Depot.ProcessAcceptedIff` |
| Depot.ProcessAcceptedIff | eflips/model/depot.py:197-205 | the four-way OR rejects a process only when duration and electric power are both set and both negative |
| Depot.IntendedProcessAcceptedIff | eflips/model/depot.py:197-205 | the intended check accepts exactly the rows whose duration and power are each NULL or non-negative |
| Depot.ProcessCheckAdmitsNegativeDuration | eflips/model/depot.py:197-205 | duration -1 with NULL power, and duration -5 with power 3, pass the check as written and fail the intended one; duration 0 with NULL power passes both |
| Depot.InsertAssoc | eflips/model/depot.py:208-229 | inserting an association pair fails with a duplicate key exactly when the pair is present; otherwise it fails on a foreign key exactly when the owner or the process is missing; otherwise it appends the pair |
| Depot.InsertAssocKeepsKey | eflips/model/depot.py:208-229 | a successful insertion keeps the composite key unique and every pair pointing at an existing owner and process |
| Depot.SecondInsertFails | eflips/model/depot.py:208-229 | inserting the same pair again right after it succeeded fails with a duplicate key |
| Schedule.StopTimeAccepted | eflips/model/schedule.py:64-68 | `stop_time_dwell_duration_positive_check`; characterised by the contract of `Schedule.InsertStopTime` |
| Schedule.StopTimesUnique | eflips/model/schedule.py:69-73 | the two per-trip UNIQUE constraints on arrival time and on station; preserved by `Schedule.InsertStopTimeKeepsUnique` |
| Schedule.TripAccepted | eflips/model/schedule.py:136-141 | `trip_arrival_after_departure_check`; used by `Schedule.RotationDeparturesIncrease` |
| Schedule.InsertStopTime | eflips/model/schedule.py:64-74 | a stop time is inserted exactly when its dwell duration is not negative and no stop time of the same trip has its arrival time or its station; the negative-dwell error comes exactly from a negative dwell; on success the row is appended |
| Schedule.InsertStopTimeKeepsUnique | eflips/model/schedule.py:64-74 | a successful insertion keeps both per-trip UNIQUE constraints |
| Schedule.SortedStopTimesStrict | eflips/model/schedule.py:70-71 | because arrival times are unique per trip, a trip's stop times sorted by arrival have strictly increasing arrival times |
| Schedule.IsSubsequence | eflips/model/schedule.py:189-203 | the greedy subsequence test: the empty sequence is a subsequence of everything, and a subsequence is never longer than the sequence it is drawn from; characterised by `Schedule.SubsequenceIffEmbeds` |
| Schedule.SubsequenceIffEmbeds | eflips/model/schedule.py:184-203 | the greedy pop test succeeds exactly when the stop stations embed in order in the route stations: a strictly increasing index map to equal elements exists |
| Schedule.PopInOrder | eflips/model/schedule.py:189-203 | the nested pop loops return true exactly when the stop stations are a subsequence of the route stations; running out of route stations (the `IndexError`) gives false |
| Schedule.TripCheck | eflips/model/schedule.py:146-203 | the validator's decision; characterised by `Schedule.TripPassesIff`, `Schedule.TripCheckTimesIff`, `Schedule.TripCheckTerminals` and `Schedule.TripCheckOrderIff` |
| Schedule.CheckTripBeforeCommit | eflips/model/schedule.py:146-203 | the validator's outcome is `TripCheck`: the error of the first failing test, in the source's test order, or Pass |
| Schedule.TripWithoutStopTimesPasses | eflips/model/schedule.py:157 | a trip without stop times passes the validator whatever its route and times |
| Schedule.TripCheckTimesIff | eflips/model/schedule.py:158-170 | with stop times, both time tests pass exactly when the trip departs at the earliest stop arrival and arrives at the latest |
| Schedule.SortedArrivalEnds | eflips/model/schedule.py:158-170 | the first stop time after the sort has the earliest arrival of the trip, and the last has the latest |
| Schedule.TripCheckTerminals | eflips/model/schedule.py:158-181 | a passing trip with stop times has a stop time at the route's departure station at the trip's departure time, and one at the route's arrival station at the trip's arrival time |
| Schedule.TripCheckOrderIff | eflips/model/schedule.py:184-203 | once both ends match and the route has associated stations, the trip passes exactly when its stations in arrival order embed in the route stations in distance order |
| Schedule.TripPassesIff | eflips/model/schedule.py:146-203 | for stop times with distinct arrivals, a trip passes exactly when it has no stop times, or it departs at the earliest arrival from the route's departure station, arrives at the latest arrival at the route's arrival station, and its stations in arrival order embed in the route's stations whenever the route has any |
| Schedule.RouteWithoutStationsSkipsOrder | eflips/model/schedule.py:184 | a route without associated stations never fails the order test |
| Schedule.CheckRotationBeforeCommit | eflips/model/schedule.py:248-273 | the rotation validator passes exactly when every two consecutive trips connect in space and time; on failure it names the first gap, and reports a space error exactly when the stations differ there |
| Schedule.RotationDeparturesIncrease | eflips/model/schedule.py:248-273 | in a contiguous rotation whose trips each arrive after they depart, every trip arrives no later than any later trip departs, and departures increase strictly |
| Schedule.ShortRotationContiguous | eflips/model/schedule.py:257 | a rotation with fewer than two trips is contiguous |
| General.BatteryCapacityCheck | eflips/model/general.py:184 | `battery_capacity > 0` on a NOT NULL column; characterised by `General.VehicleTypeAcceptedIff` |
| General.BatteryCapacityReserveCheck | eflips/model/general.py:190-192 | `battery_capacity_reserve >= 0`, UNKNOWN when the column is NULL; characterised by `General.VehicleTypeAcceptedIff` |
| General.ChargingEfficiencyLowerCheck | eflips/model/general.py:217 | `charging_efficiency > 0`; characterised by `General.VehicleTypeAcceptedIff` |
| General.ChargingEfficiencyUpperCheck | eflips/model/general.py:219 | `charging_efficiency <= 1`; characterised by `General.VehicleTypeAcceptedIff` |
| General.MinimumChargingPowerCheck | eflips/model/general.py:230 | `minimum_charging_power >= 0`; characterised by `General.VehicleTypeAcceptedIff` |
| General.EmptyMassCheck | eflips/model/general.py:244 | `empty_mass > 0`, UNKNOWN when the column is NULL; characterised by `General.VehicleTypeAcceptedIff` |
| General.VehicleTypeAccepted | eflips/model/general.py:182-245 | no CHECK of the vehicle type is FALSE; characterised by `General.VehicleTypeAcceptedIff` |
| General.VehicleTypeAcceptedIff | eflips/model/general.py:182-245 | a vehicle type is accepted exactly when: its battery capacity is positive; its reserve is NULL or non-negative; its charging efficiency is in (0, 1]; its minimum charging power is non-negative; its empty mass is NULL or positive |
| General.MinimalVehicleType | eflips/model/general.py:215-231 | a vehicle type given only its scenario, name, capacity and opportunity flag keeps those four values; it has no battery type, short name, reserve or empty mass; efficiency is 0.95 and minimum power 0, the server defaults |
| General.MinimalVehicleTypeAcceptedIff | eflips/model/general.py:182-231 | with the server defaults, only the battery capacity decides acceptance: it must be positive |
| General.VehicleTypeExamples | tests/test_general.py:170-290 | the valid sample and the boundary cases of the vehicle type tests: capacity -100 or 0, reserve -10, efficiency -1, 0 or 1.1, minimum power -10, empty mass -100 or 0 are rejected; reserve 0 and a complete row are accepted |
| General.CopyScenario | eflips/model/general.py:97-103 | the new scenario has the original's name, short name and option payloads, the original as parent, and is not finished |
| General.IsCloneOf | eflips/model/general.py:91-146 | what a successful `clone` leaves: the copied scenario row and a copy of each owned row under the ids of the maps, references rewritten to the copies, old rows kept; characterised by `General.CopiesOfClone`, `General.CloneIsConsistent`, `General.CloneCounts` and `General.DeleteUndoesClone` |
| General.CopiesOfClone | eflips/model/general.py:108-143 | after a clone, the rows of the copy are exactly the new ids of the id maps, and the maps' keys are exactly the rows of the original; a row of the result belongs to the copy exactly when it is new |
| General.CloneIsConsistent | eflips/model/general.py:92-146 | cloning a self-contained scenario in a consistent database keeps the database consistent: every foreign key resolves and every vehicle type passes its checks; the copy is self-contained too |
| General.CloneCounts | eflips/model/general.py:108-126 | the copy has as many vehicle types, battery types and vehicles as the original; each table grows by exactly that many rows and the scenario table by one |
| General.CloneKeepsOtherScenarios | eflips/model/general.py:108-126 | cloning leaves the vehicle types, battery types and vehicles of every other scenario, the original included, unchanged |
| General.CloneOfOnlyScenarioDoubles | tests/test_general.py:127-131 | cloning the only scenario doubles every table and gives two scenarios |
| General.BatteryPassOutcome | eflips/model/general.py:133-137 | the battery type pass fails exactly when a vehicle type of the original has a battery type of another scenario, and the missing key is such a battery type |
| General.VehicleTypePassOutcome | eflips/model/general.py:142-143 | the vehicle type pass fails exactly when a vehicle of the original has a vehicle type of another scenario, and the missing key is such a vehicle type |
| General.DetachParent | eflips/model/general.py:32-41 | a scenario whose parent is deleted loses its parent, and no other column changes |
| General.DetachBatteryType | eflips/model/general.py:168-175 | a vehicle type whose battery type is deleted loses its battery type, and no other column changes |
| General.DeleteScenario | eflips/model/general.py:64-76 | deleting a scenario fails exactly when it does not exist, or when a vehicle of another scenario has one of its vehicle types |
| General.DeleteRemovesExactlyTheScenario | eflips/model/general.py:64-76 | a successful delete removes exactly the scenario and its vehicle types, battery types and vehicles; every other row stays, and a reference to a deleted row becomes NULL |
| General.DeleteKeepsOtherScenarios | eflips/model/general.py:64-76 | after a delete no row of the deleted scenario is left, and every other scenario keeps all its rows |
| General.DeleteKeepsReferences | eflips/model/general.py:64-76 | a successful delete keeps every foreign key resolving and every CHECK holding |
| General.DeleteUndoesClone | tests/test_general.py:127-136 | deleting the copy right after a clone gives back exactly the tables from before the clone |
| General.DeleteOriginalKeepsClone | tests/test_general.py:138-150 | after a clone, the original can be deleted whenever it could have been deleted before; the copy keeps all its rows and loses its parent |
| General.Store.Valid | eflips/model/general.py:158-298 | the database invariant: every id sequence is ahead of its table, every foreign key resolves and every vehicle type passes its CHECKs; kept by every `Store` method |
| General.Store.constructor | eflips/model/general.py:26-44 | an empty database: all four tables empty and the invariant holding |
| General.Store.AddScenario | eflips/model/general.py:26-44 | inserting a scenario fails exactly when its parent is set and missing; otherwise the row is added under a new id; the store stays consistent |
| General.Store.AddBatteryType | eflips/model/general.py:252-263 | inserting a battery type fails exactly when its scenario is missing; otherwise the row is added under a new id |
| General.Store.AddVehicleType | eflips/model/general.py:158-249 | inserting a vehicle type fails with a CHECK violation exactly when a CHECK is FALSE; otherwise it fails on a foreign key exactly when the scenario or a set battery type is missing; otherwise the row is added under a new id |
| General.Store.AddVehicle | eflips/model/general.py:283-298 | inserting a vehicle fails exactly when its scenario or its vehicle type is missing; otherwise the row is added under a new id |
| General.Store.Clone | eflips/model/general.py:91-146 | `clone` fails with a KeyError exactly when the scenario references a battery type or vehicle type of another scenario, and the key names such a row; on success the store is consistent and the new tables are the clone of the old ones under the returned id |
| General.Store.CopyScenarioRows | eflips/model/general.py:97-126 | the copy loops and the new scenario row: the rows of the scenario are added under fresh ids attached to the copy, and the old rows are kept |
| General.Store.CopyVehicleTypes | eflips/model/general.py:110-114 | `_copy_object` over the vehicle types: each vehicle type of the scenario is added under a fresh id attached to the copy, and the map records it |
| General.Store.CopyBatteryTypes | eflips/model/general.py:116-120 | each battery type of the scenario is added under a fresh id attached to the copy, and the map records it |
| General.Store.CopyVehicles | eflips/model/general.py:122-126 | each vehicle of the scenario is added under a fresh id attached to the copy, and the map records it |
| General.Store.RetargetCopies | eflips/model/general.py:131-137 | the battery type pass fails exactly when a vehicle type of the scenario has a battery type outside it; otherwise the copied vehicle types point at the copied battery types |
| General.Store.RemapCopies | eflips/model/general.py:141-143 | the vehicle type pass fails exactly when a vehicle of the scenario has a vehicle type outside it; otherwise the copied vehicles point at the copied vehicle types |
| General.Store.RemapBatteryTypes | eflips/model/general.py:133-137 | the loop rewrites each copied vehicle type's battery type through the map, and stops at the first copy, in ascending original id, whose battery type the map lacks: every earlier copy has its battery type in the map; the rows before the split are untouched |
| General.Store.RemapVehicleTypes | eflips/model/general.py:142-143 | the loop rewrites each copied vehicle's vehicle type through the map, and stops at the first copy, in ascending original id, whose vehicle type the map lacks: every earlier copy has its vehicle type in the map; the rows before the split are untouched |
| General.Store.Delete | eflips/model/general.py:64-76 | `session.delete(scenario)` then commit: the tables become those of `DeleteScenario`, or stay unchanged on failure; the store stays consistent |

## Left out

- Sessions, flushes, commits, rollbacks and per-session identity maps are not modelled. Every
  write goes straight into the store's maps.
- The geometry columns are not modelled: PostGIS locations and shapes, and their validation.
- The content of the JSON columns, and the charging and V2G curves, are not modelled.
- The `created` timestamp is an ORM server-side clock and is not modelled; `finished` is an
  optional integer.
- Floating-point columns are `real`, so NaN, rounding and BigInteger width are not modelled.
  Integers are unbounded.
- The relationship collections that `clone` iterates have no defined order. The model visits
  rows in ascending original id; the rewrite loops stop at the smallest offending original id.
- Depots, plans, areas, processes, lines, routes, stations and trips also point at a scenario.
  The clone of this version copies none of them, and the delete cascade is modelled only for
  the three tables the scenario owns. tests/test_network.py:200-215 expects trips to be cloned,
  which this `clone` does not do.
- General.Store.AddScenario, General.Store.AddBatteryType, General.Store.AddVehicleType,
  General.Store.AddVehicle: the id sequence advances only on success. In PostgreSQL a failed
  INSERT has already taken its `nextval`, so ids after a failed insert differ from the model's.
- General.Store.Clone: on a KeyError the partially copied rows are left in the store, and the
  contract says nothing about that state. The source leaves it to the caller's rollback.
- Depot, Area, Process and association rows are modelled only as values for their constraints.
  Their tables are not part of the store.
- The Area, Process and association-table constraints are checked row by row. Foreign keys of
  the association tables are sets given to the insert.
- The schedule validators read a trip's route as a value. The ORM loading of
  `route.assoc_route_stations` is not modelled.

## Findings

| source | as written | input that shows it | evidently intended | confidence | as-written member | corrected member |
|---|---|---|---|---|---|---|
| eflips/model/depot.py:125-130 | `(type = 'LINE' AND row_count > 0) OR ...` lets a NULL row count through, because the clause is UNKNOWN rather than FALSE | Area with type LINE, row_count NULL, capacity 6: both checks are UNKNOWN and the row is stored | a line area must have a positive row count (`row_count IS NOT NULL AND row_count > 0`) | not executed; follows from SQL three-valued logic | Depot.LineAreaWithoutRowCount | Depot.InsertAreaCorrectedIff |
| tests/test_depot.py:41-67 | the invalid areas are built with `depot=None` and no vehicle type, so each INSERT fails on NOT NULL `depot_id`, which PostgreSQL tests before any CHECK; the `IntegrityError` the test expects comes from there | an area of type LINE with 2 rows and capacity 6, admitted by both checks, built the same way raises the same `IntegrityError`: the tests pass whatever the CHECKs say | give each invalid area a depot and a vehicle type, so that `capacity_validity_check` is what rejects it | not executed | Depot.AreaTestsFailBeforeChecks | Depot.AreaTestsWithDepotFailOnCapacity |
| eflips/model/depot.py:197-205 | the duration/power check is one four-way OR, so one NULL or non-negative column admits the row | Process with duration -1 and electric_power NULL; or duration -5 and power 3 | duration NULL or ≥ 0, AND independently power NULL or ≥ 0 | not executed | Depot.ProcessCheckAdmitsNegativeDuration | Depot.IntendedProcessAcceptedIff |
