/**
 * Scenarios and the rows they own: vehicle types, battery types and
 * vehicles.  The CHECK constraints of a vehicle type, the scenario store
 * with its id sequences, `Scenario.clone` (copy every row of a scenario under
 * fresh ids, then rewrite the foreign keys through the original-to-copy id
 * maps) and the cascade delete of a scenario.
 */
module General {
  import opened Wrappers
  import opened SqlLogic

  /** Primary keys come from per-table sequences that start at 1. */
  type Id = int

  /** JSONB payloads are opaque; they are only copied. */
  type Json = string

  // ----- rows -----

  datatype ScenarioRow = ScenarioRow(
    parentId: Option<Id>,
    name: string,
    nameShort: Option<string>,
    simbaOptions: Option<Json>,
    eflipsDepotOptions: Option<Json>,
    finished: Option<int>)

  datatype VehicleTypeRow = VehicleTypeRow(
    scenarioId: Id,
    batteryTypeId: Option<Id>,
    name: string,
    nameShort: Option<string>,
    batteryCapacity: real,
    batteryCapacityReserve: Option<real>,
    chargingEfficiency: real,
    opportunityChargeCapable: bool,
    minimumChargingPower: real,
    emptyMass: Option<real>)

  datatype BatteryTypeRow = BatteryTypeRow(scenarioId: Id, specificMass: real)

  datatype VehicleRow = VehicleRow(scenarioId: Id, vehicleTypeId: Id, name: string, nameShort: Option<string>)

  // ----- VehicleType CHECK constraints -----

  /** Server defaults of `charging_efficiency` and `minimum_charging_power`. */
  const DefaultChargingEfficiency: real := 0.95
  const DefaultMinimumChargingPower: real := 0.0

  function BatteryCapacityCheck(v: VehicleTypeRow): Truth {
    FromBool(v.batteryCapacity > 0.0)
  }

  function BatteryCapacityReserveCheck(v: VehicleTypeRow): Truth {
    Compare(v.batteryCapacityReserve, (x: real) => x >= 0.0)
  }

  function ChargingEfficiencyLowerCheck(v: VehicleTypeRow): Truth {
    FromBool(v.chargingEfficiency > 0.0)
  }

  function ChargingEfficiencyUpperCheck(v: VehicleTypeRow): Truth {
    FromBool(v.chargingEfficiency <= 1.0)
  }

  function MinimumChargingPowerCheck(v: VehicleTypeRow): Truth {
    FromBool(v.minimumChargingPower >= 0.0)
  }

  function EmptyMassCheck(v: VehicleTypeRow): Truth {
    Compare(v.emptyMass, (x: real) => x > 0.0)
  }

  /** The database accepts the row: no CHECK constraint evaluates to FALSE. */
  predicate VehicleTypeAccepted(v: VehicleTypeRow) {
    Admits(BatteryCapacityCheck(v)) && Admits(BatteryCapacityReserveCheck(v)) &&
    Admits(ChargingEfficiencyLowerCheck(v)) && Admits(ChargingEfficiencyUpperCheck(v)) &&
    Admits(MinimumChargingPowerCheck(v)) && Admits(EmptyMassCheck(v))
  }

  /**
   * The accepted rows: positive capacity, a reserve that is NULL or not
   * negative, an efficiency in (0, 1], a minimum power that is not negative,
   * and an empty mass that is NULL or positive.
   */
  lemma VehicleTypeAcceptedIff(v: VehicleTypeRow)
    ensures VehicleTypeAccepted(v) <==>
      v.batteryCapacity > 0.0 &&
      (v.batteryCapacityReserve.None? || v.batteryCapacityReserve.value >= 0.0) &&
      0.0 < v.chargingEfficiency <= 1.0 &&
      v.minimumChargingPower >= 0.0 &&
      (v.emptyMass.None? || v.emptyMass.value > 0.0)
  {
  }

  /** A vehicle type given only its required columns; the rest take their defaults. */
  function MinimalVehicleType(scenarioId: Id, name: string, batteryCapacity: real, opportunityChargeCapable: bool): (v: VehicleTypeRow)
    ensures v.scenarioId == scenarioId && v.name == name && v.batteryCapacity == batteryCapacity
    ensures v.opportunityChargeCapable == opportunityChargeCapable
    ensures v.batteryTypeId.None? && v.nameShort.None? && v.batteryCapacityReserve.None? && v.emptyMass.None?
    ensures v.chargingEfficiency == DefaultChargingEfficiency && v.minimumChargingPower == DefaultMinimumChargingPower
  {
    VehicleTypeRow(scenarioId, None, name, None, batteryCapacity, None,
      DefaultChargingEfficiency, opportunityChargeCapable, DefaultMinimumChargingPower, None)
  }

  /** With the defaults, only the battery capacity decides. */
  lemma MinimalVehicleTypeAcceptedIff(scenarioId: Id, name: string, batteryCapacity: real, occ: bool)
    ensures VehicleTypeAccepted(MinimalVehicleType(scenarioId, name, batteryCapacity, occ)) <==> batteryCapacity > 0.0
  {
  }

  /** The constraint tests of the vehicle type table, on a sample row of capacity 100. */
  lemma VehicleTypeExamples()
    ensures var v := MinimalVehicleType(1, "Test Vehicle Type", 100.0, true);
      VehicleTypeAccepted(v) &&
      !VehicleTypeAccepted(v.(batteryCapacity := -100.0)) &&
      !VehicleTypeAccepted(v.(batteryCapacity := 0.0)) &&
      !VehicleTypeAccepted(v.(batteryCapacityReserve := Some(-10.0))) &&
      VehicleTypeAccepted(v.(batteryCapacityReserve := Some(0.0))) &&
      !VehicleTypeAccepted(v.(chargingEfficiency := -1.0)) &&
      !VehicleTypeAccepted(v.(chargingEfficiency := 0.0)) &&
      !VehicleTypeAccepted(v.(chargingEfficiency := 1.1)) &&
      !VehicleTypeAccepted(v.(minimumChargingPower := -10.0)) &&
      !VehicleTypeAccepted(v.(emptyMass := Some(-100.0))) &&
      !VehicleTypeAccepted(v.(emptyMass := Some(0.0))) &&
      VehicleTypeAccepted(v.(batteryTypeId := Some(1), batteryCapacityReserve := Some(10.0), chargingEfficiency := 0.9,
        minimumChargingPower := 10.0, emptyMass := Some(12000.0)))
  {
  }


  // ----- the tables -----

  datatype Tables = Tables(
    scenarios: map<Id, ScenarioRow>,
    vehicleTypes: map<Id, VehicleTypeRow>,
    batteryTypes: map<Id, BatteryTypeRow>,
    vehicles: map<Id, VehicleRow>)

  /** Every foreign key names an existing row. */
  ghost predicate ReferencesExist(t: Tables) {
    (forall k :: k in t.scenarios && t.scenarios[k].parentId.Some? ==> t.scenarios[k].parentId.value in t.scenarios) &&
    (forall k :: k in t.vehicleTypes ==> t.vehicleTypes[k].scenarioId in t.scenarios) &&
    (forall k :: k in t.vehicleTypes && t.vehicleTypes[k].batteryTypeId.Some? ==>
      t.vehicleTypes[k].batteryTypeId.value in t.batteryTypes) &&
    (forall k :: k in t.batteryTypes ==> t.batteryTypes[k].scenarioId in t.scenarios) &&
    (forall k :: k in t.vehicles ==> t.vehicles[k].scenarioId in t.scenarios) &&
    (forall k :: k in t.vehicles ==> t.vehicles[k].vehicleTypeId in t.vehicleTypes)
  }

  /** Every vehicle type row meets its CHECK constraints. */
  ghost predicate ChecksHold(t: Tables) {
    forall k :: k in t.vehicleTypes ==> VehicleTypeAccepted(t.vehicleTypes[k])
  }

  /** `Scenario.vehicle_types`: the ids of the vehicle types of scenario `s`. */
  function VehicleTypesOf(vts: map<Id, VehicleTypeRow>, s: Id): set<Id> {
    set k | k in vts && vts[k].scenarioId == s
  }

  /** `Scenario.battery_types`. */
  function BatteryTypesOf(bts: map<Id, BatteryTypeRow>, s: Id): set<Id> {
    set k | k in bts && bts[k].scenarioId == s
  }

  /** `Scenario.vehicles`. */
  function VehiclesOf(vs: map<Id, VehicleRow>, s: Id): set<Id> {
    set k | k in vs && vs[k].scenarioId == s
  }

  /** The battery type of every vehicle type of `s`, when set, belongs to `s`. */
  ghost predicate BatteryRefsInside(t: Tables, s: Id) {
    forall k :: k in t.vehicleTypes && t.vehicleTypes[k].scenarioId == s && t.vehicleTypes[k].batteryTypeId.Some? ==>
      OwnedBatteryType(t, t.vehicleTypes[k].batteryTypeId.value, s)
  }

  ghost predicate OwnedBatteryType(t: Tables, b: Id, s: Id) {
    b in t.batteryTypes && t.batteryTypes[b].scenarioId == s
  }

  /** The vehicle type of every vehicle of `s` belongs to `s`. */
  ghost predicate VehicleTypeRefsInside(t: Tables, s: Id) {
    forall k :: k in t.vehicles && t.vehicles[k].scenarioId == s ==> OwnedVehicleType(t, t.vehicles[k].vehicleTypeId, s)
  }

  ghost predicate OwnedVehicleType(t: Tables, v: Id, s: Id) {
    v in t.vehicleTypes && t.vehicleTypes[v].scenarioId == s
  }

  /** Every foreign key between the rows of `s` stays inside `s`. */
  ghost predicate SelfContained(t: Tables, s: Id) {
    BatteryRefsInside(t, s) && VehicleTypeRefsInside(t, s)
  }

  // ----- clone -----

  /** The ids that `m` maps to. */
  ghost function Image(m: map<Id, Id>): set<Id> {
    set k | k in m :: m[k]
  }

  /** A key under which `m` holds the value `y`. */
  lemma SourceOf(m: map<Id, Id>, y: Id) returns (a: Id)
    requires y in Image(m)
    ensures a in m && m[a] == y
  {
    a :| a in m && m[a] == y;
  }

  ghost predicate Injective(m: map<Id, Id>) {
    forall a, b :: a in m && b in m && a != b ==> m[a] != m[b]
  }

  /** Adding a key with a value not yet used adds one value. */
  lemma FreshEntry(m: map<Id, Id>, k: Id, id: Id)
    requires k !in m && id !in Image(m)
    ensures Image(m[k := id]) == Image(m) + {id}
    ensures |Image(m[k := id])| == |Image(m)| + 1
    ensures |m[k := id]| == |m| + 1
  {
    var n := m[k := id];
    forall y | y in Image(m) ensures y in Image(n) {
      var a := SourceOf(m, y);
      assert n[a] == y;
    }
    assert n[k] == id;
    forall y | y in Image(n) ensures y in Image(m) + {id} {
      var a := SourceOf(n, y);
      if a != k {
        assert m[a] == y;
      }
    }
  }

  /**
   * `m` maps each id of `originals`, and nothing else, to its own new id;
   * no new id is in `taken`, and there are as many new ids as originals.
   */
  ghost predicate IsCopyMap(m: map<Id, Id>, originals: set<Id>, taken: set<Id>) {
    (forall k :: k in m <==> k in originals) && Injective(m) && |Image(m)| == |m| &&
    forall k :: k in m ==> m[k] !in taken
  }

  /** No new id of a copy map is taken. */
  lemma CopiesAreNew(m: map<Id, Id>, originals: set<Id>, taken: set<Id>)
    requires IsCopyMap(m, originals, taken)
    ensures forall y :: y in Image(m) ==> y !in taken
  {
    forall y | y in Image(m) ensures y !in taken {
      var a := SourceOf(m, y);
    }
  }

  /**
   * Table `cur` is table `orig` with, for every key `k` of `copies`, the row
   * `copies[k]` added under the new id `m[k]`; the rows of `orig` are kept.
   */
  ghost predicate TableCopied<R>(orig: map<Id, R>, copies: map<Id, R>, cur: map<Id, R>, m: map<Id, Id>) {
    IsCopyMap(m, copies.Keys, orig.Keys) &&
    (forall k :: k in cur <==> k in orig || k in Image(m)) &&
    (forall k :: k in orig ==> cur[k] == orig[k]) &&
    (forall k :: k in m ==> m[k] in cur && cur[m[k]] == copies[k])
  }

  /** A copied table gains exactly one row per copy. */
  lemma TableCopiedCard<R>(orig: map<Id, R>, copies: map<Id, R>, cur: map<Id, R>, m: map<Id, Id>)
    requires TableCopied(orig, copies, cur, m)
    ensures cur.Keys == orig.Keys + Image(m)
    ensures |cur| == |orig| + |copies|
  {
    CopiesAreNew(m, copies.Keys, orig.Keys);
    DisjointCard(orig.Keys, Image(m));
    CopiedKeys(orig, copies, cur, m);
  }

  /** The keys of a copied table: the original keys and the new ids; one new id per copy. */
  lemma CopiedKeys<R>(orig: map<Id, R>, copies: map<Id, R>, cur: map<Id, R>, m: map<Id, Id>)
    requires forall k :: k in cur <==> k in orig || k in Image(m)
    requires forall k :: k in m <==> k in copies
    ensures cur.Keys == orig.Keys + Image(m)
    ensures m.Keys == copies.Keys && |m| == |copies|
  {
    forall k | k in cur.Keys ensures k in orig.Keys + Image(m) {
    }
    forall k | k in orig.Keys + Image(m) ensures k in cur.Keys {
    }
    forall k | k in m.Keys ensures k in copies.Keys {
    }
    forall k | k in copies.Keys ensures k in m.Keys {
    }
    assert m.Keys == copies.Keys;
  }

  /** Two sets with no common element: the union has the sum of the sizes. */
  lemma DisjointCard(a: set<Id>, b: set<Id>)
    requires forall x :: x in a ==> x !in b
    ensures |a + b| == |a| + |b|
  {
    assert a * b == {} by {
      forall x | x in a * b ensures false {
      }
    }
  }

  /**
   * The state of a copy loop that has looked at the ids below `i`: every
   * original row below `i` that is to be copied has been added under the
   * next free id and recorded in `m`.
   */
  ghost predicate CopyInProgress<R>(orig: map<Id, R>, copies: map<Id, R>, cur: map<Id, R>, m: map<Id, Id>, i: Id, split: Id, next: Id) {
    0 < split <= next && IdsBelow(orig, split) && (forall k :: k in copies ==> k in orig) &&
    MapInProgress(copies, m, i, split, next) && TableInProgress(orig, copies, cur, m, next)
  }

  /** The id map of a copy loop: the copies below `i`, each under its own id in `split..next`. */
  ghost predicate MapInProgress<R>(copies: map<Id, R>, m: map<Id, Id>, i: Id, split: Id, next: Id) {
    (forall k :: k in m <==> k in copies && k < i) &&
    Injective(m) && |Image(m)| == |m| &&
    (forall k :: k in m ==> split <= m[k] < next)
  }

  /** The table of a copy loop: the original rows, and each copy so far under its new id. */
  ghost predicate TableInProgress<R>(orig: map<Id, R>, copies: map<Id, R>, cur: map<Id, R>, m: map<Id, Id>, next: Id) {
    (forall k :: k in cur <==> k in orig || k in Image(m)) &&
    IdsBelow(cur, next) &&
    (forall k :: k in orig ==> cur[k] == orig[k]) &&
    (forall k :: k in m ==> k in copies && m[k] in cur && cur[m[k]] == copies[k])
  }

  lemma CopyStart<R>(orig: map<Id, R>, copies: map<Id, R>, split: Id)
    requires 0 < split && IdsBelow(orig, split) && forall k :: k in copies ==> k in orig
    ensures CopyInProgress(orig, copies, orig, map[], 1, split, split)
  {
    assert Image(map[]) == {} by {
      forall y | y in Image(map[]) ensures false {
        var a := SourceOf(map[], y);
      }
    }
  }

  /** Copying the row with id `i` under the next free id keeps the loop state. */
  lemma CopyStep<R>(orig: map<Id, R>, copies: map<Id, R>, cur: map<Id, R>, m: map<Id, Id>,
                    cur': map<Id, R>, m': map<Id, Id>, i: Id, split: Id, next: Id)
    requires CopyInProgress(orig, copies, cur, m, i, split, next) && i in copies
    requires cur' == cur[next := copies[i]] && m' == m[i := next]
    ensures CopyInProgress(orig, copies, cur', m', i + 1, split, next + 1)
  {
    ExtendCopyMap(copies, m, m', i, split, next);
    ExtendTable(orig, copies, cur, m, cur', m', i, next);
  }

  /** The table side of `CopyStep`: the new row sits under `next`, every other row stays. */
  lemma ExtendTable<R>(orig: map<Id, R>, copies: map<Id, R>, cur: map<Id, R>, m: map<Id, Id>,
                       cur': map<Id, R>, m': map<Id, Id>, i: Id, next: Id)
    requires TableInProgress(orig, copies, cur, m, next) && i in copies && i !in m && 0 < next && next !in orig
    requires cur' == cur[next := copies[i]] && m' == m[i := next] && Image(m') == Image(m) + {next}
    ensures TableInProgress(orig, copies, cur', m', next + 1)
  {
    forall k | k in cur' ensures k in orig || k in Image(m') {
    }
    forall k | k in orig || k in Image(m') ensures k in cur' {
    }
    forall k | k in m' ensures k in copies && m'[k] in cur' && cur'[m'[k]] == copies[k] {
    }
  }

  /** Recording one more copy under the next free id keeps a copy map one-to-one. */
  lemma ExtendCopyMap<R>(copies: map<Id, R>, m: map<Id, Id>, m': map<Id, Id>, i: Id, split: Id, next: Id)
    requires MapInProgress(copies, m, i, split, next) && i in copies && m' == m[i := next] && split <= next
    ensures MapInProgress(copies, m', i + 1, split, next + 1)
    ensures i !in m && Image(m') == Image(m) + {next}
  {
    assert next !in Image(m) by {
      forall y | y in Image(m) ensures y != next {
        var a := SourceOf(m, y);
      }
    }
    FreshEntry(m, i, next);
  }

  /** Passing over an id that is not to be copied keeps the loop state. */
  lemma CopySkip<R>(orig: map<Id, R>, copies: map<Id, R>, cur: map<Id, R>, m: map<Id, Id>, i: Id, split: Id, next: Id)
    requires CopyInProgress(orig, copies, cur, m, i, split, next) && i !in copies
    ensures CopyInProgress(orig, copies, cur, m, i + 1, split, next)
  {
  }

  /** Once every original id has been looked at, the table holds all the copies. */
  lemma CopyDone<R>(orig: map<Id, R>, copies: map<Id, R>, cur: map<Id, R>, m: map<Id, Id>, split: Id, next: Id)
    requires CopyInProgress(orig, copies, cur, m, split, split, next)
    ensures TableCopied(orig, copies, cur, m)
    ensures forall k :: k in m ==> 0 < k < split <= m[k] && m[k] in cur
  {
  }

  /** An optional reference rewritten through `m`, when `m` has it. */
  function MapRef(m: map<Id, Id>, r: Option<Id>): (q: Option<Id>)
    ensures q.None? <==> r.None?
    ensures r.Some? && r.value in m ==> q == Some(m[r.value])
  {
    if r.Some? && r.value in m then Some(m[r.value]) else r
  }

  /** A reference rewritten through `m`, when `m` has it. */
  function Remap(m: map<Id, Id>, r: Id): (q: Id)
    ensures r in m ==> q == m[r]
  {
    if r in m then m[r] else r
  }

  /** The vehicle type with its battery type rewritten to the copy. */
  function Retarget(v: VehicleTypeRow, btMap: map<Id, Id>): (w: VehicleTypeRow)
    ensures w == v.(batteryTypeId := w.batteryTypeId)
    ensures v.batteryTypeId.Some? && v.batteryTypeId.value in btMap ==> w.batteryTypeId == Some(btMap[v.batteryTypeId.value])
    ensures v.batteryTypeId.None? ==> w == v
  {
    v.(batteryTypeId := MapRef(btMap, v.batteryTypeId))
  }

  /** The new scenario: the parent is the original; `created` and `finished` are not copied. */
  function CopyScenario(row: ScenarioRow, s: Id): (c: ScenarioRow)
    ensures c.parentId == Some(s) && c.finished.None?
    ensures c.name == row.name && c.nameShort == row.nameShort
    ensures c.simbaOptions == row.simbaOptions && c.eflipsDepotOptions == row.eflipsDepotOptions
  {
    ScenarioRow(Some(s), row.name, row.nameShort, row.simbaOptions, row.eflipsDepotOptions, None)
  }

  /** The vehicle types of `s`, attached to `c`. */
  function VehicleTypeCopies(vts: map<Id, VehicleTypeRow>, s: Id, c: Id): map<Id, VehicleTypeRow> {
    map k | k in vts && vts[k].scenarioId == s :: vts[k].(scenarioId := c)
  }

  /** The battery types of `s`, attached to `c`. */
  function BatteryTypeCopies(bts: map<Id, BatteryTypeRow>, s: Id, c: Id): map<Id, BatteryTypeRow> {
    map k | k in bts && bts[k].scenarioId == s :: bts[k].(scenarioId := c)
  }

  /** The vehicles of `s`, attached to `c`. */
  function VehicleCopies(vs: map<Id, VehicleRow>, s: Id, c: Id): map<Id, VehicleRow> {
    map k | k in vs && vs[k].scenarioId == s :: vs[k].(scenarioId := c)
  }

  /** Every vehicle type with its battery type rewritten through `btMap`. */
  function RetargetAll(vts: map<Id, VehicleTypeRow>, btMap: map<Id, Id>): map<Id, VehicleTypeRow> {
    map k | k in vts :: Retarget(vts[k], btMap)
  }

  /** Every vehicle with its vehicle type rewritten through `vtMap`. */
  function RemapAll(vs: map<Id, VehicleRow>, vtMap: map<Id, Id>): map<Id, VehicleRow> {
    map k | k in vs :: vs[k].(vehicleTypeId := Remap(vtMap, vs[k].vehicleTypeId))
  }

  /**
   * `u` is `t` with scenario `c` added as a copy of `s`, and a copy of every
   * vehicle type, battery type and vehicle of `s` added under the new ids in
   * `vtMap`, `btMap` and `vMap`, attached to `c`, with battery type and
   * vehicle type references rewritten to the copies.  The rows of `t` are kept.
   */
  ghost predicate IsCloneOf(t: Tables, u: Tables, s: Id, c: Id, vtMap: map<Id, Id>, btMap: map<Id, Id>, vMap: map<Id, Id>) {
    s in t.scenarios && c !in t.scenarios &&
    u.scenarios == t.scenarios[c := CopyScenario(t.scenarios[s], s)] &&
    TableCopied(t.vehicleTypes, RetargetAll(VehicleTypeCopies(t.vehicleTypes, s, c), btMap), u.vehicleTypes, vtMap) &&
    TableCopied(t.batteryTypes, BatteryTypeCopies(t.batteryTypes, s, c), u.batteryTypes, btMap) &&
    TableCopied(t.vehicles, RemapAll(VehicleCopies(t.vehicles, s, c), vtMap), u.vehicles, vMap)
  }

  /**
   * `mid` is `t` with scenario `c` added as a copy of `s` and the rows of
   * `s` copied and attached to `c`, their references not yet rewritten.
   */
  ghost predicate CopiesAdded(t: Tables, mid: Tables, s: Id, c: Id, vtMap: map<Id, Id>, btMap: map<Id, Id>, vMap: map<Id, Id>) {
    s in t.scenarios && c !in t.scenarios &&
    mid.scenarios == t.scenarios[c := CopyScenario(t.scenarios[s], s)] &&
    TableCopied(t.vehicleTypes, VehicleTypeCopies(t.vehicleTypes, s, c), mid.vehicleTypes, vtMap) &&
    TableCopied(t.batteryTypes, BatteryTypeCopies(t.batteryTypes, s, c), mid.batteryTypes, btMap) &&
    TableCopied(t.vehicles, VehicleCopies(t.vehicles, s, c), mid.vehicles, vMap)
  }

  /** In the copied vehicle type table, the rows of `c` are exactly the copies. */
  lemma VehicleTypeCopiesOwned(orig: map<Id, VehicleTypeRow>, cur: map<Id, VehicleTypeRow>, m: map<Id, Id>, btMap: map<Id, Id>, s: Id, c: Id)
    requires TableCopied(orig, RetargetAll(VehicleTypeCopies(orig, s, c), btMap), cur, m)
    requires forall k :: k in orig ==> orig[k].scenarioId != c
    ensures forall k :: k in cur ==> (cur[k].scenarioId == c <==> k in Image(m))
    ensures VehicleTypesOf(cur, c) == Image(m)
    ensures m.Keys == VehicleTypesOf(orig, s)
  {
    var copies := RetargetAll(VehicleTypeCopies(orig, s, c), btMap);
    CopiesAreNew(m, copies.Keys, orig.Keys);
    forall k | k in cur ensures cur[k].scenarioId == c <==> k in Image(m) {
      if k !in orig {
        var a := SourceOf(m, k);
      }
    }
    forall k | k in Image(m) ensures k in VehicleTypesOf(cur, c) {
      var a := SourceOf(m, k);
    }
    forall k | k in m.Keys ensures k in VehicleTypesOf(orig, s) {
    }
    forall k | k in VehicleTypesOf(orig, s) ensures k in m.Keys {
    }
  }

  /** In the copied battery type table, the rows of `c` are exactly the copies. */
  lemma BatteryTypeCopiesOwned(orig: map<Id, BatteryTypeRow>, cur: map<Id, BatteryTypeRow>, m: map<Id, Id>, s: Id, c: Id)
    requires TableCopied(orig, BatteryTypeCopies(orig, s, c), cur, m)
    requires forall k :: k in orig ==> orig[k].scenarioId != c
    ensures forall k :: k in cur ==> (cur[k].scenarioId == c <==> k in Image(m))
    ensures BatteryTypesOf(cur, c) == Image(m)
    ensures m.Keys == BatteryTypesOf(orig, s)
  {
    CopiesAreNew(m, BatteryTypeCopies(orig, s, c).Keys, orig.Keys);
    forall k | k in cur ensures cur[k].scenarioId == c <==> k in Image(m) {
      if k !in orig {
        var a := SourceOf(m, k);
      }
    }
    forall k | k in Image(m) ensures k in BatteryTypesOf(cur, c) {
      var a := SourceOf(m, k);
    }
    forall k | k in m.Keys ensures k in BatteryTypesOf(orig, s) {
    }
    forall k | k in BatteryTypesOf(orig, s) ensures k in m.Keys {
    }
  }

  /** In the copied vehicle table, the rows of `c` are exactly the copies. */
  lemma VehicleCopiesOwned(orig: map<Id, VehicleRow>, cur: map<Id, VehicleRow>, m: map<Id, Id>, vtMap: map<Id, Id>, s: Id, c: Id)
    requires TableCopied(orig, RemapAll(VehicleCopies(orig, s, c), vtMap), cur, m)
    requires forall k :: k in orig ==> orig[k].scenarioId != c
    ensures forall k :: k in cur ==> (cur[k].scenarioId == c <==> k in Image(m))
    ensures VehiclesOf(cur, c) == Image(m)
    ensures m.Keys == VehiclesOf(orig, s)
  {
    var copies := RemapAll(VehicleCopies(orig, s, c), vtMap);
    CopiesAreNew(m, copies.Keys, orig.Keys);
    forall k | k in cur ensures cur[k].scenarioId == c <==> k in Image(m) {
      if k !in orig {
        var a := SourceOf(m, k);
      }
    }
    forall k | k in Image(m) ensures k in VehiclesOf(cur, c) {
      var a := SourceOf(m, k);
    }
    forall k | k in m.Keys ensures k in VehiclesOf(orig, s) {
    }
    forall k | k in VehiclesOf(orig, s) ensures k in m.Keys {
    }
  }

  /**
   * In a clone, a row belongs to the new scenario exactly when it is a copy,
   * the copies are one per row of the original scenario, and the original
   * rows are exactly the rows that are not copies.
   */
  lemma CopiesOfClone(t: Tables, u: Tables, s: Id, c: Id, vtMap: map<Id, Id>, btMap: map<Id, Id>, vMap: map<Id, Id>)
    requires ReferencesExist(t) && IsCloneOf(t, u, s, c, vtMap, btMap, vMap)
    ensures VehicleTypesOf(u.vehicleTypes, c) == Image(vtMap) && vtMap.Keys == VehicleTypesOf(t.vehicleTypes, s)
    ensures BatteryTypesOf(u.batteryTypes, c) == Image(btMap) && btMap.Keys == BatteryTypesOf(t.batteryTypes, s)
    ensures VehiclesOf(u.vehicles, c) == Image(vMap) && vMap.Keys == VehiclesOf(t.vehicles, s)
    ensures forall k :: k in u.vehicleTypes ==> (u.vehicleTypes[k].scenarioId == c <==> k !in t.vehicleTypes)
    ensures forall k :: k in u.batteryTypes ==> (u.batteryTypes[k].scenarioId == c <==> k !in t.batteryTypes)
    ensures forall k :: k in u.vehicles ==> (u.vehicles[k].scenarioId == c <==> k !in t.vehicles)
  {
    VehicleTypeCopiesOwned(t.vehicleTypes, u.vehicleTypes, vtMap, btMap, s, c);
    BatteryTypeCopiesOwned(t.batteryTypes, u.batteryTypes, btMap, s, c);
    VehicleCopiesOwned(t.vehicles, u.vehicles, vMap, vtMap, s, c);
    CopiesAreNew(vtMap, vtMap.Keys, t.vehicleTypes.Keys);
    CopiesAreNew(btMap, btMap.Keys, t.batteryTypes.Keys);
    CopiesAreNew(vMap, vMap.Keys, t.vehicles.Keys);
  }

  /** A copied vehicle type keeps meeting its CHECK constraints and refers to the copy of its battery type. */
  lemma CopiedVehicleTypesConsistent(t: Tables, u: Tables, s: Id, c: Id, vtMap: map<Id, Id>, btMap: map<Id, Id>, vMap: map<Id, Id>)
    requires ReferencesExist(t) && ChecksHold(t) && BatteryRefsInside(t, s)
    requires IsCloneOf(t, u, s, c, vtMap, btMap, vMap)
    ensures ChecksHold(u) && BatteryRefsInside(u, c)
    ensures forall k :: k in u.vehicleTypes ==> u.vehicleTypes[k].scenarioId in u.scenarios
    ensures forall k :: k in u.vehicleTypes && u.vehicleTypes[k].batteryTypeId.Some? ==>
      u.vehicleTypes[k].batteryTypeId.value in u.batteryTypes
  {
    CopiesOfClone(t, u, s, c, vtMap, btMap, vMap);
    TableCopiedCard(t.batteryTypes, BatteryTypeCopies(t.batteryTypes, s, c), u.batteryTypes, btMap);
    forall k | k in u.vehicleTypes
      ensures VehicleTypeAccepted(u.vehicleTypes[k]) && u.vehicleTypes[k].scenarioId in u.scenarios
      ensures u.vehicleTypes[k].batteryTypeId.Some? ==> u.vehicleTypes[k].batteryTypeId.value in u.batteryTypes
      ensures u.vehicleTypes[k].scenarioId == c && u.vehicleTypes[k].batteryTypeId.Some? ==>
        OwnedBatteryType(u, u.vehicleTypes[k].batteryTypeId.value, c)
    {
      if k in t.vehicleTypes {
        assert u.vehicleTypes[k] == t.vehicleTypes[k];
        var b := t.vehicleTypes[k].batteryTypeId;
        if b.Some? {
          assert b.value in t.batteryTypes;
          assert b.value in u.batteryTypes;
        }
      } else {
        var a := SourceOf(vtMap, k);
        var b := t.vehicleTypes[a].batteryTypeId;
        assert u.vehicleTypes[k] == Retarget(t.vehicleTypes[a].(scenarioId := c), btMap);
        if b.Some? {
          assert b.value in btMap;
          assert u.vehicleTypes[k].batteryTypeId == Some(btMap[b.value]);
          assert btMap[b.value] in u.batteryTypes;
        }
      }
    }
  }

  /** A copied vehicle refers to the copy of its vehicle type. */
  lemma CopiedVehiclesConsistent(t: Tables, u: Tables, s: Id, c: Id, vtMap: map<Id, Id>, btMap: map<Id, Id>, vMap: map<Id, Id>)
    requires ReferencesExist(t) && VehicleTypeRefsInside(t, s)
    requires IsCloneOf(t, u, s, c, vtMap, btMap, vMap)
    ensures VehicleTypeRefsInside(u, c)
    ensures forall k :: k in u.vehicles ==> u.vehicles[k].scenarioId in u.scenarios && u.vehicles[k].vehicleTypeId in u.vehicleTypes
  {
    CopiesOfClone(t, u, s, c, vtMap, btMap, vMap);
    forall k | k in u.vehicles
      ensures u.vehicles[k].scenarioId in u.scenarios && u.vehicles[k].vehicleTypeId in u.vehicleTypes
      ensures u.vehicles[k].scenarioId == c ==> OwnedVehicleType(u, u.vehicles[k].vehicleTypeId, c)
    {
      if k !in t.vehicles {
        var a := SourceOf(vMap, k);
        var v := t.vehicles[a].vehicleTypeId;
        assert v in vtMap;
        assert vtMap[v] in u.vehicleTypes;
      }
    }
  }

  /**
   * The copy of a self-contained scenario is self-contained, every foreign
   * key still names a row, and every vehicle type keeps meeting its CHECK
   * constraints.
   */
  lemma CloneIsConsistent(t: Tables, u: Tables, s: Id, c: Id, vtMap: map<Id, Id>, btMap: map<Id, Id>, vMap: map<Id, Id>)
    requires ReferencesExist(t) && ChecksHold(t) && SelfContained(t, s)
    requires IsCloneOf(t, u, s, c, vtMap, btMap, vMap)
    ensures ReferencesExist(u) && ChecksHold(u) && SelfContained(u, c)
  {
    CopiedVehicleTypesConsistent(t, u, s, c, vtMap, btMap, vMap);
    CopiedVehiclesConsistent(t, u, s, c, vtMap, btMap, vMap);
    BatteryTypeCopiesOwned(t.batteryTypes, u.batteryTypes, btMap, s, c);
    forall k | k in u.batteryTypes ensures u.batteryTypes[k].scenarioId in u.scenarios {
    }
  }

  /**
   * Both passes of `clone` done on top of the copies: the tables are a
   * clone, and they keep every foreign key and CHECK constraint.
   */
  lemma CloneAssembled(t: Tables, mid: Tables, u: Tables, s: Id, c: Id, vtMap: map<Id, Id>, btMap: map<Id, Id>, vMap: map<Id, Id>)
    requires ReferencesExist(t) && ChecksHold(t) && SelfContained(t, s)
    requires CopiesAdded(t, mid, s, c, vtMap, btMap, vMap)
    requires u.scenarios == mid.scenarios && u.batteryTypes == mid.batteryTypes
    requires TableCopied(t.vehicleTypes, RetargetAll(VehicleTypeCopies(t.vehicleTypes, s, c), btMap), u.vehicleTypes, vtMap)
    requires TableCopied(t.vehicles, RemapAll(VehicleCopies(t.vehicles, s, c), vtMap), u.vehicles, vMap)
    ensures IsCloneOf(t, u, s, c, vtMap, btMap, vMap)
    ensures ReferencesExist(u) && ChecksHold(u)
  {
    CloneIsConsistent(t, u, s, c, vtMap, btMap, vMap);
  }

  /**
   * A clone has as many rows of each kind as the original scenario, and each
   * table grows by the original's count.
   */
  lemma CloneCounts(t: Tables, u: Tables, s: Id, c: Id, vtMap: map<Id, Id>, btMap: map<Id, Id>, vMap: map<Id, Id>)
    requires ReferencesExist(t) && IsCloneOf(t, u, s, c, vtMap, btMap, vMap)
    ensures |VehicleTypesOf(u.vehicleTypes, c)| == |VehicleTypesOf(t.vehicleTypes, s)|
    ensures |BatteryTypesOf(u.batteryTypes, c)| == |BatteryTypesOf(t.batteryTypes, s)|
    ensures |VehiclesOf(u.vehicles, c)| == |VehiclesOf(t.vehicles, s)|
    ensures |u.scenarios| == |t.scenarios| + 1
    ensures |u.vehicleTypes| == |t.vehicleTypes| + |VehicleTypesOf(t.vehicleTypes, s)|
    ensures |u.batteryTypes| == |t.batteryTypes| + |BatteryTypesOf(t.batteryTypes, s)|
    ensures |u.vehicles| == |t.vehicles| + |VehiclesOf(t.vehicles, s)|
  {
    CopiesOfClone(t, u, s, c, vtMap, btMap, vMap);
    TableCopiedCard(t.vehicleTypes, RetargetAll(VehicleTypeCopies(t.vehicleTypes, s, c), btMap), u.vehicleTypes, vtMap);
    TableCopiedCard(t.batteryTypes, BatteryTypeCopies(t.batteryTypes, s, c), u.batteryTypes, btMap);
    TableCopiedCard(t.vehicles, RemapAll(VehicleCopies(t.vehicles, s, c), vtMap), u.vehicles, vMap);
  }

  /** The rows of every scenario other than the copy are the same before and after a clone. */
  lemma CloneKeepsOtherScenarios(t: Tables, u: Tables, s: Id, c: Id, vtMap: map<Id, Id>, btMap: map<Id, Id>, vMap: map<Id, Id>, x: Id)
    requires ReferencesExist(t) && IsCloneOf(t, u, s, c, vtMap, btMap, vMap) && x != c
    ensures VehicleTypesOf(u.vehicleTypes, x) == VehicleTypesOf(t.vehicleTypes, x)
    ensures BatteryTypesOf(u.batteryTypes, x) == BatteryTypesOf(t.batteryTypes, x)
    ensures VehiclesOf(u.vehicles, x) == VehiclesOf(t.vehicles, x)
  {
    CopiesOfClone(t, u, s, c, vtMap, btMap, vMap);
    forall k | k in VehicleTypesOf(u.vehicleTypes, x) ensures k in VehicleTypesOf(t.vehicleTypes, x) {
    }
    forall k | k in VehicleTypesOf(t.vehicleTypes, x) ensures k in VehicleTypesOf(u.vehicleTypes, x) {
    }
    forall k | k in BatteryTypesOf(u.batteryTypes, x) ensures k in BatteryTypesOf(t.batteryTypes, x) {
    }
    forall k | k in BatteryTypesOf(t.batteryTypes, x) ensures k in BatteryTypesOf(u.batteryTypes, x) {
    }
    forall k | k in VehiclesOf(u.vehicles, x) ensures k in VehiclesOf(t.vehicles, x) {
    }
    forall k | k in VehiclesOf(t.vehicles, x) ensures k in VehiclesOf(u.vehicles, x) {
    }
  }

  /** Cloning the only scenario doubles every table. */
  lemma CloneOfOnlyScenarioDoubles(t: Tables, u: Tables, s: Id, c: Id, vtMap: map<Id, Id>, btMap: map<Id, Id>, vMap: map<Id, Id>)
    requires ReferencesExist(t) && IsCloneOf(t, u, s, c, vtMap, btMap, vMap)
    requires t.scenarios.Keys == {s}
    ensures |u.scenarios| == 2
    ensures |u.vehicleTypes| == 2 * |t.vehicleTypes|
    ensures |u.batteryTypes| == 2 * |t.batteryTypes|
    ensures |u.vehicles| == 2 * |t.vehicles|
  {
    CloneCounts(t, u, s, c, vtMap, btMap, vMap);
    assert |t.scenarios| == |t.scenarios.Keys|;
    forall k | k in t.vehicleTypes ensures k in VehicleTypesOf(t.vehicleTypes, s) {
      assert t.vehicleTypes[k].scenarioId in t.scenarios.Keys;
    }
    forall k | k in t.batteryTypes ensures k in BatteryTypesOf(t.batteryTypes, s) {
      assert t.batteryTypes[k].scenarioId in t.scenarios.Keys;
    }
    forall k | k in t.vehicles ensures k in VehiclesOf(t.vehicles, s) {
      assert t.vehicles[k].scenarioId in t.scenarios.Keys;
    }
    assert VehicleTypesOf(t.vehicleTypes, s) == t.vehicleTypes.Keys;
    assert BatteryTypesOf(t.batteryTypes, s) == t.batteryTypes.Keys;
    assert VehiclesOf(t.vehicles, s) == t.vehicles.Keys;
  }

  // ----- the steps of clone -----

  /**
   * The battery type pass of `clone` fails exactly when a vehicle type of
   * `s` has a battery type outside `s`, and then names that battery type.
   */
  lemma BatteryPassOutcome(t: Tables, s: Id, c: Id, midVt: map<Id, VehicleTypeRow>, midBt: map<Id, BatteryTypeRow>,
                           vtMap: map<Id, Id>, btMap: map<Id, Id>, missing: Option<Id>, culprit: Id)
    requires TableCopied(t.vehicleTypes, VehicleTypeCopies(t.vehicleTypes, s, c), midVt, vtMap)
    requires TableCopied(t.batteryTypes, BatteryTypeCopies(t.batteryTypes, s, c), midBt, btMap)
    requires forall k :: k in vtMap ==> vtMap[k] in midVt
    requires missing.None? <==>
      forall k :: k in vtMap && midVt[vtMap[k]].batteryTypeId.Some? ==> midVt[vtMap[k]].batteryTypeId.value in btMap
    requires missing.Some? ==> (missing.value !in btMap && culprit in vtMap && midVt[vtMap[culprit]].batteryTypeId == missing)
    ensures missing.None? <==> BatteryRefsInside(t, s)
    ensures missing.Some? ==> StrayBatteryRef(t, s, missing.value)
  {
    forall k | k in vtMap ensures midVt[vtMap[k]].batteryTypeId == t.vehicleTypes[k].batteryTypeId {
    }
    forall b ensures b in btMap <==> OwnedBatteryType(t, b, s) {
    }
    if missing.Some? {
      assert t.vehicleTypes[culprit].batteryTypeId == missing;
    }
  }

  /**
   * The vehicle type pass of `clone` fails exactly when a vehicle of `s`
   * has a vehicle type outside `s`, and then names that vehicle type.
   */
  lemma VehicleTypePassOutcome(t: Tables, s: Id, c: Id, midV: map<Id, VehicleRow>,
                               vMap: map<Id, Id>, vtMap: map<Id, Id>, missing: Option<Id>, culprit: Id)
    requires TableCopied(t.vehicles, VehicleCopies(t.vehicles, s, c), midV, vMap)
    requires forall k :: k in vtMap <==> OwnedVehicleType(t, k, s)
    requires forall k :: k in vMap ==> vMap[k] in midV
    requires missing.None? <==> forall k :: k in vMap ==> midV[vMap[k]].vehicleTypeId in vtMap
    requires missing.Some? ==> (missing.value !in vtMap && culprit in vMap && midV[vMap[culprit]].vehicleTypeId == missing.value)
    ensures missing.None? <==> VehicleTypeRefsInside(t, s)
    ensures missing.Some? ==> StrayVehicleTypeRef(t, s, missing.value)
  {
    forall k | k in vMap ensures midV[vMap[k]].vehicleTypeId == t.vehicles[k].vehicleTypeId {
    }
    if missing.Some? {
      assert t.vehicles[culprit].vehicleTypeId == missing.value;
    }
  }

  /** Rewriting the battery types of the copies, and nothing else, gives the retargeted copies. */
  lemma RetargetCopied(orig: map<Id, VehicleTypeRow>, copies: map<Id, VehicleTypeRow>, mid: map<Id, VehicleTypeRow>, cur: map<Id, VehicleTypeRow>,
                       m: map<Id, Id>, btMap: map<Id, Id>, split: Id)
    requires TableCopied(orig, copies, mid, m) && IdsBelow(orig, split)
    requires forall k :: k in cur <==> k in mid
    requires forall k :: k in m ==> m[k] in mid && m[k] in cur
    requires forall k :: k in cur && k < split ==> cur[k] == mid[k]
    requires forall k :: k in m ==> cur[m[k]] == Retarget(mid[m[k]], btMap)
    ensures TableCopied(orig, RetargetAll(copies, btMap), cur, m)
  {
  }

  /** Rewriting the vehicle types of the copies, and nothing else, gives the remapped copies. */
  lemma RemapCopied(orig: map<Id, VehicleRow>, copies: map<Id, VehicleRow>, mid: map<Id, VehicleRow>, cur: map<Id, VehicleRow>,
                    m: map<Id, Id>, vtMap: map<Id, Id>, split: Id)
    requires TableCopied(orig, copies, mid, m) && IdsBelow(orig, split)
    requires forall k :: k in cur <==> k in mid
    requires forall k :: k in m ==> m[k] in mid && m[k] in cur
    requires forall k :: k in cur && k < split ==> cur[k] == mid[k]
    requires forall k :: k in m ==> cur[m[k]] == mid[m[k]].(vehicleTypeId := Remap(vtMap, mid[m[k]].vehicleTypeId))
    ensures TableCopied(orig, RemapAll(copies, vtMap), cur, m)
  {
  }

  // ----- cascade delete -----

  datatype DeleteError = NoSuchScenario | VehicleTypeStillInUse

  /** A child scenario of a deleted scenario loses its parent. */
  function DetachParent(row: ScenarioRow, s: Id): (r: ScenarioRow)
    ensures r.parentId == if row.parentId == Some(s) then None else row.parentId
    ensures r == row.(parentId := r.parentId)
  {
    if row.parentId == Some(s) then row.(parentId := None) else row
  }

  /** A vehicle type whose battery type belongs to the deleted scenario `s` loses its battery type. */
  function DetachBatteryType(row: VehicleTypeRow, bts: map<Id, BatteryTypeRow>, s: Id): (r: VehicleTypeRow)
    ensures r.batteryTypeId ==
      if row.batteryTypeId.Some? && row.batteryTypeId.value in bts && bts[row.batteryTypeId.value].scenarioId == s
      then None else row.batteryTypeId
    ensures r == row.(batteryTypeId := r.batteryTypeId)
  {
    if row.batteryTypeId.Some? && row.batteryTypeId.value in bts && bts[row.batteryTypeId.value].scenarioId == s
    then row.(batteryTypeId := None) else row
  }

  /** Some vehicle of another scenario has a vehicle type of `s`. */
  predicate VehicleTypesUsedOutside(t: Tables, s: Id) {
    exists k :: k in t.vehicles && t.vehicles[k].scenarioId != s &&
      t.vehicles[k].vehicleTypeId in t.vehicleTypes && t.vehicleTypes[t.vehicles[k].vehicleTypeId].scenarioId == s
  }

  /**
   * Deleting scenario `s`: its vehicle types, battery types and vehicles go
   * with it; references to the deleted rows from nullable columns (a child
   * scenario's parent, another scenario's vehicle type's battery type) are set
   * to NULL; a vehicle of another scenario whose NOT NULL vehicle type would
   * be deleted makes the whole delete fail.
   */
  function DeleteScenario(t: Tables, s: Id): (r: Result<Tables, DeleteError>)
    ensures r.Err? <==> s !in t.scenarios || VehicleTypesUsedOutside(t, s)
  {
    if s !in t.scenarios then Err(NoSuchScenario)
    else if VehicleTypesUsedOutside(t, s) then Err(VehicleTypeStillInUse)
    else
      Ok(Tables(
        ScenariosAfterDelete(t.scenarios, s),
        VehicleTypesAfterDelete(t.vehicleTypes, t.batteryTypes, s),
        BatteryTypesAfterDelete(t.batteryTypes, s),
        VehiclesAfterDelete(t.vehicles, s)))
  }

  /** The scenario table after deleting `s`: `s` removed, its children detached. */
  function ScenariosAfterDelete(scs: map<Id, ScenarioRow>, s: Id): map<Id, ScenarioRow> {
    map k | k in scs && k != s :: DetachParent(scs[k], s)
  }

  /** The vehicle type table after deleting `s`: the rows of `s` removed, references to its battery types cleared. */
  function VehicleTypesAfterDelete(vts: map<Id, VehicleTypeRow>, bts: map<Id, BatteryTypeRow>, s: Id): map<Id, VehicleTypeRow> {
    map k | k in vts && vts[k].scenarioId != s :: DetachBatteryType(vts[k], bts, s)
  }

  /** The battery type table after deleting `s`: the rows of `s` removed. */
  function BatteryTypesAfterDelete(bts: map<Id, BatteryTypeRow>, s: Id): map<Id, BatteryTypeRow> {
    map k | k in bts && bts[k].scenarioId != s :: bts[k]
  }

  /** The vehicle table after deleting `s`: the rows of `s` removed. */
  function VehiclesAfterDelete(vs: map<Id, VehicleRow>, s: Id): map<Id, VehicleRow> {
    map k | k in vs && vs[k].scenarioId != s :: vs[k]
  }

  /**
   * A successful delete removes exactly the scenario and rows of `s`; every
   * other row stays, and only its references to deleted rows change (to NULL).
   */
  lemma DeleteRemovesExactlyTheScenario(t: Tables, s: Id)
    requires DeleteScenario(t, s).Ok?
    ensures var u := DeleteScenario(t, s).value;
      u.scenarios.Keys == t.scenarios.Keys - {s} &&
      u.vehicleTypes.Keys == t.vehicleTypes.Keys - VehicleTypesOf(t.vehicleTypes, s) &&
      u.batteryTypes.Keys == t.batteryTypes.Keys - BatteryTypesOf(t.batteryTypes, s) &&
      u.vehicles.Keys == t.vehicles.Keys - VehiclesOf(t.vehicles, s) &&
      (forall k :: k in u.vehicles ==> u.vehicles[k] == t.vehicles[k]) &&
      (forall k :: k in u.batteryTypes ==> u.batteryTypes[k] == t.batteryTypes[k]) &&
      (forall k :: k in u.vehicleTypes ==>
        u.vehicleTypes[k] == t.vehicleTypes[k].(batteryTypeId := u.vehicleTypes[k].batteryTypeId)) &&
      (forall k :: k in u.vehicleTypes && u.vehicleTypes[k].batteryTypeId != t.vehicleTypes[k].batteryTypeId ==>
        u.vehicleTypes[k].batteryTypeId.None? && OwnedBatteryType(t, t.vehicleTypes[k].batteryTypeId.value, s)) &&
      (forall k :: k in u.scenarios ==> u.scenarios[k] == t.scenarios[k].(parentId := u.scenarios[k].parentId)) &&
      (forall k :: k in u.scenarios && u.scenarios[k].parentId != t.scenarios[k].parentId ==>
        u.scenarios[k].parentId.None? && t.scenarios[k].parentId == Some(s))
  {
    var u := DeleteScenario(t, s).value;
    assert u.scenarios.Keys == t.scenarios.Keys - {s};
    assert u.vehicleTypes.Keys == t.vehicleTypes.Keys - VehicleTypesOf(t.vehicleTypes, s);
    assert u.batteryTypes.Keys == t.batteryTypes.Keys - BatteryTypesOf(t.batteryTypes, s);
    assert u.vehicles.Keys == t.vehicles.Keys - VehiclesOf(t.vehicles, s);
  }

  /** After a successful delete no row of `s` is left, and every other scenario keeps all its rows. */
  lemma DeleteKeepsOtherScenarios(t: Tables, s: Id, x: Id)
    requires DeleteScenario(t, s).Ok?
    ensures var u := DeleteScenario(t, s).value;
      VehicleTypesOf(u.vehicleTypes, s) == {} && BatteryTypesOf(u.batteryTypes, s) == {} && VehiclesOf(u.vehicles, s) == {} &&
      (x != s ==>
        VehicleTypesOf(u.vehicleTypes, x) == VehicleTypesOf(t.vehicleTypes, x) &&
        BatteryTypesOf(u.batteryTypes, x) == BatteryTypesOf(t.batteryTypes, x) &&
        VehiclesOf(u.vehicles, x) == VehiclesOf(t.vehicles, x))
  {
    var u := DeleteScenario(t, s).value;
    forall k | k in VehicleTypesOf(u.vehicleTypes, s) ensures false {
    }
    forall k | k in BatteryTypesOf(u.batteryTypes, s) ensures false {
    }
    forall k | k in VehiclesOf(u.vehicles, s) ensures false {
    }
    if x != s {
      forall k | k in VehicleTypesOf(t.vehicleTypes, x) ensures k in VehicleTypesOf(u.vehicleTypes, x) {
        assert u.vehicleTypes[k].scenarioId == x;
      }
      forall k | k in VehicleTypesOf(u.vehicleTypes, x) ensures k in VehicleTypesOf(t.vehicleTypes, x) {
      }
      forall k | k in BatteryTypesOf(u.batteryTypes, x) ensures k in BatteryTypesOf(t.batteryTypes, x) {
      }
      forall k | k in VehiclesOf(u.vehicles, x) ensures k in VehiclesOf(t.vehicles, x) {
      }
    }
  }

  /** A successful delete only removes rows: every table afterwards is inside the table before. */
  lemma DeleteOnlyRemoves(t: Tables, s: Id)
    requires DeleteScenario(t, s).Ok?
    ensures var u := DeleteScenario(t, s).value;
      (forall k :: k in u.scenarios ==> k in t.scenarios) &&
      (forall k :: k in u.vehicleTypes ==> k in t.vehicleTypes) &&
      (forall k :: k in u.batteryTypes ==> k in t.batteryTypes) &&
      (forall k :: k in u.vehicles ==> k in t.vehicles)
  {
  }

  /** Deleting keeps every foreign key pointing at an existing row, and keeps the CHECK constraints. */
  lemma DeleteKeepsReferences(t: Tables, s: Id)
    requires ReferencesExist(t) && ChecksHold(t) && DeleteScenario(t, s).Ok?
    ensures ReferencesExist(DeleteScenario(t, s).value)
    ensures ChecksHold(DeleteScenario(t, s).value)
  {
    var u := DeleteScenario(t, s).value;
    forall k | k in u.vehicleTypes && u.vehicleTypes[k].batteryTypeId.Some?
      ensures u.vehicleTypes[k].batteryTypeId.value in u.batteryTypes
    {
      var b := u.vehicleTypes[k].batteryTypeId.value;
      assert b in t.batteryTypes && t.batteryTypes[b].scenarioId != s;
    }
    forall k | k in u.vehicles ensures u.vehicles[k].vehicleTypeId in u.vehicleTypes {
      var v := t.vehicles[k].vehicleTypeId;
      assert t.vehicleTypes[v].scenarioId != s;
    }
  }

  /** Removing the copied scenario row gives back the scenario table from before the clone. */
  lemma UndoScenarios(orig: map<Id, ScenarioRow>, cur: map<Id, ScenarioRow>, c: Id, row: ScenarioRow)
    requires c !in orig && cur == orig[c := row]
    requires forall k :: k in orig && orig[k].parentId.Some? ==> orig[k].parentId.value in orig
    ensures ScenariosAfterDelete(cur, c) == orig
  {
    var r := ScenariosAfterDelete(cur, c);
    forall k | k in orig ensures k in r && r[k] == orig[k] {
      assert orig[k].parentId != Some(c);
    }
    forall k | k in r ensures k in orig {
    }
    assert r == orig;
  }

  /** Removing the copied battery types gives back the battery type table from before the clone. */
  lemma UndoBatteryTypes(orig: map<Id, BatteryTypeRow>, cur: map<Id, BatteryTypeRow>, m: map<Id, Id>, s: Id, c: Id)
    requires TableCopied(orig, BatteryTypeCopies(orig, s, c), cur, m)
    requires forall k :: k in orig ==> orig[k].scenarioId != c
    ensures BatteryTypesAfterDelete(cur, c) == orig
  {
    BatteryTypeCopiesOwned(orig, cur, m, s, c);
    var r := BatteryTypesAfterDelete(cur, c);
    forall k | k in orig ensures k in r && r[k] == orig[k] {
    }
    forall k | k in r ensures k in orig {
      assert k !in Image(m);
    }
    assert r == orig;
  }

  /** Removing the copied vehicles gives back the vehicle table from before the clone. */
  lemma UndoVehicles(orig: map<Id, VehicleRow>, cur: map<Id, VehicleRow>, m: map<Id, Id>, vtMap: map<Id, Id>, s: Id, c: Id)
    requires TableCopied(orig, RemapAll(VehicleCopies(orig, s, c), vtMap), cur, m)
    requires forall k :: k in orig ==> orig[k].scenarioId != c
    ensures VehiclesAfterDelete(cur, c) == orig
  {
    VehicleCopiesOwned(orig, cur, m, vtMap, s, c);
    var r := VehiclesAfterDelete(cur, c);
    forall k | k in orig ensures k in r && r[k] == orig[k] {
    }
    forall k | k in r ensures k in orig {
      assert k !in Image(m);
    }
    assert r == orig;
  }

  /**
   * Removing the copied vehicle types gives back the vehicle type table from
   * before the clone: no original row points at a battery type of the copy.
   */
  lemma UndoVehicleTypes(orig: map<Id, VehicleTypeRow>, cur: map<Id, VehicleTypeRow>, m: map<Id, Id>, btMap: map<Id, Id>,
                         origBts: map<Id, BatteryTypeRow>, curBts: map<Id, BatteryTypeRow>, s: Id, c: Id)
    requires TableCopied(orig, RetargetAll(VehicleTypeCopies(orig, s, c), btMap), cur, m)
    requires forall k :: k in orig ==> orig[k].scenarioId != c
    requires forall k :: k in orig && orig[k].batteryTypeId.Some? ==> orig[k].batteryTypeId.value in origBts
    requires forall b :: b in origBts ==> b in curBts && curBts[b] == origBts[b] && origBts[b].scenarioId != c
    ensures VehicleTypesAfterDelete(cur, curBts, c) == orig
  {
    VehicleTypeCopiesOwned(orig, cur, m, btMap, s, c);
    var r := VehicleTypesAfterDelete(cur, curBts, c);
    forall k | k in orig ensures k in r && r[k] == orig[k] {
      assert cur[k] == orig[k];
      if orig[k].batteryTypeId.Some? {
        var b := orig[k].batteryTypeId.value;
        assert b in origBts;
        assert curBts[b] == origBts[b];
      }
    }
    forall k | k in r ensures k in orig {
      assert k !in Image(m);
    }
    assert r == orig;
  }

  /** Right after a clone no vehicle outside the copy uses a vehicle type of the copy. */
  lemma CopyTypesUnusedOutside(t: Tables, u: Tables, s: Id, c: Id, vtMap: map<Id, Id>, btMap: map<Id, Id>, vMap: map<Id, Id>)
    requires ReferencesExist(t) && IsCloneOf(t, u, s, c, vtMap, btMap, vMap)
    ensures !VehicleTypesUsedOutside(u, c)
  {
    CopiesOfClone(t, u, s, c, vtMap, btMap, vMap);
    forall k | k in u.vehicles && u.vehicles[k].scenarioId != c
      ensures !(u.vehicles[k].vehicleTypeId in u.vehicleTypes && u.vehicleTypes[u.vehicles[k].vehicleTypeId].scenarioId == c)
    {
      assert k in t.vehicles;
      assert u.vehicles[k] == t.vehicles[k];
      assert u.vehicleTypes[u.vehicles[k].vehicleTypeId] == t.vehicleTypes[t.vehicles[k].vehicleTypeId];
    }
  }

  /**
   * Deleting the copy right after a clone gives back the tables from before
   * the clone.
   */
  lemma DeleteUndoesClone(t: Tables, u: Tables, s: Id, c: Id, vtMap: map<Id, Id>, btMap: map<Id, Id>, vMap: map<Id, Id>)
    requires ReferencesExist(t) && IsCloneOf(t, u, s, c, vtMap, btMap, vMap)
    ensures DeleteScenario(u, c) == Ok(t)
  {
    CopyTypesUnusedOutside(t, u, s, c, vtMap, btMap, vMap);
    UndoScenarios(t.scenarios, u.scenarios, c, CopyScenario(t.scenarios[s], s));
    UndoBatteryTypes(t.batteryTypes, u.batteryTypes, btMap, s, c);
    UndoVehicles(t.vehicles, u.vehicles, vMap, vtMap, s, c);
    forall b | b in t.batteryTypes ensures b in u.batteryTypes && u.batteryTypes[b] == t.batteryTypes[b] && t.batteryTypes[b].scenarioId != c {
    }
    UndoVehicleTypes(t.vehicleTypes, u.vehicleTypes, vtMap, btMap, t.batteryTypes, u.batteryTypes, s, c);
  }

  /**
   * Deleting the original after a clone succeeds when the original alone
   * could have been deleted, and leaves the copy with all its rows; the copy
   * loses its parent.
   */
  lemma DeleteOriginalKeepsClone(t: Tables, u: Tables, s: Id, c: Id, vtMap: map<Id, Id>, btMap: map<Id, Id>, vMap: map<Id, Id>)
    requires ReferencesExist(t) && SelfContained(t, s) && DeleteScenario(t, s).Ok?
    requires IsCloneOf(t, u, s, c, vtMap, btMap, vMap)
    ensures DeleteScenario(u, s).Ok?
    ensures var r := DeleteScenario(u, s).value;
      c in r.scenarios && r.scenarios[c].parentId.None? &&
      VehicleTypesOf(r.vehicleTypes, c) == Image(vtMap) &&
      BatteryTypesOf(r.batteryTypes, c) == Image(btMap) &&
      VehiclesOf(r.vehicles, c) == Image(vMap)
  {
    CopiesOfClone(t, u, s, c, vtMap, btMap, vMap);
    assert !VehicleTypesUsedOutside(u, s) by {
      forall k | k in u.vehicles && u.vehicles[k].scenarioId != s
        ensures !(u.vehicles[k].vehicleTypeId in u.vehicleTypes && u.vehicleTypes[u.vehicles[k].vehicleTypeId].scenarioId == s)
      {
        if k in t.vehicles {
          assert u.vehicles[k] == t.vehicles[k];
          var v := t.vehicles[k].vehicleTypeId;
          assert v in t.vehicleTypes && t.vehicleTypes[v].scenarioId != s;
          assert u.vehicleTypes[v] == t.vehicleTypes[v];
        } else {
          var a := SourceOf(vMap, k);
          var v := t.vehicles[a].vehicleTypeId;
          assert v in vtMap;
          assert u.vehicleTypes[vtMap[v]].scenarioId == c;
        }
      }
    }
    DeleteKeepsOtherScenarios(u, s, c);
  }

  // ----- the store -----

  datatype InsertError = ForeignKeyViolation | CheckViolation

  datatype CloneError = KeyError(key: Id)

  /** A vehicle type of `s` has battery type `b`, which is not a battery type of `s`. */
  ghost predicate StrayBatteryRef(t: Tables, s: Id, b: Id) {
    exists k :: k in t.vehicleTypes && t.vehicleTypes[k].scenarioId == s &&
      t.vehicleTypes[k].batteryTypeId == Some(b) && !OwnedBatteryType(t, b, s)
  }

  /** A vehicle of `s` has vehicle type `v`, which is not a vehicle type of `s`. */
  ghost predicate StrayVehicleTypeRef(t: Tables, s: Id, v: Id) {
    exists k :: k in t.vehicles && t.vehicles[k].scenarioId == s &&
      t.vehicles[k].vehicleTypeId == v && !OwnedVehicleType(t, v, s)
  }

  ghost predicate IdsBelow<R>(m: map<Id, R>, next: Id) {
    forall k :: k in m ==> 0 < k < next
  }

  /**
   * The database: one map per table from primary key to row, and the next
   * value of each table's id sequence.
   */
  class Store {
    var scenarios: map<Id, ScenarioRow>
    var vehicleTypes: map<Id, VehicleTypeRow>
    var batteryTypes: map<Id, BatteryTypeRow>
    var vehicles: map<Id, VehicleRow>
    var nextScenarioId: Id
    var nextVehicleTypeId: Id
    var nextBatteryTypeId: Id
    var nextVehicleId: Id

    function Snapshot(): Tables
      reads this
    {
      Tables(scenarios, vehicleTypes, batteryTypes, vehicles)
    }

    /** Every id sequence is ahead of the ids in its table. */
    ghost predicate IdsValid()
      reads this
    {
      IdsBelow(scenarios, nextScenarioId) && IdsBelow(vehicleTypes, nextVehicleTypeId) &&
      IdsBelow(batteryTypes, nextBatteryTypeId) && IdsBelow(vehicles, nextVehicleId) &&
      0 < nextScenarioId && 0 < nextVehicleTypeId && 0 < nextBatteryTypeId && 0 < nextVehicleId
    }

    ghost predicate Valid()
      reads this
    {
      IdsValid() && ReferencesExist(Snapshot()) && ChecksHold(Snapshot())
    }

    constructor ()
      ensures Valid()
      ensures Snapshot() == Tables(map[], map[], map[], map[])
    {
      scenarios, vehicleTypes, batteryTypes, vehicles := map[], map[], map[], map[];
      nextScenarioId, nextVehicleTypeId, nextBatteryTypeId, nextVehicleId := 1, 1, 1, 1;
    }

    /** INSERT INTO "Scenario": the parent, when set, must exist. */
    method AddScenario(row: ScenarioRow) returns (r: Result<Id, InsertError>)
      requires Valid()
      modifies this`scenarios, this`nextScenarioId
      ensures Valid()
      ensures r.Err? <==> row.parentId.Some? && row.parentId.value !in old(scenarios)
      ensures r.Ok? ==> r.value !in old(scenarios) && scenarios == old(scenarios)[r.value := row]
      ensures r.Err? ==> scenarios == old(scenarios)
    {
      if row.parentId.Some? && row.parentId.value !in scenarios {
        return Err(ForeignKeyViolation);
      }
      var id := nextScenarioId;
      scenarios := scenarios[id := row];
      nextScenarioId := id + 1;
      return Ok(id);
    }

    /** INSERT INTO "BatteryType": the scenario must exist. */
    method AddBatteryType(row: BatteryTypeRow) returns (r: Result<Id, InsertError>)
      requires Valid()
      modifies this`batteryTypes, this`nextBatteryTypeId
      ensures Valid()
      ensures r.Err? <==> row.scenarioId !in scenarios
      ensures r.Ok? ==> r.value !in old(batteryTypes) && batteryTypes == old(batteryTypes)[r.value := row]
      ensures r.Err? ==> batteryTypes == old(batteryTypes)
    {
      if row.scenarioId !in scenarios {
        return Err(ForeignKeyViolation);
      }
      var id := nextBatteryTypeId;
      batteryTypes := batteryTypes[id := row];
      nextBatteryTypeId := id + 1;
      return Ok(id);
    }

    /**
     * INSERT INTO "VehicleType": the CHECK constraints are tested before the
     * foreign keys.
     */
    method AddVehicleType(row: VehicleTypeRow) returns (r: Result<Id, InsertError>)
      requires Valid()
      modifies this`vehicleTypes, this`nextVehicleTypeId
      ensures Valid()
      ensures r == Err(CheckViolation) <==> !VehicleTypeAccepted(row)
      ensures r == Err(ForeignKeyViolation) <==> (VehicleTypeAccepted(row) &&
        (row.scenarioId !in scenarios || (row.batteryTypeId.Some? && row.batteryTypeId.value !in batteryTypes)))
      ensures r.Ok? ==> r.value !in old(vehicleTypes) && vehicleTypes == old(vehicleTypes)[r.value := row]
      ensures r.Err? ==> vehicleTypes == old(vehicleTypes)
    {
      if !VehicleTypeAccepted(row) {
        return Err(CheckViolation);
      }
      if row.scenarioId !in scenarios || (row.batteryTypeId.Some? && row.batteryTypeId.value !in batteryTypes) {
        return Err(ForeignKeyViolation);
      }
      var id := nextVehicleTypeId;
      vehicleTypes := vehicleTypes[id := row];
      nextVehicleTypeId := id + 1;
      return Ok(id);
    }

    /** INSERT INTO "Vehicle": the scenario and the vehicle type must exist. */
    method AddVehicle(row: VehicleRow) returns (r: Result<Id, InsertError>)
      requires Valid()
      modifies this`vehicles, this`nextVehicleId
      ensures Valid()
      ensures r.Err? <==> row.scenarioId !in scenarios || row.vehicleTypeId !in vehicleTypes
      ensures r.Ok? ==> r.value !in old(vehicles) && vehicles == old(vehicles)[r.value := row]
      ensures r.Err? ==> vehicles == old(vehicles)
    {
      if row.scenarioId !in scenarios || row.vehicleTypeId !in vehicleTypes {
        return Err(ForeignKeyViolation);
      }
      var id := nextVehicleId;
      vehicles := vehicles[id := row];
      nextVehicleId := id + 1;
      return Ok(id);
    }

    /**
     * `Scenario.clone`: copy the vehicle types, the battery types and the
     * vehicles of `s` under fresh ids while recording the original-to-copy
     * id maps, add the new scenario, then rewrite the battery type of each
     * copied vehicle type and the vehicle type of each copied vehicle
     * through those maps.  A reference to a row outside `s` is not in its
     * map: the lookup fails with a KeyError (the battery type pass runs
     * first) and the partial copy is left for the caller to roll back.
     */
    method Clone(s: Id) returns (r: Result<Id, CloneError>, ghost vtMap: map<Id, Id>, ghost btMap: map<Id, Id>, ghost vMap: map<Id, Id>)
      requires Valid() && s in scenarios
      modifies this
      ensures r.Err? <==> !SelfContained(old(Snapshot()), s)
      ensures r.Err? && !BatteryRefsInside(old(Snapshot()), s) ==> StrayBatteryRef(old(Snapshot()), s, r.error.key)
      ensures r.Err? && BatteryRefsInside(old(Snapshot()), s) ==> StrayVehicleTypeRef(old(Snapshot()), s, r.error.key)
      ensures r.Ok? ==> Valid() && IsCloneOf(old(Snapshot()), Snapshot(), s, r.value, vtMap, btMap, vMap)
    {
      ghost var t := Snapshot();
      var c, vts, bts, vs, vtSplit, vSplit := CopyScenarioRows(s);
      vtMap, btMap, vMap := vts, bts, vs;
      ghost var mid := Snapshot();
      var missing := RetargetCopies(t, s, c, vts, bts, vtSplit);
      if missing.Some? {
        return Err(KeyError(missing.value)), vtMap, btMap, vMap;
      }
      missing := RemapCopies(t, s, c, vs, vts, vSplit);
      if missing.Some? {
        return Err(KeyError(missing.value)), vtMap, btMap, vMap;
      }
      CloneAssembled(t, mid, Snapshot(), s, c, vtMap, btMap, vMap);
      r := Ok(c);
    }

    /**
     * The copying half of `clone`: the rows of `s` copied under fresh ids,
     * and the new scenario row added under the next scenario id.
     */
    method CopyScenarioRows(s: Id) returns (c: Id, vtMap: map<Id, Id>, btMap: map<Id, Id>, vMap: map<Id, Id>, vtSplit: Id, vSplit: Id)
      requires Valid() && s in scenarios
      modifies this
      ensures IdsValid() && IdsBelow(old(vehicleTypes), vtSplit) && IdsBelow(old(vehicles), vSplit)
      ensures CopiesAdded(old(Snapshot()), Snapshot(), s, c, vtMap, btMap, vMap)
      ensures forall k :: k in vtMap ==> 0 < k < vtSplit <= vtMap[k] && vtMap[k] in vehicleTypes
      ensures forall k :: k in vMap ==> 0 < k < vSplit <= vMap[k] && vMap[k] in vehicles
    {
      c := nextScenarioId;
      vtSplit, vSplit := nextVehicleTypeId, nextVehicleId;
      vtMap := CopyVehicleTypes(s, c);
      btMap := CopyBatteryTypes(s, c);
      vMap := CopyVehicles(s, c);
      scenarios := scenarios[c := CopyScenario(scenarios[s], s)];
      nextScenarioId := c + 1;
    }

    /**
     * The battery type pass of `clone` on the copies of the vehicle types
     * of `s`: it fails exactly when one of them has a battery type outside
     * `s`, and otherwise leaves the copies pointing at the copied battery types.
     */
    method RetargetCopies(ghost t: Tables, s: Id, c: Id, vtMap: map<Id, Id>, btMap: map<Id, Id>, vtSplit: Id) returns (missing: Option<Id>)
      requires IdsValid() && IdsBelow(t.vehicleTypes, vtSplit)
      requires TableCopied(t.vehicleTypes, VehicleTypeCopies(t.vehicleTypes, s, c), vehicleTypes, vtMap)
      requires TableCopied(t.batteryTypes, BatteryTypeCopies(t.batteryTypes, s, c), batteryTypes, btMap)
      requires forall k :: k in vtMap ==> 0 < k < vtSplit <= vtMap[k] && vtMap[k] in vehicleTypes
      modifies this`vehicleTypes
      ensures forall k :: k in vehicleTypes <==> k in old(vehicleTypes)
      ensures IdsValid()
      ensures missing.None? <==> BatteryRefsInside(t, s)
      ensures missing.Some? ==> StrayBatteryRef(t, s, missing.value)
      ensures missing.None? ==> TableCopied(t.vehicleTypes, RetargetAll(VehicleTypeCopies(t.vehicleTypes, s, c), btMap), vehicleTypes, vtMap)
    {
      ghost var mid := vehicleTypes;
      ghost var culprit;
      missing, culprit := RemapBatteryTypes(vtMap, btMap, vtSplit);
      BatteryPassOutcome(t, s, c, mid, batteryTypes, vtMap, btMap, missing, culprit);
      if missing.None? {
        RetargetCopied(t.vehicleTypes, VehicleTypeCopies(t.vehicleTypes, s, c), mid, vehicleTypes, vtMap, btMap, vtSplit);
      }
    }

    /**
     * The vehicle type pass of `clone` on the copies of the vehicles of `s`:
     * it fails exactly when one of them has a vehicle type outside `s`, and
     * otherwise leaves the copies pointing at the copied vehicle types.
     */
    method RemapCopies(ghost t: Tables, s: Id, c: Id, vMap: map<Id, Id>, vtMap: map<Id, Id>, vSplit: Id) returns (missing: Option<Id>)
      requires IdsValid() && IdsBelow(t.vehicles, vSplit)
      requires TableCopied(t.vehicles, VehicleCopies(t.vehicles, s, c), vehicles, vMap)
      requires forall k :: k in vtMap <==> OwnedVehicleType(t, k, s)
      requires forall k :: k in vMap ==> 0 < k < vSplit <= vMap[k] && vMap[k] in vehicles
      modifies this`vehicles
      ensures forall k :: k in vehicles <==> k in old(vehicles)
      ensures IdsValid()
      ensures missing.None? <==> VehicleTypeRefsInside(t, s)
      ensures missing.Some? ==> StrayVehicleTypeRef(t, s, missing.value)
      ensures missing.None? ==> TableCopied(t.vehicles, RemapAll(VehicleCopies(t.vehicles, s, c), vtMap), vehicles, vMap)
    {
      ghost var mid := vehicles;
      ghost var culprit;
      missing, culprit := RemapVehicleTypes(vMap, vtMap, vSplit);
      VehicleTypePassOutcome(t, s, c, mid, vMap, vtMap, missing, culprit);
      if missing.None? {
        RemapCopied(t.vehicles, VehicleCopies(t.vehicles, s, c), mid, vehicles, vMap, vtMap, vSplit);
      }
    }

    /** The first copy loop of `clone`: every vehicle type of `s`, attached to `c` under a fresh id. */
    method CopyVehicleTypes(s: Id, c: Id) returns (m: map<Id, Id>)
      requires IdsBelow(vehicleTypes, nextVehicleTypeId) && 0 < nextVehicleTypeId
      modifies this`vehicleTypes, this`nextVehicleTypeId
      ensures old(nextVehicleTypeId) <= nextVehicleTypeId && IdsBelow(vehicleTypes, nextVehicleTypeId)
      ensures TableCopied(old(vehicleTypes), VehicleTypeCopies(old(vehicleTypes), s, c), vehicleTypes, m)
      ensures forall k :: k in m ==> 0 < k < old(nextVehicleTypeId) <= m[k] && m[k] in vehicleTypes
    {
      var split := nextVehicleTypeId;
      var orig := vehicleTypes;
      ghost var copies := VehicleTypeCopies(orig, s, c);
      var i := 1;
      m := map[];
      CopyStart(orig, copies, split);
      while i < split
        invariant orig == old(vehicleTypes) && 1 <= i <= split
        invariant CopyInProgress(orig, copies, vehicleTypes, m, i, split, nextVehicleTypeId)
      {
        if i in orig && orig[i].scenarioId == s {
          var id := nextVehicleTypeId;
          CopyStep(orig, copies, vehicleTypes, m, vehicleTypes[id := orig[i].(scenarioId := c)], m[i := id], i, split, id);
          vehicleTypes := vehicleTypes[id := orig[i].(scenarioId := c)];
          nextVehicleTypeId := id + 1;
          m := m[i := id];
        } else {
          CopySkip(orig, copies, vehicleTypes, m, i, split, nextVehicleTypeId);
        }
        i := i + 1;
      }
      CopyDone(orig, copies, vehicleTypes, m, split, nextVehicleTypeId);
    }

    /** The second copy loop of `clone`: every battery type of `s`, attached to `c` under a fresh id. */
    method CopyBatteryTypes(s: Id, c: Id) returns (m: map<Id, Id>)
      requires IdsBelow(batteryTypes, nextBatteryTypeId) && 0 < nextBatteryTypeId
      modifies this`batteryTypes, this`nextBatteryTypeId
      ensures old(nextBatteryTypeId) <= nextBatteryTypeId && IdsBelow(batteryTypes, nextBatteryTypeId)
      ensures TableCopied(old(batteryTypes), BatteryTypeCopies(old(batteryTypes), s, c), batteryTypes, m)
      ensures forall k :: k in m ==> 0 < k < old(nextBatteryTypeId) <= m[k] && m[k] in batteryTypes
    {
      var split := nextBatteryTypeId;
      var orig := batteryTypes;
      ghost var copies := BatteryTypeCopies(orig, s, c);
      var i := 1;
      m := map[];
      CopyStart(orig, copies, split);
      while i < split
        invariant orig == old(batteryTypes) && 1 <= i <= split
        invariant CopyInProgress(orig, copies, batteryTypes, m, i, split, nextBatteryTypeId)
      {
        if i in orig && orig[i].scenarioId == s {
          var id := nextBatteryTypeId;
          CopyStep(orig, copies, batteryTypes, m, batteryTypes[id := orig[i].(scenarioId := c)], m[i := id], i, split, id);
          batteryTypes := batteryTypes[id := orig[i].(scenarioId := c)];
          nextBatteryTypeId := id + 1;
          m := m[i := id];
        } else {
          CopySkip(orig, copies, batteryTypes, m, i, split, nextBatteryTypeId);
        }
        i := i + 1;
      }
      CopyDone(orig, copies, batteryTypes, m, split, nextBatteryTypeId);
    }

    /** The third copy loop of `clone`: every vehicle of `s`, attached to `c` under a fresh id. */
    method CopyVehicles(s: Id, c: Id) returns (m: map<Id, Id>)
      requires IdsBelow(vehicles, nextVehicleId) && 0 < nextVehicleId
      modifies this`vehicles, this`nextVehicleId
      ensures old(nextVehicleId) <= nextVehicleId && IdsBelow(vehicles, nextVehicleId)
      ensures TableCopied(old(vehicles), VehicleCopies(old(vehicles), s, c), vehicles, m)
      ensures forall k :: k in m ==> 0 < k < old(nextVehicleId) <= m[k] && m[k] in vehicles
    {
      var split := nextVehicleId;
      var orig := vehicles;
      ghost var copies := VehicleCopies(orig, s, c);
      var i := 1;
      m := map[];
      CopyStart(orig, copies, split);
      while i < split
        invariant orig == old(vehicles) && 1 <= i <= split
        invariant CopyInProgress(orig, copies, vehicles, m, i, split, nextVehicleId)
      {
        if i in orig && orig[i].scenarioId == s {
          var id := nextVehicleId;
          CopyStep(orig, copies, vehicles, m, vehicles[id := orig[i].(scenarioId := c)], m[i := id], i, split, id);
          vehicles := vehicles[id := orig[i].(scenarioId := c)];
          nextVehicleId := id + 1;
          m := m[i := id];
        } else {
          CopySkip(orig, copies, vehicles, m, i, split, nextVehicleId);
        }
        i := i + 1;
      }
      CopyDone(orig, copies, vehicles, m, split, nextVehicleId);
    }

    /**
     * The first rewrite loop of `clone`: each copied vehicle type with a
     * battery type gets the copy of that battery type; a battery type with
     * no copy stops the loop and is returned as the missing key, with the
     * original vehicle type that holds it.
     */
    method RemapBatteryTypes(vtMap: map<Id, Id>, btMap: map<Id, Id>, split: Id) returns (missing: Option<Id>, ghost culprit: Id)
      requires Injective(vtMap)
      requires forall k :: k in vtMap ==> 0 < k < split <= vtMap[k] && vtMap[k] in vehicleTypes
      modifies this`vehicleTypes
      ensures forall k :: k in vehicleTypes <==> k in old(vehicleTypes)
      ensures forall k :: k in vehicleTypes && k < split ==> vehicleTypes[k] == old(vehicleTypes)[k]
      ensures missing.None? <==> forall k :: k in vtMap && old(vehicleTypes)[vtMap[k]].batteryTypeId.Some? ==>
        old(vehicleTypes)[vtMap[k]].batteryTypeId.value in btMap
      ensures missing.Some? ==> (missing.value !in btMap && culprit in vtMap &&
        old(vehicleTypes)[vtMap[culprit]].batteryTypeId == missing)
      ensures missing.Some? ==> forall k :: k in vtMap && k < culprit && old(vehicleTypes)[vtMap[k]].batteryTypeId.Some? ==>
        old(vehicleTypes)[vtMap[k]].batteryTypeId.value in btMap
      ensures missing.None? ==> forall k :: k in vtMap ==>
        vehicleTypes[vtMap[k]] == Retarget(old(vehicleTypes)[vtMap[k]], btMap)
    {
      culprit := 0;
      var i := 1;
      while i < split
        invariant 1 <= i && (i <= split || split <= 1)
        invariant forall k :: k in vehicleTypes <==> k in old(vehicleTypes)
        invariant forall k :: k in vehicleTypes && k < split ==> vehicleTypes[k] == old(vehicleTypes)[k]
        invariant forall k :: k in vtMap && k < i && old(vehicleTypes)[vtMap[k]].batteryTypeId.Some? ==>
          old(vehicleTypes)[vtMap[k]].batteryTypeId.value in btMap
        invariant forall k :: k in vtMap && i <= k ==> vehicleTypes[vtMap[k]] == old(vehicleTypes)[vtMap[k]]
        invariant forall k :: k in vtMap && k < i ==> vehicleTypes[vtMap[k]] == Retarget(old(vehicleTypes)[vtMap[k]], btMap)
      {
        if i in vtMap {
          var id := vtMap[i];
          var row := vehicleTypes[id];
          if row.batteryTypeId.Some? {
            if row.batteryTypeId.value !in btMap {
              return row.batteryTypeId, i;
            }
            vehicleTypes := vehicleTypes[id := row.(batteryTypeId := Some(btMap[row.batteryTypeId.value]))];
          }
        }
        i := i + 1;
      }
      return None, culprit;
    }

    /**
     * The second rewrite loop of `clone`: each copied vehicle gets the copy
     * of its vehicle type; a vehicle type with no copy stops the loop and is
     * returned as the missing key, with the original vehicle that holds it.
     */
    method RemapVehicleTypes(vMap: map<Id, Id>, vtMap: map<Id, Id>, split: Id) returns (missing: Option<Id>, ghost culprit: Id)
      requires Injective(vMap)
      requires forall k :: k in vMap ==> 0 < k < split <= vMap[k] && vMap[k] in vehicles
      modifies this`vehicles
      ensures forall k :: k in vehicles <==> k in old(vehicles)
      ensures forall k :: k in vehicles && k < split ==> vehicles[k] == old(vehicles)[k]
      ensures missing.None? <==> forall k :: k in vMap ==> old(vehicles)[vMap[k]].vehicleTypeId in vtMap
      ensures missing.Some? ==> (missing.value !in vtMap && culprit in vMap &&
        old(vehicles)[vMap[culprit]].vehicleTypeId == missing.value)
      ensures missing.Some? ==> forall k :: k in vMap && k < culprit ==> old(vehicles)[vMap[k]].vehicleTypeId in vtMap
      ensures missing.None? ==> forall k :: k in vMap ==>
        vehicles[vMap[k]] == old(vehicles)[vMap[k]].(vehicleTypeId := Remap(vtMap, old(vehicles)[vMap[k]].vehicleTypeId))
    {
      culprit := 0;
      var i := 1;
      while i < split
        invariant 1 <= i && (i <= split || split <= 1)
        invariant forall k :: k in vehicles <==> k in old(vehicles)
        invariant forall k :: k in vehicles && k < split ==> vehicles[k] == old(vehicles)[k]
        invariant forall k :: k in vMap && k < i ==> old(vehicles)[vMap[k]].vehicleTypeId in vtMap
        invariant forall k :: k in vMap && i <= k ==> vehicles[vMap[k]] == old(vehicles)[vMap[k]]
        invariant forall k :: k in vMap && k < i ==>
          vehicles[vMap[k]] == old(vehicles)[vMap[k]].(vehicleTypeId := Remap(vtMap, old(vehicles)[vMap[k]].vehicleTypeId))
      {
        if i in vMap {
          var id := vMap[i];
          var row := vehicles[id];
          if row.vehicleTypeId !in vtMap {
            return Some(row.vehicleTypeId), i;
          }
          vehicles := vehicles[id := row.(vehicleTypeId := vtMap[row.vehicleTypeId])];
        }
        i := i + 1;
      }
      return None, culprit;
    }

    /** `session.delete(scenario)` followed by a commit: the cascade of `DeleteScenario`, or no change. */
    method Delete(s: Id) returns (r: Outcome<DeleteError>)
      requires Valid()
      modifies this`scenarios, this`vehicleTypes, this`batteryTypes, this`vehicles
      ensures Valid()
      ensures r.Fail? ==> DeleteScenario(old(Snapshot()), s) == Err(r.error) && Snapshot() == old(Snapshot())
      ensures r.Pass? ==> DeleteScenario(old(Snapshot()), s) == Ok(Snapshot())
    {
      var d := DeleteScenario(Snapshot(), s);
      if d.Err? {
        return Fail(d.error);
      }
      DeleteKeepsReferences(Snapshot(), s);
      DeleteOnlyRemoves(Snapshot(), s);
      scenarios, vehicleTypes, batteryTypes, vehicles := d.value.scenarios, d.value.vehicleTypes, d.value.batteryTypes, d.value.vehicles;
      assert Snapshot() == d.value;
      return Pass;
    }
  }
}
