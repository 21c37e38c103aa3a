/**
 * The row-level constraints of the depot tables: the `row_count_check` and
 * `capacity_validity_check` of an area, the duration/power check of a
 * process, and the composite primary keys of the two association tables.
 */
module Depot {
  import opened Wrappers
  import opened SqlLogic

  datatype AreaType = DirectOneSide | DirectTwoSide | Line

  /**
   * The columns of an `Area` row that its constraints read. The `type` column
   * is declared without NOT NULL, so it may be NULL; `capacity` is NOT NULL.
   */
  datatype AreaRow = AreaRow(areaType: Option<AreaType>, rowCount: Option<int>, capacity: int)

  /** `type = '<k>'`: UNKNOWN when the type is NULL. */
  function TypeIs(t: Option<AreaType>, k: AreaType): Truth {
    Compare(t, (v: AreaType) => v == k)
  }

  /** `row_count_check`. */
  function RowCountCheck(a: AreaRow): Truth {
    Or(Or(
      And(TypeIs(a.areaType, Line), Compare(a.rowCount, (n: int) => n > 0)),
      And(TypeIs(a.areaType, DirectTwoSide), IsNull(a.rowCount))),
      And(TypeIs(a.areaType, DirectOneSide), IsNull(a.rowCount)))
  }

  /**
   * `type = 'LINE' AND capacity % row_count = 0`, evaluated left to right:
   * the remainder is only computed when the type test is not FALSE, and it
   * raises an error when `row_count` is 0.
   */
  function LineCapacityTerm(a: AreaRow): (r: Result<Truth, SqlError>)
    ensures r.Err? <==> (a.areaType.None? || a.areaType == Some(Line)) && a.rowCount == Some(0)
  {
    var isLine := TypeIs(a.areaType, Line);
    if isLine == False then Ok(False)
    else
      match SqlMod(Some(a.capacity), a.rowCount)
      case Err(e) => Err(e)
      case Ok(m) => Ok(And(isLine, Compare(m, (r: int) => r == 0)))
  }

  /**
   * `capacity_validity_check`: `capacity > 0 AND (two-side term OR one-side
   * term OR line term)`, evaluated left to right with short-circuiting on a
   * decided operand, as PostgreSQL's executor does.
   */
  function CapacityCheck(a: AreaRow): Result<Truth, SqlError> {
    if a.capacity <= 0 then Ok(False)
    else
      var direct := Or(
        And(TypeIs(a.areaType, DirectTwoSide), FromBool(TruncMod(a.capacity, 2) == 0)),
        TypeIs(a.areaType, DirectOneSide));
      if direct == True then Ok(True)
      else
        match LineCapacityTerm(a)
        case Err(e) => Err(e)
        case Ok(line) => Ok(Or(direct, line))
  }

  /** The NOT NULL columns of an `Area` row that may be left unset: all but `id` and `capacity`. */
  datatype AreaColumn = ScenarioIdColumn | DepotIdColumn | NameColumn | VehicleTypeIdColumn

  datatype AreaError =
    | NotNullViolated(column: AreaColumn)
    | CapacityCheckViolated
    | RowCountCheckViolated
    | EvaluationFailed(cause: SqlError)

  /**
   * Inserting an area row. PostgreSQL tests a table's CHECK constraints in
   * the alphabetical order of their names, so `capacity_validity_check` comes
   * before `row_count_check`.
   */
  function InsertArea(a: AreaRow): Outcome<AreaError> {
    match CapacityCheck(a)
    case Err(e) => Fail(EvaluationFailed(e))
    case Ok(c) =>
      if !Admits(c) then Fail(CapacityCheckViolated)
      else if !Admits(RowCountCheck(a)) then Fail(RowCountCheckViolated)
      else Pass
  }

  /**
   * What the two checks admit, per area type: a positive capacity; for a
   * two-side area no row count and an even capacity; for a one-side area no
   * row count; for a line area a positive row count that divides the
   * capacity, or a NULL row count (both checks then evaluate to UNKNOWN); for
   * an area whose type is NULL a row count that is NULL or positive.
   */
  predicate AreaAdmitted(a: AreaRow) {
    a.capacity > 0 &&
    match a.areaType
    case Some(Line) => a.rowCount.None? || (a.rowCount.value > 0 && a.capacity % a.rowCount.value == 0)
    case Some(DirectTwoSide) => a.rowCount.None? && a.capacity % 2 == 0
    case Some(DirectOneSide) => a.rowCount.None?
    case None => a.rowCount.None? || a.rowCount.value > 0
  }

  /** An area row is accepted exactly when the checks as written admit it. */
  lemma InsertAreaIff(a: AreaRow)
    ensures InsertArea(a).Pass? <==> AreaAdmitted(a)
  {
    if a.capacity > 0 {
      match a.areaType
      case Some(Line) =>
        if a.rowCount.Some? && a.rowCount.value != 0 {
          TruncModZeroIff(a.capacity, a.rowCount.value);
        }
      case Some(DirectTwoSide) =>
        TruncModZeroIff(a.capacity, 2);
      case Some(DirectOneSide) =>
      case None =>
    }
  }

  /** A line area with a NULL row count passes both checks: `row_count > 0` is UNKNOWN, not FALSE. */
  lemma LineAreaWithoutRowCount()
    ensures InsertArea(AreaRow(Some(Line), None, 6)).Pass?
    ensures InsertAreaCorrected(AreaRow(Some(Line), None, 6)) == Fail(RowCountCheckViolated)
  {
  }

  /** `row_count_check` with the NULL test a line area evidently needs: `row_count IS NOT NULL AND row_count > 0`. */
  function CorrectedRowCountCheck(a: AreaRow): Truth {
    Or(Or(
      And(TypeIs(a.areaType, Line), And(IsNotNull(a.rowCount), Compare(a.rowCount, (n: int) => n > 0))),
      And(TypeIs(a.areaType, DirectTwoSide), IsNull(a.rowCount))),
      And(TypeIs(a.areaType, DirectOneSide), IsNull(a.rowCount)))
  }

  /** Inserting an area row under the corrected `row_count_check`. */
  function InsertAreaCorrected(a: AreaRow): Outcome<AreaError> {
    match CapacityCheck(a)
    case Err(e) => Fail(EvaluationFailed(e))
    case Ok(c) =>
      if !Admits(c) then Fail(CapacityCheckViolated)
      else if !Admits(CorrectedRowCountCheck(a)) then Fail(RowCountCheckViolated)
      else Pass
  }

  /**
   * The intended rule: a positive capacity; a line area needs a positive row
   * count that divides the capacity; a two-side area no row count and an even
   * capacity; a one-side area no row count. An area whose type is NULL still
   * needs only a positive capacity and a row count that is NULL or positive.
   * The line clause of `row_count_check` asks for `row_count > 0`, the line
   * clause of `capacity_validity_check` divides by `row_count`, and the
   * `LINE` area type is described as having one or more rows
   * (eflips/model/depot.py:87): all three presuppose a row count.
   */
  predicate AreaRule(a: AreaRow) {
    a.capacity > 0 &&
    match a.areaType
    case Some(Line) => a.rowCount.Some? && a.rowCount.value > 0 && a.capacity % a.rowCount.value == 0
    case Some(DirectTwoSide) => a.rowCount.None? && a.capacity % 2 == 0
    case Some(DirectOneSide) => a.rowCount.None?
    case None => a.rowCount.None? || a.rowCount.value > 0
  }

  /** Under the corrected check, an area row is accepted exactly when it follows the intended rule. */
  lemma InsertAreaCorrectedIff(a: AreaRow)
    ensures InsertAreaCorrected(a).Pass? <==> AreaRule(a)
  {
    if a.capacity > 0 {
      match a.areaType
      case Some(Line) =>
        if a.rowCount.Some? && a.rowCount.value != 0 {
          TruncModZeroIff(a.capacity, a.rowCount.value);
        }
      case Some(DirectTwoSide) =>
        TruncModZeroIff(a.capacity, 2);
      case Some(DirectOneSide) =>
      case None =>
    }
  }

  /** A zero row count is rejected under any evaluation order, so the division error never admits a row. */
  lemma ZeroRowCountRejected(a: AreaRow)
    requires a.rowCount == Some(0)
    ensures !Admits(RowCountCheck(a))
    ensures InsertArea(a).Fail?
  {
  }

  /**
   * The (type, row_count, capacity) triples of the areas of tests/test_depot.py
   * (line 2/6, line 2/5, one-side -1, two-side 17) and further boundary cases.
   */
  lemma AreaExamples()
    ensures InsertArea(AreaRow(Some(Line), Some(2), 6)).Pass?
    ensures InsertArea(AreaRow(Some(Line), Some(2), 5)) == Fail(CapacityCheckViolated)
    ensures InsertArea(AreaRow(Some(DirectOneSide), None, -1)) == Fail(CapacityCheckViolated)
    ensures InsertArea(AreaRow(Some(DirectTwoSide), None, 17)) == Fail(CapacityCheckViolated)
    ensures InsertArea(AreaRow(Some(Line), Some(3), 9)).Pass?
    ensures InsertArea(AreaRow(Some(Line), Some(3), 10)).Fail?
    ensures InsertArea(AreaRow(Some(DirectTwoSide), None, 6)).Pass?
    ensures InsertArea(AreaRow(Some(DirectTwoSide), Some(3), 6)) == Fail(RowCountCheckViolated)
    ensures InsertArea(AreaRow(Some(Line), Some(0), 6)) == Fail(EvaluationFailed(DivisionByZero))
  {
  }

  /**
   * A whole `Area` row as an INSERT carries it. `scenario_id`, `depot_id`,
   * `name` and `vehicle_type_id` are declared as non-optional `Mapped`
   * columns, hence NOT NULL, but an ORM object can leave them unset.
   */
  datatype AreaInsert = AreaInsert(
    scenarioId: Option<int>,
    depotId: Option<int>,
    name: Option<string>,
    vehicleTypeId: Option<int>,
    row: AreaRow)

  /**
   * Inserting a whole area row: PostgreSQL tests the NOT NULL constraints,
   * in column order, before any CHECK constraint.
   */
  function InsertAreaRow(r: AreaInsert): Outcome<AreaError> {
    if r.scenarioId.None? then Fail(NotNullViolated(ScenarioIdColumn))
    else if r.depotId.None? then Fail(NotNullViolated(DepotIdColumn))
    else if r.name.None? then Fail(NotNullViolated(NameColumn))
    else if r.vehicleTypeId.None? then Fail(NotNullViolated(VehicleTypeIdColumn))
    else InsertArea(r.row)
  }

  /** A whole row is stored exactly when every NOT NULL column is set and the checks admit its values. */
  lemma InsertAreaRowIff(r: AreaInsert)
    ensures InsertAreaRow(r).Pass? <==>
      r.scenarioId.Some? && r.depotId.Some? && r.name.Some? && r.vehicleTypeId.Some? && AreaAdmitted(r.row)
  {
    InsertAreaIff(r.row);
  }

  /**
   * The invalid areas of tests/test_depot.py are built with `depot=None` and
   * no vehicle type, so their INSERT fails on the NOT NULL `depot_id` before
   * a CHECK is tested: whatever the values, even a line area of 2 rows and
   * capacity 6 that both checks admit, fails the same way.
   */
  lemma AreaTestsFailBeforeChecks(a: AreaRow)
    ensures InsertAreaRow(AreaInsert(Some(1), None, Some("Test Area"), None, a)) == Fail(NotNullViolated(DepotIdColumn))
    ensures InsertArea(AreaRow(Some(Line), Some(2), 6)).Pass?
    ensures InsertAreaRow(AreaInsert(Some(1), None, Some("Test Area"), None, AreaRow(Some(Line), Some(2), 6))).Fail?
  {
    AreaExamples();
  }

  /** Given a depot and a vehicle type, the invalid areas of the tests fail on `capacity_validity_check`. */
  lemma AreaTestsWithDepotFailOnCapacity(depot: int, vehicleType: int)
    ensures InsertAreaRow(AreaInsert(Some(1), Some(depot), Some("Test Area 1"), Some(vehicleType),
      AreaRow(Some(Line), Some(2), 5))) == Fail(CapacityCheckViolated)
    ensures InsertAreaRow(AreaInsert(Some(1), Some(depot), Some("Test Area 2"), Some(vehicleType),
      AreaRow(Some(DirectOneSide), None, -1))) == Fail(CapacityCheckViolated)
    ensures InsertAreaRow(AreaInsert(Some(1), Some(depot), Some("Test Area 3"), Some(vehicleType),
      AreaRow(Some(DirectTwoSide), None, 17))) == Fail(CapacityCheckViolated)
    ensures InsertAreaRow(AreaInsert(Some(1), Some(depot), Some("Test Area"), Some(vehicleType),
      AreaRow(Some(Line), Some(2), 6))).Pass?
  {
    AreaExamples();
  }

  /** The columns of a `Process` row that its CHECK constraint reads. */
  datatype ProcessRow = ProcessRow(duration: Option<real>, electricPower: Option<real>)

  /** `positive_duration_and_power_check`, as written: a disjunction of four clauses. */
  function PositiveDurationAndPowerCheck(p: ProcessRow): Truth {
    Or(Or(Or(
      IsNull(p.duration),
      And(IsNotNull(p.duration), Compare(p.duration, (d: real) => d >= 0.0))),
      IsNull(p.electricPower)),
      And(IsNotNull(p.electricPower), Compare(p.electricPower, (w: real) => w >= 0.0)))
  }

  predicate ProcessAccepted(p: ProcessRow) {
    Admits(PositiveDurationAndPowerCheck(p))
  }

  /** As written, the check rejects a row only when both columns are set and both are negative. */
  lemma ProcessAcceptedIff(p: ProcessRow)
    ensures !ProcessAccepted(p) <==>
      p.duration.Some? && p.duration.value < 0.0 && p.electricPower.Some? && p.electricPower.value < 0.0
  {
  }

  /**
   * The check that the constraint's name `positive_duration_and_power_check`
   * describes: each of the two columns is NULL or non-negative.
   */
  function IntendedDurationAndPowerCheck(p: ProcessRow): Truth {
    And(
      Or(IsNull(p.duration), Compare(p.duration, (d: real) => d >= 0.0)),
      Or(IsNull(p.electricPower), Compare(p.electricPower, (w: real) => w >= 0.0)))
  }

  predicate IntendedProcessAccepted(p: ProcessRow) {
    Admits(IntendedDurationAndPowerCheck(p))
  }

  lemma IntendedProcessAcceptedIff(p: ProcessRow)
    ensures IntendedProcessAccepted(p) <==>
      (p.duration.None? || p.duration.value >= 0.0) && (p.electricPower.None? || p.electricPower.value >= 0.0)
  {
  }

  /** A negative duration with no power, or with a non-negative power, passes the check as written. */
  lemma ProcessCheckAdmitsNegativeDuration()
    ensures ProcessAccepted(ProcessRow(Some(-1.0), None))
    ensures !IntendedProcessAccepted(ProcessRow(Some(-1.0), None))
    ensures ProcessAccepted(ProcessRow(Some(-5.0), Some(3.0)))
    ensures !IntendedProcessAccepted(ProcessRow(Some(-5.0), Some(3.0)))
    ensures ProcessAccepted(ProcessRow(Some(0.0), None)) && IntendedProcessAccepted(ProcessRow(Some(0.0), None))
  {
  }

  /** An association row: (plan, process) for `AssocPlanProcess`, (area, process) for `AssocAreaProcess`. */
  datatype Assoc = Assoc(ownerId: int, processId: int)

  /** The composite primary key holds: no pair occurs twice. */
  ghost predicate KeyUnique(rows: seq<Assoc>) {
    forall i, j :: 0 <= i < j < |rows| ==> rows[i] != rows[j]
  }

  datatype AssocError = DuplicateKey | ForeignKeyViolation

  /**
   * Inserting an association row into a table whose owners (plans or areas)
   * and processes are given. The primary-key index is checked when the row
   * is written, the foreign keys afterwards.
   */
  function InsertAssoc(rows: seq<Assoc>, owners: set<int>, processes: set<int>, row: Assoc): (r: Result<seq<Assoc>, AssocError>)
    ensures r == Err(DuplicateKey) <==> row in rows
    ensures r == Err(ForeignKeyViolation) <==> row !in rows && (row.ownerId !in owners || row.processId !in processes)
    ensures r.Ok? ==> r.value == rows + [row]
  {
    if row in rows then Err(DuplicateKey)
    else if row.ownerId !in owners || row.processId !in processes then Err(ForeignKeyViolation)
    else Ok(rows + [row])
  }

  /** Every insertion keeps the key unique and every row referring to existing entities. */
  lemma InsertAssocKeepsKey(rows: seq<Assoc>, owners: set<int>, processes: set<int>, row: Assoc)
    requires KeyUnique(rows)
    requires forall k :: 0 <= k < |rows| ==> rows[k].ownerId in owners && rows[k].processId in processes
    ensures InsertAssoc(rows, owners, processes, row).Ok? ==>
      var rows' := InsertAssoc(rows, owners, processes, row).value;
      KeyUnique(rows') &&
      forall k :: 0 <= k < |rows'| ==> rows'[k].ownerId in owners && rows'[k].processId in processes
  {
    if row !in rows {
      var rows' := rows + [row];
      forall i, j | 0 <= i < j < |rows'| ensures rows'[i] != rows'[j] {
        if j == |rows| {
          assert rows'[i] == rows[i];
        }
      }
    }
  }

  /** Inserting the same pair twice fails the second time. */
  lemma SecondInsertFails(rows: seq<Assoc>, owners: set<int>, processes: set<int>, row: Assoc)
    requires InsertAssoc(rows, owners, processes, row).Ok?
    ensures InsertAssoc(InsertAssoc(rows, owners, processes, row).value, owners, processes, row) == Err(DuplicateKey)
  {
    var rows' := rows + [row];
    assert rows'[|rows|] == row;
  }
}
