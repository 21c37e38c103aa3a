/**
 * The row-level CHECK constraints of the network tables: a station's
 * charging fields are set exactly when it is electrified, and a trip
 * arrives strictly after it departs.
 */
module Network {
  import opened Wrappers
  import opened SqlLogic

  datatype ChargeType = Depot | Opportunity
  datatype VoltageLevel = LV | MV

  /** The columns of a `Station` row that its CHECK constraint reads (location and names are left out). */
  datatype StationRow = StationRow(
    isElectrified: bool,
    amountChargingPoles: Option<int>,
    powerPerCharger: Option<real>,
    powerTotal: Option<real>,
    chargeType: Option<ChargeType>,
    voltageLevel: Option<VoltageLevel>)

  /** Which of the five charging fields are non-NULL, in column order. */
  function ChargingFieldsSet(s: StationRow): seq<bool> {
    [s.amountChargingPoles.Some?, s.powerPerCharger.Some?, s.powerTotal.Some?,
     s.chargeType.Some?, s.voltageLevel.Some?]
  }

  /** `station_electrified_check`, evaluated in SQL's three-valued logic (AND binds tighter than OR). */
  function StationElectrifiedCheck(s: StationRow): Truth {
    Or(
      And(FromBool(s.isElectrified == true),
        And(IsNotNull(s.amountChargingPoles), And(IsNotNull(s.powerPerCharger),
        And(IsNotNull(s.powerTotal), And(IsNotNull(s.chargeType), IsNotNull(s.voltageLevel)))))),
      And(FromBool(s.isElectrified == false),
        And(IsNull(s.amountChargingPoles), And(IsNull(s.powerPerCharger),
        And(IsNull(s.powerTotal), And(IsNull(s.chargeType), IsNull(s.voltageLevel)))))))
  }

  predicate StationAccepted(s: StationRow) {
    Admits(StationElectrifiedCheck(s))
  }

  /** An electrified station needs all five charging fields; a non-electrified one needs none of them. */
  lemma StationAcceptedIff(s: StationRow)
    ensures StationAccepted(s) <==>
      (s.isElectrified && ChargingFieldsSet(s) == [true, true, true, true, true]) ||
      (!s.isElectrified && ChargingFieldsSet(s) == [false, false, false, false, false])
  {
  }

  /** The check reads only whether the charging fields are NULL, never their values. */
  lemma StationCheckReadsOnlyNullness(s: StationRow, t: StationRow)
    requires s.isElectrified == t.isElectrified
    requires ChargingFieldsSet(s) == ChargingFieldsSet(t)
    ensures StationAccepted(s) == StationAccepted(t)
  {
    assert ChargingFieldsSet(s)[0] == ChargingFieldsSet(t)[0];
    assert ChargingFieldsSet(s)[1] == ChargingFieldsSet(t)[1];
    assert ChargingFieldsSet(s)[2] == ChargingFieldsSet(t)[2];
    assert ChargingFieldsSet(s)[3] == ChargingFieldsSet(t)[3];
    assert ChargingFieldsSet(s)[4] == ChargingFieldsSet(t)[4];
  }

  /** The stations of tests/test_network.py. */
  lemma StationExamples()
    ensures !StationAccepted(StationRow(true, None, None, None, None, None))
    ensures !StationAccepted(StationRow(false, None, None, Some(100.0), None, None))
    ensures StationAccepted(StationRow(false, None, None, None, None, None))
    ensures StationAccepted(StationRow(true, Some(2), Some(22.0), Some(44.0), Some(Depot), Some(LV)))
  {
  }

  /** The columns of the network `Trip` row that its CHECK constraint reads. Times are in seconds. */
  datatype TripRow = TripRow(departureStationId: int, arrivalStationId: int, departureTime: int, arrivalTime: int)

  /** `trip_arrival_after_departure_check`; both columns are NOT NULL. */
  function TripArrivalAfterDepartureCheck(t: TripRow): Truth {
    FromBool(t.arrivalTime > t.departureTime)
  }

  predicate TripAccepted(t: TripRow) {
    Admits(TripArrivalAfterDepartureCheck(t))
  }

  /** A trip is accepted exactly when it arrives strictly after it departs. */
  lemma TripAcceptedIff(t: TripRow)
    ensures TripAccepted(t) <==> t.arrivalTime > t.departureTime
    ensures !TripAccepted(t.(departureTime := t.arrivalTime)) && !TripAccepted(t.(departureTime := t.arrivalTime + 60))
  {
  }
}
