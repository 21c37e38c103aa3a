/**
 * The schedule tables and their pre-flush validators: a trip's stop times
 * must start and end with the trip and its route and visit the route's
 * stations in order; consecutive trips of a rotation must connect in space
 * and time. Stations are ids, times are integer seconds.
 */
module Schedule {
  import opened Wrappers
  import opened Sorting

  type StationId = int

  /** A `StopTime` row. */
  datatype StopTime = StopTime(tripId: int, stationId: StationId, arrivalTime: int, dwellDuration: int)

  /** A station of a route together with the distance travelled when it is reached. */
  datatype RouteStation = RouteStation(stationId: StationId, elapsedDistance: real)

  /** What the validators read of a route: its terminal stations and its associated stations. */
  datatype Route = Route(departureStationId: StationId, arrivalStationId: StationId, routeStations: seq<RouteStation>)

  /** A `Trip` with its route and its stop times. */
  datatype Trip = Trip(route: Route, departureTime: int, arrivalTime: int, stopTimes: seq<StopTime>)

  function ArrivalKey(st: StopTime): real {
    st.arrivalTime as real
  }

  function DistanceKey(rs: RouteStation): real {
    rs.elapsedDistance
  }

  function StopStations(sts: seq<StopTime>): seq<StationId> {
    seq(|sts|, k requires 0 <= k < |sts| => sts[k].stationId)
  }

  function RouteStationIds(rss: seq<RouteStation>): seq<StationId> {
    seq(|rss|, k requires 0 <= k < |rss| => rss[k].stationId)
  }

  // ----- Row-level constraints -----

  /** `trip_arrival_after_departure_check`; both columns are NOT NULL. */
  predicate TripAccepted(t: Trip) {
    t.arrivalTime > t.departureTime
  }

  /** `stop_time_dwell_duration_positive_check`; the column is NOT NULL. */
  predicate StopTimeAccepted(st: StopTime) {
    st.dwellDuration >= 0
  }

  /** The two UNIQUE constraints of a stop-time table: per trip, arrival times and stations are unique. */
  ghost predicate StopTimesUnique(rows: seq<StopTime>) {
    forall i, j :: 0 <= i < j < |rows| && rows[i].tripId == rows[j].tripId ==>
      rows[i].arrivalTime != rows[j].arrivalTime && rows[i].stationId != rows[j].stationId
  }

  datatype StopTimeError = DwellDurationNegative | ArrivalNotUnique | StationNotUnique

  /**
   * Inserting a stop-time row: the CHECK constraint is tested first, then the
   * two UNIQUE indexes in the order they are declared.
   */
  function InsertStopTime(rows: seq<StopTime>, st: StopTime): (r: Result<seq<StopTime>, StopTimeError>)
    ensures r.Ok? <==> (StopTimeAccepted(st) &&
      forall k :: 0 <= k < |rows| && rows[k].tripId == st.tripId ==>
        rows[k].arrivalTime != st.arrivalTime && rows[k].stationId != st.stationId)
    ensures r.Ok? ==> r.value == rows + [st]
    ensures r == Err(DwellDurationNegative) <==> st.dwellDuration < 0
  {
    if !StopTimeAccepted(st) then Err(DwellDurationNegative)
    else if exists k :: 0 <= k < |rows| && rows[k].tripId == st.tripId && rows[k].arrivalTime == st.arrivalTime then
      Err(ArrivalNotUnique)
    else if exists k :: 0 <= k < |rows| && rows[k].tripId == st.tripId && rows[k].stationId == st.stationId then
      Err(StationNotUnique)
    else Ok(rows + [st])
  }

  lemma InsertStopTimeKeepsUnique(rows: seq<StopTime>, st: StopTime)
    requires StopTimesUnique(rows)
    ensures InsertStopTime(rows, st).Ok? ==> StopTimesUnique(InsertStopTime(rows, st).value)
  {
    if InsertStopTime(rows, st).Ok? {
      var rows' := rows + [st];
      forall i, j | 0 <= i < j < |rows'| && rows'[i].tripId == rows'[j].tripId
        ensures rows'[i].arrivalTime != rows'[j].arrivalTime && rows'[i].stationId != rows'[j].stationId
      {
        assert rows'[i] == rows[i];
      }
    }
  }

  /**
   * For the stop times of one trip that satisfy the UNIQUE constraints,
   * sorting by arrival yields strictly increasing arrival times.
   */
  lemma SortedStopTimesStrict(sts: seq<StopTime>, tripId: int)
    requires StopTimesUnique(sts)
    requires forall k :: 0 <= k < |sts| ==> sts[k].tripId == tripId
    ensures forall i, j :: 0 <= i < j < |sts| ==>
      SortBy(sts, ArrivalKey)[i].arrivalTime < SortBy(sts, ArrivalKey)[j].arrivalTime
  {
    assert DistinctKeys(sts, ArrivalKey) by {
      forall i, j | 0 <= i < j < |sts| ensures ArrivalKey(sts[i]) != ArrivalKey(sts[j]) {
        assert sts[i].arrivalTime != sts[j].arrivalTime;
      }
    }
    SortByStrict(sts, ArrivalKey);
  }

  // ----- Subsequences -----

  /** Greedy test whether `a` is a subsequence of `b`: match `a[0]` with the first equal element of `b`. */
  function IsSubsequence(a: seq<StationId>, b: seq<StationId>): (r: bool)
    ensures a == [] ==> r
    ensures r ==> |a| <= |b|
    decreases |b|
  {
    if a == [] then true
    else if b == [] then false
    else if a[0] == b[0] then IsSubsequence(a[1..], b[1..])
    else IsSubsequence(a, b[1..])
  }

  /** `idx` sends each position of `a` to an equal element of `b`, strictly increasingly. */
  ghost predicate IsEmbedding(idx: seq<int>, a: seq<StationId>, b: seq<StationId>) {
    && |idx| == |a|
    && (forall k :: 0 <= k < |idx| ==> 0 <= idx[k] < |b| && a[k] == b[idx[k]])
    && (forall k, l :: 0 <= k < l < |idx| ==> idx[k] < idx[l])
  }

  /** `a` occurs in `b` in order, each element of `b` matching at most one element of `a`. */
  ghost predicate Embeds(a: seq<StationId>, b: seq<StationId>) {
    exists idx :: IsEmbedding(idx, a, b)
  }

  /** The greedy test accepts exactly the subsequences. */
  lemma SubsequenceIffEmbeds(a: seq<StationId>, b: seq<StationId>)
    ensures IsSubsequence(a, b) <==> Embeds(a, b)
  {
    if IsSubsequence(a, b) {
      var idx := GreedyEmbedding(a, b);
    }
    if Embeds(a, b) {
      var idx :| IsEmbedding(idx, a, b);
      EmbeddingIsSubsequence(idx, a, b);
    }
  }

  lemma {:induction false} GreedyEmbedding(a: seq<StationId>, b: seq<StationId>) returns (idx: seq<int>)
    requires IsSubsequence(a, b)
    ensures IsEmbedding(idx, a, b)
    decreases |b|
  {
    if a == [] {
      idx := [];
    } else if a[0] == b[0] {
      var rest := GreedyEmbedding(a[1..], b[1..]);
      idx := [0] + seq(|rest|, k requires 0 <= k < |rest| => rest[k] + 1);
      forall k | 0 < k < |idx| ensures 0 <= idx[k] < |b| && a[k] == b[idx[k]] {
        assert idx[k] == rest[k - 1] + 1;
        assert a[k] == a[1..][k - 1];
      }
    } else {
      var rest := GreedyEmbedding(a, b[1..]);
      idx := seq(|rest|, k requires 0 <= k < |rest| => rest[k] + 1);
    }
  }

  lemma {:induction false} EmbeddingIsSubsequence(idx: seq<int>, a: seq<StationId>, b: seq<StationId>)
    requires IsEmbedding(idx, a, b)
    ensures IsSubsequence(a, b)
    decreases |b|
  {
    if a != [] {
      assert 0 <= idx[0] < |b|;
      if a[0] == b[0] {
        var rest := seq(|idx| - 1, k requires 0 <= k < |idx| - 1 => idx[k + 1] - 1);
        forall k | 0 <= k < |rest| ensures 0 <= rest[k] < |b| - 1 && a[1..][k] == b[1..][rest[k]] {
          assert idx[0] < idx[k + 1];
        }
        assert IsEmbedding(rest, a[1..], b[1..]);
        EmbeddingIsSubsequence(rest, a[1..], b[1..]);
      } else {
        assert idx[0] != 0;
        var rest := seq(|idx|, k requires 0 <= k < |idx| => idx[k] - 1);
        forall k | 0 <= k < |rest| ensures 0 <= rest[k] < |b| - 1 && a[k] == b[1..][rest[k]] {
          if k > 0 {
            assert idx[0] < idx[k];
          }
        }
        assert IsEmbedding(rest, a, b[1..]);
        EmbeddingIsSubsequence(rest, a, b[1..]);
      }
    }
  }

  // ----- check_trip_before_commit -----

  datatype TripError =
    | FirstArrivalNotDeparture
    | LastArrivalNotArrival
    | FirstStopNotRouteStart
    | LastStopNotRouteEnd
    | StopOrderNotRouteOrder

  /** What the pre-flush trip validator decides, in the order it tests. */
  function TripCheck(t: Trip): Outcome<TripError> {
    if |t.stopTimes| == 0 then Pass
    else
      var sorted := SortBy(t.stopTimes, ArrivalKey);
      var first, last := sorted[0], sorted[|sorted| - 1];
      if first.arrivalTime != t.departureTime then Fail(FirstArrivalNotDeparture)
      else if last.arrivalTime != t.arrivalTime then Fail(LastArrivalNotArrival)
      else if first.stationId != t.route.departureStationId then Fail(FirstStopNotRouteStart)
      else if last.stationId != t.route.arrivalStationId then Fail(LastStopNotRouteEnd)
      else if |t.route.routeStations| > 0 &&
        !IsSubsequence(StopStations(sorted), RouteStationIds(SortBy(t.route.routeStations, DistanceKey)))
      then Fail(StopOrderNotRouteOrder)
      else Pass
  }

  /**
   * The validator: sort the stop times by arrival, test both ends, then, if
   * the route has associated stations, test their order.
   */
  method CheckTripBeforeCommit(t: Trip) returns (r: Outcome<TripError>)
    ensures r == TripCheck(t)
  {
    if |t.stopTimes| == 0 {
      return Pass;
    }
    var stops := SortBy(t.stopTimes, ArrivalKey);
    if stops[0].arrivalTime != t.departureTime {
      return Fail(FirstArrivalNotDeparture);
    }
    if stops[|stops| - 1].arrivalTime != t.arrivalTime {
      return Fail(LastArrivalNotArrival);
    }
    if stops[0].stationId != t.route.departureStationId {
      return Fail(FirstStopNotRouteStart);
    }
    if stops[|stops| - 1].stationId != t.route.arrivalStationId {
      return Fail(LastStopNotRouteEnd);
    }
    if |t.route.routeStations| > 0 {
      var stations := SortBy(t.route.routeStations, DistanceKey);
      var inOrder := PopInOrder(stops, stations);
      if !inOrder {
        return Fail(StopOrderNotRouteOrder);
      }
    }
    return Pass;
  }

  /**
   * The pop loop of the validator: pop a route station and a stop time from
   * the fronts of the two lists, and keep popping route stations until one is
   * at the stop time's station. Running out of route stations (the
   * `IndexError`) yields false.
   */
  method PopInOrder(stops: seq<StopTime>, stations: seq<RouteStation>) returns (inOrder: bool)
    ensures inOrder == IsSubsequence(StopStations(stops), RouteStationIds(stations))
  {
    ghost var a, b := StopStations(stops), RouteStationIds(stations);
    var i, j := 0, 0;
    while i < |stops|
      invariant 0 <= i <= |stops| && 0 <= j <= |stations|
      invariant IsSubsequence(a[i..], b[j..]) == IsSubsequence(a, b)
      decreases |stops| - i
    {
      if j == |stations| {
        assert b[j..] == [];
        return false;
      }
      var station := stations[j];
      j := j + 1;
      var stop := stops[i];
      i := i + 1;
      while stop.stationId != station.stationId
        invariant 0 < i <= |stops| && 0 < j <= |stations|
        invariant stop == stops[i - 1] && station == stations[j - 1]
        invariant IsSubsequence(a[i - 1..], b[j - 1..]) == IsSubsequence(a, b)
        decreases |stations| - j
      {
        assert a[i - 1..][0] != b[j - 1..][0];
        assert b[j - 1..][1..] == b[j..];
        if j == |stations| {
          assert b[j..] == [];
          return false;
        }
        station := stations[j];
        j := j + 1;
      }
      assert a[i - 1..][0] == b[j - 1..][0];
      assert a[i - 1..][1..] == a[i..] && b[j - 1..][1..] == b[j..];
    }
    assert a[i..] == [];
    return true;
  }

  /** `x` is the earliest arrival among `sts`. */
  ghost predicate IsEarliestArrival(sts: seq<StopTime>, x: int) {
    (exists k :: 0 <= k < |sts| && sts[k].arrivalTime == x) && forall k :: 0 <= k < |sts| ==> x <= sts[k].arrivalTime
  }

  /** `x` is the latest arrival among `sts`. */
  ghost predicate IsLatestArrival(sts: seq<StopTime>, x: int) {
    (exists k :: 0 <= k < |sts| && sts[k].arrivalTime == x) && forall k :: 0 <= k < |sts| ==> sts[k].arrivalTime <= x
  }

  /** A trip without stop times passes, whatever its route and times. */
  lemma TripWithoutStopTimesPasses(t: Trip)
    requires |t.stopTimes| == 0
    ensures TripCheck(t) == Pass
  {
  }

  /**
   * With stop times, the two time tests pass exactly when the earliest stop
   * arrival is the trip's departure and the latest is the trip's arrival.
   */
  lemma TripCheckTimesIff(t: Trip)
    requires |t.stopTimes| > 0
    ensures (TripCheck(t) != Fail(FirstArrivalNotDeparture) && TripCheck(t) != Fail(LastArrivalNotArrival)) <==>
      (IsEarliestArrival(t.stopTimes, t.departureTime) && IsLatestArrival(t.stopTimes, t.arrivalTime))
  {
    var sorted := SortBy(t.stopTimes, ArrivalKey);
    SortedArrivalEnds(t.stopTimes);
    if IsEarliestArrival(t.stopTimes, t.departureTime) {
      EarliestUnique(t.stopTimes, t.departureTime, sorted[0].arrivalTime);
    }
    if IsLatestArrival(t.stopTimes, t.arrivalTime) {
      LatestUnique(t.stopTimes, t.arrivalTime, sorted[|sorted| - 1].arrivalTime);
    }
  }

  /** Sorting by arrival puts the earliest arrival first and the latest last. */
  lemma SortedArrivalEnds(sts: seq<StopTime>)
    requires |sts| > 0
    ensures IsEarliestArrival(sts, SortBy(sts, ArrivalKey)[0].arrivalTime)
    ensures IsLatestArrival(sts, SortBy(sts, ArrivalKey)[|sts| - 1].arrivalTime)
  {
    var sorted := SortBy(sts, ArrivalKey);
    SortedEnds(sts, ArrivalKey);
    var first, last := sorted[0], sorted[|sorted| - 1];
    forall k | 0 <= k < |sts| ensures first.arrivalTime <= sts[k].arrivalTime <= last.arrivalTime {
      assert ArrivalKey(first) <= ArrivalKey(sts[k]) <= ArrivalKey(last);
    }
    var kf :| 0 <= kf < |sts| && sts[kf] == first;
    var kl :| 0 <= kl < |sts| && sts[kl] == last;
  }

  lemma EarliestUnique(sts: seq<StopTime>, x: int, y: int)
    requires IsEarliestArrival(sts, x) && IsEarliestArrival(sts, y)
    ensures x == y
  {
    var kx :| 0 <= kx < |sts| && sts[kx].arrivalTime == x;
    var ky :| 0 <= ky < |sts| && sts[ky].arrivalTime == y;
  }

  lemma LatestUnique(sts: seq<StopTime>, x: int, y: int)
    requires IsLatestArrival(sts, x) && IsLatestArrival(sts, y)
    ensures x == y
  {
    var kx :| 0 <= kx < |sts| && sts[kx].arrivalTime == x;
    var ky :| 0 <= ky < |sts| && sts[ky].arrivalTime == y;
  }

  /**
   * A passing trip with stop times has an earliest stop time at the route's
   * departure station and at the trip's departure time, and a latest one at
   * the route's arrival station and at the trip's arrival time.
   */
  lemma TripCheckTerminals(t: Trip)
    requires |t.stopTimes| > 0 && TripCheck(t) == Pass
    ensures exists k :: (0 <= k < |t.stopTimes| &&
      t.stopTimes[k].arrivalTime == t.departureTime && t.stopTimes[k].stationId == t.route.departureStationId)
    ensures exists k :: (0 <= k < |t.stopTimes| &&
      t.stopTimes[k].arrivalTime == t.arrivalTime && t.stopTimes[k].stationId == t.route.arrivalStationId)
    ensures IsEarliestArrival(t.stopTimes, t.departureTime) && IsLatestArrival(t.stopTimes, t.arrivalTime)
  {
    TripCheckTimesIff(t);
    var sorted := SortBy(t.stopTimes, ArrivalKey);
    SortedEnds(t.stopTimes, ArrivalKey);
    var kf :| 0 <= kf < |t.stopTimes| && t.stopTimes[kf] == sorted[0];
    var kl :| 0 <= kl < |t.stopTimes| && t.stopTimes[kl] == sorted[|sorted| - 1];
  }

  /**
   * Once both ends match, a route with associated stations decides the
   * outcome: the trip passes exactly when its stations in arrival order
   * embed in the route's stations in distance order.
   */
  lemma TripCheckOrderIff(t: Trip)
    requires |t.stopTimes| > 0 && |t.route.routeStations| > 0
    requires TripCheck(t) == Pass || TripCheck(t) == Fail(StopOrderNotRouteOrder)
    ensures TripCheck(t) == Pass <==>
      Embeds(StopStations(SortBy(t.stopTimes, ArrivalKey)), RouteStationIds(SortBy(t.route.routeStations, DistanceKey)))
  {
    SubsequenceIffEmbeds(StopStations(SortBy(t.stopTimes, ArrivalKey)), RouteStationIds(SortBy(t.route.routeStations, DistanceKey)));
  }

  /** No two stop times share an arrival time, as the UNIQUE constraint ensures within one trip. */
  ghost predicate ArrivalsDistinct(sts: seq<StopTime>) {
    forall i, j :: 0 <= i < j < |sts| ==> sts[i].arrivalTime != sts[j].arrivalTime
  }

  /**
   * The validator's verdict in terms of the trip's data: a trip with stop
   * times passes exactly when it departs at the earliest arrival, from the
   * route's departure station, arrives at the latest arrival, at the route's
   * arrival station, and, when the route has associated stations, visits
   * them in order. The stations need distinct arrival times: otherwise the
   * sort's tie-break decides which stop time is first or last.
   */
  lemma TripPassesIff(t: Trip)
    requires ArrivalsDistinct(t.stopTimes)
    ensures TripCheck(t) == Pass <==>
      |t.stopTimes| == 0 ||
      (IsEarliestArrival(t.stopTimes, t.departureTime) &&
       IsLatestArrival(t.stopTimes, t.arrivalTime) &&
       (exists k :: 0 <= k < |t.stopTimes| &&
         t.stopTimes[k].arrivalTime == t.departureTime && t.stopTimes[k].stationId == t.route.departureStationId) &&
       (exists k :: 0 <= k < |t.stopTimes| &&
         t.stopTimes[k].arrivalTime == t.arrivalTime && t.stopTimes[k].stationId == t.route.arrivalStationId) &&
       (|t.route.routeStations| == 0 ||
        Embeds(StopStations(SortBy(t.stopTimes, ArrivalKey)), RouteStationIds(SortBy(t.route.routeStations, DistanceKey)))))
  {
    var sts := t.stopTimes;
    if |sts| > 0 {
      var sorted := SortBy(sts, ArrivalKey);
      SubsequenceIffEmbeds(StopStations(sorted), RouteStationIds(SortBy(t.route.routeStations, DistanceKey)));
      if TripCheck(t) == Pass {
        TripCheckTerminals(t);
      }
      if IsEarliestArrival(sts, t.departureTime) && IsLatestArrival(sts, t.arrivalTime) {
        TripCheckTimesIff(t);
        SortedEnds(sts, ArrivalKey);
        if k :| 0 <= k < |sts| && sts[k].arrivalTime == t.departureTime && sts[k].stationId == t.route.departureStationId {
          SameArrivalSameStop(sts, k, sorted[0]);
        }
        if k :| 0 <= k < |sts| && sts[k].arrivalTime == t.arrivalTime && sts[k].stationId == t.route.arrivalStationId {
          SameArrivalSameStop(sts, k, sorted[|sorted| - 1]);
        }
      }
    }
  }

  /** With distinct arrivals, a stop time of `sts` is the one at its arrival time. */
  lemma SameArrivalSameStop(sts: seq<StopTime>, k: int, st: StopTime)
    requires ArrivalsDistinct(sts) && 0 <= k < |sts| && st in sts && st.arrivalTime == sts[k].arrivalTime
    ensures st == sts[k]
  {
    var j :| 0 <= j < |sts| && sts[j] == st;
  }

  /** A route without associated stations skips the order test. */
  lemma RouteWithoutStationsSkipsOrder(t: Trip)
    requires |t.route.routeStations| == 0
    ensures TripCheck(t) != Fail(StopOrderNotRouteOrder)
  {
  }

  // ----- check_rotation_before_commit -----

  datatype RotationError = NotContiguousInSpace | NotContiguousInTime

  /** Trip `b` can follow trip `a`: it starts where `a` ends, and not before `a` arrives. */
  predicate Connects(a: Trip, b: Trip) {
    a.route.arrivalStationId == b.route.departureStationId && a.arrivalTime <= b.departureTime
  }

  predicate RotationContiguous(trips: seq<Trip>) {
    forall i :: 0 <= i < |trips| - 1 ==> Connects(trips[i], trips[i + 1])
  }

  /** The pair at `i` is the first that does not connect. */
  ghost predicate FirstGapAt(trips: seq<Trip>, i: int) {
    0 <= i < |trips| - 1 && !Connects(trips[i], trips[i + 1]) &&
    forall j :: 0 <= j < i ==> Connects(trips[j], trips[j + 1])
  }

  /**
   * The rotation validator: for each consecutive pair of trips, test the
   * stations first and then the times, and fail at the first pair that does
   * not connect.
   */
  method CheckRotationBeforeCommit(trips: seq<Trip>) returns (r: Outcome<RotationError>)
    ensures r.Pass? <==> RotationContiguous(trips)
    ensures r.Fail? ==> exists i :: (FirstGapAt(trips, i) &&
      (r.error == NotContiguousInSpace <==> trips[i].route.arrivalStationId != trips[i + 1].route.departureStationId))
  {
    var i := 0;
    while i < |trips| - 1
      invariant 0 <= i
      invariant |trips| == 0 ==> i == 0
      invariant |trips| > 0 ==> i <= |trips| - 1
      invariant forall j :: 0 <= j < i ==> Connects(trips[j], trips[j + 1])
    {
      if trips[i].route.arrivalStationId != trips[i + 1].route.departureStationId {
        assert FirstGapAt(trips, i);
        return Fail(NotContiguousInSpace);
      }
      if trips[i].arrivalTime > trips[i + 1].departureTime {
        assert FirstGapAt(trips, i);
        return Fail(NotContiguousInTime);
      }
      i := i + 1;
    }
    return Pass;
  }

  /**
   * In a contiguous rotation of trips that each pass the trip CHECK
   * constraint, every trip arrives before any later trip departs, and
   * departure times strictly increase.
   */
  lemma {:induction false} RotationDeparturesIncrease(trips: seq<Trip>)
    requires RotationContiguous(trips)
    requires forall k :: 0 <= k < |trips| ==> TripAccepted(trips[k])
    ensures forall i, j :: 0 <= i < j < |trips| ==>
      trips[i].arrivalTime <= trips[j].departureTime && trips[i].departureTime < trips[j].departureTime
  {
    forall i, j | 0 <= i < j < |trips|
      ensures trips[i].arrivalTime <= trips[j].departureTime && trips[i].departureTime < trips[j].departureTime
    {
      ArrivesBeforeLaterDeparture(trips, i, j);
    }
  }

  lemma {:induction false} ArrivesBeforeLaterDeparture(trips: seq<Trip>, i: int, j: int)
    requires RotationContiguous(trips)
    requires forall k :: 0 <= k < |trips| ==> TripAccepted(trips[k])
    requires 0 <= i < j < |trips|
    ensures trips[i].arrivalTime <= trips[j].departureTime
    ensures trips[i].departureTime < trips[j].departureTime
    decreases j - i
  {
    assert Connects(trips[j - 1], trips[j]);
    if i < j - 1 {
      ArrivesBeforeLaterDeparture(trips, i, j - 1);
      assert TripAccepted(trips[j - 1]);
    } else {
      assert TripAccepted(trips[i]);
    }
  }

  /** Rotations with fewer than two trips are always contiguous. */
  lemma ShortRotationContiguous(trips: seq<Trip>)
    requires |trips| <= 1
    ensures RotationContiguous(trips)
  {
  }
}
