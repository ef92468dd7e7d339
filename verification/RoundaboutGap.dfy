/** The gap search itself: arrivals of circulating vehicles at the conflict point, and the first entry
    time that leaves them room (FindRoundaboutGap in frenet/merge_selector.cpp). */
module RoundaboutGap {
  import opened RealMath
  import opened Collision
  import opened TrajectoryCheck
  import opened MergeSelector

  datatype MergeConfig = MergeConfig(conflictS: real, minObjectSpeed: real, conflictRadius: real, minFrontGap: real,
                                     minRearGap: real, egoClearTime: real, maxWaitTime: real, completionDistance: real)

  datatype Gap = Gap(safe: bool, confirmed: bool, entryTime: real, clearTime: real, precedingId: int,
                     precedingTime: real,
                     followingId: int, followingTime: real, crossingCount: nat)

  const NO_GAP := Gap(false, false, 0.0, 0.0, -1, -1.0, -1, -1.0, 0)

  datatype Arrival = Arrival(id: int, time: real)

  datatype Ego = Ego(s: real, sDot: real)

  const PREDICTION_DT := 0.05
  const SEARCH_DT := 0.1
  const GRID_SLACK := 0.000000001

  // ---------------------------------------------------------------- arrivals

  /** How far a vehicle, predicted with the observed turn rate, is from the conflict point at `time`. */
  function Miss(t: Trig, hypot: (real, real) -> real, conflict: Vec, o: Obstacle, time: real): real {
    var p := PredictedCentre(t, o, time);
    hypot(conflict.x - p.x, conflict.y - p.y)
  }

  function PredictionTime(k: nat): real { k as real * PREDICTION_DT }

  /** The earliest closest approach among the first `n` prediction steps after now: its step and miss. */
  function ClosestApproach(t: Trig, hypot: (real, real) -> real, conflict: Vec, o: Obstacle, n: nat): (r: (nat, real))
    ensures r.0 <= n && r.1 == Miss(t, hypot, conflict, o, PredictionTime(r.0))
  {
    if n == 0 then (0, Miss(t, hypot, conflict, o, PredictionTime(0)))
    else
      var best := ClosestApproach(t, hypot, conflict, o, n - 1);
      var miss := Miss(t, hypot, conflict, o, PredictionTime(n));
      if miss < best.1 then (n, miss) else best
  }

  lemma {:induction false} ClosestApproachIsFirstMinimum(t: Trig, hypot: (real, real) -> real, conflict: Vec,
                                                         o: Obstacle, n: nat)
    ensures var (k, miss) := ClosestApproach(t, hypot, conflict, o, n);
            && (forall j | 0 <= j <= n :: miss <= Miss(t, hypot, conflict, o, PredictionTime(j)))
            && (forall j | 0 <= j < k :: miss < Miss(t, hypot, conflict, o, PredictionTime(j)))
  {
    if n > 0 {
      ClosestApproachIsFirstMinimum(t, hypot, conflict, o, n - 1);
    }
    hide Miss, PredictionTime;
  }

  /** The number of prediction steps up to `horizon`. */
  function PredictionSteps(horizon: real): nat {
    if horizon + GRID_SLACK < 0.0 then 0 else ((horizon + GRID_SLACK) / PREDICTION_DT).Floor
  }

  method FindClosestApproach(t: Trig, hypot: (real, real) -> real, conflict: Vec, o: Obstacle, horizon: real)
    returns (bestT: real, bestMiss: real)
    ensures var (k, miss) := ClosestApproach(t, hypot, conflict, o, PredictionSteps(horizon));
            bestT == PredictionTime(k) && bestMiss == miss
  {
    hide Miss;
    bestT, bestMiss := 0.0, Miss(t, hypot, conflict, o, PredictionTime(0));
    var k := 1;
    while PredictionTime(k) <= horizon + GRID_SLACK
      invariant 1 <= k <= PredictionSteps(horizon) + 1
      invariant bestT == PredictionTime(ClosestApproach(t, hypot, conflict, o, k - 1).0)
      invariant bestMiss == ClosestApproach(t, hypot, conflict, o, k - 1).1
      decreases PredictionSteps(horizon) + 1 - k
    {
      var time := PredictionTime(k);
      var miss := Miss(t, hypot, conflict, o, time);
      if miss < bestMiss {
        bestMiss, bestT := miss, time;
      }
      k := k + 1;
    }
  }

  /** The prediction uses the tracked turn rate where there is one. */
  function Tracked(o: Obstacle, yawRates: map<int, real>): Obstacle {
    if o.id in yawRates then o.(yawRate := yawRates[o.id]) else o
  }

  /** The arrival of a vehicle, if it moves and passes within the conflict radius. */
  function ArrivalOf(t: Trig, hypot: (real, real) -> real, conflict: Vec, o: Obstacle, yawRates: map<int, real>,
                     cfg: MergeConfig): seq<Arrival> {
    var (k, miss) := ClosestApproach(t, hypot, conflict, Tracked(o, yawRates),
                                     PredictionSteps(cfg.maxWaitTime + cfg.egoClearTime));
    if o.speed < cfg.minObjectSpeed || miss > cfg.conflictRadius then [] else [Arrival(o.id, PredictionTime(k))]
  }

  function ArrivalsOf(t: Trig, hypot: (real, real) -> real, conflict: Vec, os: seq<Obstacle>, yawRates: map<int, real>,
                      cfg: MergeConfig): seq<Arrival> {
    if os == [] then []
    else ArrivalsOf(t, hypot, conflict, os[..|os| - 1], yawRates, cfg)
         + ArrivalOf(t, hypot, conflict, os[|os| - 1], yawRates, cfg)
  }

  lemma NoArrivals(t: Trig, hypot: (real, real) -> real, conflict: Vec, yawRates: map<int, real>, cfg: MergeConfig)
    ensures ArrivalsOf(t, hypot, conflict, [], yawRates, cfg) == []
  {
  }

  lemma NextArrival(t: Trig, hypot: (real, real) -> real, conflict: Vec, os: seq<Obstacle>, i: nat, yawRates: map<int,
                    real>, cfg: MergeConfig)
    requires i < |os|
    ensures ArrivalsOf(t, hypot, conflict, os[..i + 1], yawRates, cfg)
         == ArrivalsOf(t, hypot, conflict, os[..i], yawRates, cfg) + ArrivalOf(t, hypot, conflict, os[i], yawRates, cfg)
  {
    hide ArrivalOf;
    assert os[..i + 1][..i] == os[..i];
  }

  /** Vehicle `o`, taken at its tracked turn rate, moves, comes within the radius of the conflict point at prediction
      step `k`, and is at no step nearer and at no earlier step as near. */
  ghost predicate ArrivesAt(t: Trig, hypot: (real, real) -> real, conflict: Vec, o: Obstacle, yawRates: map<int, real>,
                            cfg: MergeConfig, k: nat) {
    && o.speed >= cfg.minObjectSpeed
    && (k as real * 0.05 <= cfg.maxWaitTime + cfg.egoClearTime + GRID_SLACK || k == 0)
    && MissOf(t, hypot, conflict, o, yawRates, k) <= cfg.conflictRadius
    && (forall j: nat | j as real * 0.05 <= cfg.maxWaitTime + cfg.egoClearTime + GRID_SLACK ::
          MissOf(t, hypot, conflict, o, yawRates, k) <= MissOf(t, hypot, conflict, o, yawRates, j))
    && (forall j: nat | j < k ::
          MissOf(t, hypot, conflict, o, yawRates, k) < MissOf(t, hypot, conflict, o, yawRates, j))
  }

  /** How far the predicted vehicle is from the conflict point at step `k`. */
  function MissOf(t: Trig, hypot: (real, real) -> real, conflict: Vec, o: Obstacle, yawRates: map<int, real>,
                  k: nat): real {
    var p := PredictedCentre(t, if o.id in yawRates then o.(yawRate := yawRates[o.id]) else o, k as real * 0.05);
    hypot(conflict.x - p.x, conflict.y - p.y)
  }

  lemma OnSteps(horizon: real, k: nat)
    ensures k <= PredictionSteps(horizon) <==> k as real * 0.05 <= horizon + GRID_SLACK || k == 0
  {
  }

  lemma ArrivalExactly(t: Trig, hypot: (real, real) -> real, conflict: Vec, o: Obstacle, yawRates: map<int, real>,
                       cfg: MergeConfig, x: Arrival)
    ensures x in ArrivalOf(t, hypot, conflict, o, yawRates, cfg)
            <==> x.id == o.id && exists k: nat ::
                x.time == PredictionTime(k) && ArrivesAt(t, hypot, conflict, o, yawRates, cfg, k)
  {
    hide PredictedCentre, PredictionTime;
    var horizon := cfg.maxWaitTime + cfg.egoClearTime;
    var n := PredictionSteps(horizon);
    var (k, miss) := ClosestApproach(t, hypot, conflict, Tracked(o, yawRates), n);
    ClosestApproachIsFirstMinimum(t, hypot, conflict, Tracked(o, yawRates), n);
    forall j: nat
      ensures Miss(t, hypot, conflict, Tracked(o, yawRates), PredictionTime(j))
           == MissOf(t, hypot, conflict, o, yawRates, j)
      ensures j <= n <==> j as real * 0.05 <= horizon + GRID_SLACK || j == 0
    {
      StepMiss(t, hypot, conflict, o, yawRates, j);
      OnSteps(horizon, j);
    }
    hide Miss, MissOf, ClosestApproach, PredictionSteps, Tracked;
    if o.speed >= cfg.minObjectSpeed && miss <= cfg.conflictRadius {
      assert ArrivesAt(t, hypot, conflict, o, yawRates, cfg, k);
    }
  }

  lemma StepMiss(t: Trig, hypot: (real, real) -> real, conflict: Vec, o: Obstacle, yawRates: map<int, real>, k: nat)
    ensures Miss(t, hypot, conflict, Tracked(o, yawRates), PredictionTime(k))
         == MissOf(t, hypot, conflict, o, yawRates, k)
  {
  }

  /** The arrivals are exactly those of the vehicles that arrive. */
  lemma {:induction false} ArrivalsExactly(t: Trig, hypot: (real, real) -> real, conflict: Vec, os: seq<Obstacle>,
                                           yawRates: map<int, real>, cfg: MergeConfig, x: Arrival)
    ensures x in ArrivalsOf(t, hypot, conflict, os, yawRates, cfg)
            <==> exists o, k: nat ::
                o in os && x == Arrival(o.id, PredictionTime(k))
                && ArrivesAt(t, hypot, conflict, o, yawRates, cfg, k)
  {
    hide ArrivalOf, ArrivesAt, PredictionTime;
    if os != [] {
      var last := os[|os| - 1];
      ArrivalsExactly(t, hypot, conflict, os[..|os| - 1], yawRates, cfg, x);
      ArrivalExactly(t, hypot, conflict, last, yawRates, cfg, x);
      assert os == os[..|os| - 1] + [last];
    }
  }

  method CollectArrivals(t: Trig, hypot: (real, real) -> real, conflict: Vec, os: seq<Obstacle>, yawRates: map<int,
                         real>, cfg: MergeConfig)
    returns (arrivals: seq<Arrival>)
    ensures arrivals == ArrivalsOf(t, hypot, conflict, os, yawRates, cfg)
  {
    hide PredictionSteps, ClosestApproach, PredictionTime, Tracked, ArrivalsOf;
    assert ArrivalsOf(t, hypot, conflict, os[..0], yawRates, cfg) == [] by {
      NoArrivals(t, hypot, conflict, yawRates, cfg);
    }
    arrivals := [];
    for i := 0 to |os|
      invariant arrivals == ArrivalsOf(t, hypot, conflict, os[..i], yawRates, cfg)
    {
      NextArrival(t, hypot, conflict, os, i, yawRates, cfg);
      if os[i].speed < cfg.minObjectSpeed {
        continue;
      }
      var time, miss := FindClosestApproach(t, hypot, conflict, Tracked(os[i], yawRates),
                                            cfg.maxWaitTime + cfg.egoClearTime);
      if miss > cfg.conflictRadius {
        continue;
      }
      arrivals := arrivals + [Arrival(os[i].id, time)];
    }
    assert os[..|os|] == os;
  }

  // ---------------------------------------------------------------- sorting

  ghost predicate Sorted(a: seq<Arrival>) { forall i, j | 0 <= i < j < |a| :: a[i].time <= a[j].time }

  function Inserted(a: seq<Arrival>, x: Arrival): seq<Arrival> {
    if a == [] || x.time < a[0].time then [x] + a else [a[0]] + Inserted(a[1..], x)
  }

  lemma {:induction false} InsertedSorted(a: seq<Arrival>, x: Arrival)
    requires Sorted(a)
    ensures Sorted(Inserted(a, x)) && multiset(Inserted(a, x)) == multiset(a) + multiset{x}
    ensures |Inserted(a, x)| == |a| + 1
  {
    InsertedKeeps(a, x);
    if a != [] && a[0].time <= x.time {
      var rest := Inserted(a[1..], x);
      InsertedSorted(a[1..], x);
      forall i | 0 <= i < |rest|
        ensures a[0].time <= rest[i].time
      {
        assert rest[i] in multiset(rest);
        assert rest[i] == x || rest[i] in a[1..];
      }
      assert Sorted([a[0]] + rest);
    }
  }

  lemma {:induction false} InsertedKeeps(a: seq<Arrival>, x: Arrival)
    ensures multiset(Inserted(a, x)) == multiset(a) + multiset{x} && |Inserted(a, x)| == |a| + 1
  {
    if a != [] && a[0].time <= x.time {
      InsertedKeeps(a[1..], x);
      assert a == [a[0]] + a[1..];
    }
  }

  /** The arrivals in order of time; the order of equal times does not matter below. */
  method SortArrivals(a: seq<Arrival>) returns (r: seq<Arrival>)
    ensures Sorted(r) && multiset(r) == multiset(a) && |r| == |a|
  {
    r := [];
    for i := 0 to |a|
      invariant Sorted(r) && multiset(r) == multiset(a[..i]) && |r| == i
    {
      InsertedSorted(r, a[i]);
      r := Inserted(r, a[i]);
      assert a[..i + 1] == a[..i] + [a[i]];
    }
    assert a[..|a|] == a;
  }

  // ---------------------------------------------------------------- room for an entry

  /** Room left around an entry: the front gap after the last vehicle to pass, and the time to clear the
      zone plus the rear gap before the next one. */
  datatype Room = Room(front: real, rear: real)

  /** An entry at `entry` is far enough from one arrival. */
  predicate Leaves(a: Arrival, entry: real, room: Room) {
    if a.time <= entry then entry - a.time >= room.front else a.time - entry >= room.rear
  }

  ghost predicate LeavesAll(arrivals: seq<Arrival>, entry: real, room: Room) {
    forall a | a in arrivals :: Leaves(a, entry, room)
  }

  /** The vehicles just before and just after an entry, as recorded in the result. */
  datatype Neighbours = Neighbours(precedingId: int, precedingTime: real, followingId: int, followingTime: real)

  /** The neighbours when the first `p` of the sorted arrivals are not after the entry. */
  function NeighboursAt(a: seq<Arrival>, p: nat): Neighbours
    requires p <= |a|
  {
    Neighbours(if p > 0 then a[p - 1].id else -1, if p > 0 then a[p - 1].time else -1.0,
               if p < |a| then a[p].id else -1, if p < |a| then a[p].time else -1.0)
  }

  ghost predicate SplitsAt(a: seq<Arrival>, entry: real, p: nat) {
    p <= |a| && (forall i | 0 <= i < p :: a[i].time <= entry) && (p < |a| ==> a[p].time > entry)
  }

  method FindNeighbours(a: seq<Arrival>, entry: real) returns (n: Neighbours, ghost p: nat)
    ensures SplitsAt(a, entry, p) && n == NeighboursAt(a, p)
  {
    n, p := Neighbours(-1, -1.0, -1, -1.0), 0;
    for i := 0 to |a|
      invariant p == i && forall j | 0 <= j < i :: a[j].time <= entry
      invariant n == Neighbours(if i > 0 then a[i - 1].id else -1, if i > 0 then a[i - 1].time else -1.0, -1, -1.0)
    {
      if a[i].time <= entry {
        n := n.(precedingId := a[i].id, precedingTime := a[i].time);
        p := i + 1;
      } else {
        n := n.(followingId := a[i].id, followingTime := a[i].time);
        return;
      }
    }
  }

  /** The two-neighbour test of the search. A negative id stands for no vehicle. */
  predicate Admits(n: Neighbours, entry: real, room: Room) {
    && (n.precedingId < 0 || entry - n.precedingTime >= room.front)
    && (n.followingId < 0 || n.followingTime - entry >= room.rear)
  }

  /** Testing the two neighbours is as good as testing every arrival. */
  lemma NeighboursDecide(a: seq<Arrival>, entry: real, p: nat, room: Room)
    requires Sorted(a) && SplitsAt(a, entry, p) && forall x | x in a :: x.id >= 0
    ensures Admits(NeighboursAt(a, p), entry, room) <==> LeavesAll(a, entry, room)
  {
    if p > 0 {
      assert a[p - 1] in a;
    }
    if p < |a| {
      assert a[p] in a;
    }
    if Admits(NeighboursAt(a, p), entry, room) {
      forall x | x in a
        ensures Leaves(x, entry, room)
      {
        var i :| 0 <= i < |a| && a[i] == x;
        if i < p {
          assert i < p - 1 ==> a[i].time <= a[p - 1].time;
        } else {
          assert p < i ==> a[p].time <= a[i].time;
        }
      }
    }
  }

  // ---------------------------------------------------------------- the search

  function EntryTime(earliest: real, k: nat): real { earliest + k as real * SEARCH_DT }

  /** The `k`-th entry time of the grid lies within the waiting limit. */
  predicate OnGrid(earliest: real, limit: real, k: nat) { EntryTime(earliest, k) <= limit + GRID_SLACK }

  /** `k` is the first grid step whose entry passes the two-neighbour test, or there is none. */
  ghost predicate SearchOutcome(a: seq<Arrival>, earliest: real, limit: real, room: Room, found: bool, k: nat,
                                n: Neighbours) {
    && (forall j, p | 0 <= j < k && OnGrid(earliest, limit, j) && SplitsAt(a, EntryTime(earliest, j), p) ::
          !Admits(NeighboursAt(a, p), EntryTime(earliest, j), room))
    && if found then
         OnGrid(earliest, limit, k) && Admits(n, EntryTime(earliest, k), room)
         && exists p :: SplitsAt(a, EntryTime(earliest, k), p) && n == NeighboursAt(a, p)
       else
         !OnGrid(earliest, limit, k)
  }

  lemma SplitUnique(a: seq<Arrival>, entry: real, p: nat, p': nat)
    requires SplitsAt(a, entry, p) && SplitsAt(a, entry, p')
    ensures p == p'
  {
  }

  method SearchEntry(a: seq<Arrival>, earliest: real, limit: real, room: Room)
    returns (found: bool, entry: real, n: Neighbours)
    ensures exists k: nat ::
              SearchOutcome(a, earliest, limit, room, found, k, n) && (found ==> entry == EntryTime(earliest, k))
  {
    ghost var k: nat := 0;
    entry, found, n := earliest, false, Neighbours(-1, -1.0, -1, -1.0);
    assert EntryTime(earliest, 0) == earliest;
    while entry <= limit + GRID_SLACK
      invariant entry == EntryTime(earliest, k)
      invariant forall j, p | 0 <= j < k && OnGrid(earliest, limit, j) && SplitsAt(a, EntryTime(earliest, j), p) ::
                  !Admits(NeighboursAt(a, p), EntryTime(earliest, j), room)
      decreases ((limit - entry) * 10.0).Floor + 1
    {
      ghost var p;
      n, p := FindNeighbours(a, entry);
      if Admits(n, entry, room) {
        found := true;
        assert SearchOutcome(a, earliest, limit, room, true, k, n);
        return;
      }
      forall p' | SplitsAt(a, entry, p')
        ensures !Admits(NeighboursAt(a, p'), entry, room)
      {
        SplitUnique(a, entry, p, p');
      }
      NextEntry(earliest, k);
      entry, k := entry + SEARCH_DT, k + 1;
    }
    assert SearchOutcome(a, earliest, limit, room, false, k, n);
  }

  lemma NextEntry(earliest: real, k: nat)
    ensures EntryTime(earliest, k + 1) == EntryTime(earliest, k) + SEARCH_DT
  {
  }

  // ---------------------------------------------------------------- the selector

  /** The inputs of one selection: the conflict point interpolated on a (non-empty) reference line. */
  datatype Scene = Scene(t: Trig, hypot: (real, real) -> real, sqrt: real -> real, refEmpty: bool, conflict: Vec,
                         ego: Ego,
                         obstacles: seq<Obstacle>, yawRates: map<int, real>, cfg: MergeConfig, desiredSpeed: real,
                             maxAccel: real)

  function DistanceToConflict(sc: Scene): real { Max(0.0, sc.cfg.conflictS - sc.ego.s) }

  function Earliest(sc: Scene): real {
    MinimumTravelTime(sc.sqrt, DistanceToConflict(sc), sc.ego.sDot, sc.desiredSpeed, sc.maxAccel)
  }

  /** The square of the present speed, and what full acceleration adds to it on the way to the conflict. */
  function SquareNow(sc: Scene): real { sc.ego.sDot * sc.ego.sDot }

  function SquareGained(sc: Scene): real { 2.0 * Max(sc.maxAccel, 0.1) * DistanceToConflict(sc) }

  /** The speed at the conflict that the clearing time is taken from. */
  function EntrySpeed(sc: Scene): real {
    Min(Max(sc.desiredSpeed, 0.5), sc.sqrt(Max(0.0, SquareNow(sc) + SquareGained(sc))))
  }

  /** The time to leave the conflict zone from that speed, with a configured floor. */
  function ClearDuration(sc: Scene): real {
    Max(sc.cfg.egoClearTime, MinimumTravelTime(sc.sqrt, sc.cfg.completionDistance, EntrySpeed(sc), sc.desiredSpeed,
                                               sc.maxAccel))
  }

  function RoomNeeded(sc: Scene): Room { Room(sc.cfg.minFrontGap, ClearDuration(sc) + sc.cfg.minRearGap) }

  function Arrivals(sc: Scene): seq<Arrival> {
    ArrivalsOf(sc.t, sc.hypot, sc.conflict, sc.obstacles, sc.yawRates, sc.cfg)
  }

  /** The result is that of a search over some ordering of the arrivals by time. */
  ghost predicate Searched(sc: Scene, r: Gap, a: seq<Arrival>, k: nat, n: Neighbours) {
    && Sorted(a) && multiset(a) == multiset(Arrivals(sc))
    && SearchOutcome(a, Earliest(sc), sc.cfg.maxWaitTime, RoomNeeded(sc), r.safe, k, n)
    && if r.safe then
         r.entryTime == EntryTime(Earliest(sc), k)
         && n == Neighbours(r.precedingId, r.precedingTime, r.followingId, r.followingTime)
       else
         r.entryTime == sc.cfg.maxWaitTime
             && Neighbours(r.precedingId, r.precedingTime, r.followingId, r.followingTime)
                 == Neighbours(-1, -1.0, -1, -1.0)
  }

  ghost predicate GapOutcome(sc: Scene, r: Gap) {
    if sc.cfg.conflictS < 0.0 || sc.refEmpty then r == NO_GAP
    else
      && r.clearTime == ClearDuration(sc) && r.crossingCount == |Arrivals(sc)|
      && if Earliest(sc) > sc.cfg.maxWaitTime then
           r == NO_GAP.(entryTime := Earliest(sc), clearTime := r.clearTime, crossingCount := r.crossingCount)
         else
           r.confirmed && exists a, k: nat, n :: Searched(sc, r, a, k, n)
  }

  method FindRoundaboutGap(sc: Scene) returns (r: Gap)
    ensures GapOutcome(sc, r)
  {
    hide MinimumTravelTime, ArrivalsOf, SearchOutcome, Sorted;
    r := NO_GAP;
    if sc.cfg.conflictS < 0.0 || sc.refEmpty {
      return;
    }
    var arrivals := CollectArrivals(sc.t, sc.hypot, sc.conflict, sc.obstacles, sc.yawRates, sc.cfg);
    arrivals := SortArrivals(arrivals);
    r := r.(crossingCount := |arrivals|);
    var earliest, clearDuration := Earliest(sc), ClearDuration(sc);
    r := r.(clearTime := clearDuration);
    if earliest > sc.cfg.maxWaitTime {
      r := r.(entryTime := earliest);
      return;
    }
    r := r.(confirmed := true);
    var room := Room(sc.cfg.minFrontGap, clearDuration + sc.cfg.minRearGap);
    var found, entry, n := SearchEntry(arrivals, earliest, sc.cfg.maxWaitTime, room);
    ghost var k: nat :| SearchOutcome(arrivals, earliest, sc.cfg.maxWaitTime, room, found, k, n)
                        && (found ==> entry == EntryTime(earliest, k));
    if found {
      r := r.(safe := true, entryTime := entry, precedingId := n.precedingId, precedingTime := n.precedingTime,
              followingId := n.followingId, followingTime := n.followingTime);
    } else {
      r := r.(entryTime := sc.cfg.maxWaitTime);
    }
    assert Searched(sc, r, arrivals, k, n);
  }

  // ---------------------------------------------------------------- what the result means

  lemma SplitExists(a: seq<Arrival>, entry: real) returns (p: nat)
    ensures SplitsAt(a, entry, p)
  {
    p := 0;
    while p < |a| && a[p].time <= entry
      invariant p <= |a| && forall i | 0 <= i < p :: a[i].time <= entry
    {
      p := p + 1;
    }
  }

  lemma OnGridDown(earliest: real, limit: real, j: nat, k: nat)
    requires j <= k && OnGrid(earliest, limit, k)
    ensures OnGrid(earliest, limit, j)
  {
  }

  /** Where no vehicle carries a negative id, the search answers about all arrivals, not just the two
      neighbours: it finds the first grid entry that leaves every arrival its room, or there is none. */
  lemma SearchDecides(a: seq<Arrival>, earliest: real, limit: real, room: Room, found: bool, k: nat, n: Neighbours)
    requires Sorted(a) && (forall x | x in a :: x.id >= 0) && SearchOutcome(a, earliest, limit, room, found, k, n)
    ensures found ==> OnGrid(earliest, limit, k) && LeavesAll(a, EntryTime(earliest, k), room)
    ensures forall j: nat | OnGrid(earliest, limit, j)
            && (j < k || !found) :: !LeavesAll(a, EntryTime(earliest, j), room)
  {
    hide OnGrid, EntryTime, Admits, LeavesAll, Sorted;
    if found {
      var p :| SplitsAt(a, EntryTime(earliest, k), p) && n == NeighboursAt(a, p);
      NeighboursDecide(a, EntryTime(earliest, k), p, room);
    }
    forall j: nat | OnGrid(earliest, limit, j) && (j < k || !found)
      ensures !LeavesAll(a, EntryTime(earliest, j), room)
    {
      if k <= j {
        OnGridDown(earliest, limit, k, j);
      }
      var p := SplitExists(a, EntryTime(earliest, j));
      NeighboursDecide(a, EntryTime(earliest, j), p, room);
    }
  }

  /** A safe result leaves the front gap after every earlier arrival, and the clearing time plus the rear
      gap before every later one, at the earliest grid time that does; a confirmed unsafe result means no
      grid time does; and a safe result is always confirmed. */
  lemma GapMeaning(sc: Scene, r: Gap)
    requires GapOutcome(sc, r) && forall x | x in Arrivals(sc) :: x.id >= 0
    ensures r.safe ==> r.confirmed
    ensures r.safe ==>
              exists k: nat ::
                && r.entryTime == EntryTime(Earliest(sc), k) && OnGrid(Earliest(sc), sc.cfg.maxWaitTime, k)
                && LeavesAll(Arrivals(sc), r.entryTime, RoomNeeded(sc))
                && forall j | 0 <= j < k :: !LeavesAll(Arrivals(sc), EntryTime(Earliest(sc), j), RoomNeeded(sc))
    ensures r.confirmed && !r.safe ==>
              forall j: nat | OnGrid(Earliest(sc), sc.cfg.maxWaitTime, j) ::
                  !LeavesAll(Arrivals(sc), EntryTime(Earliest(sc), j), RoomNeeded(sc))
  {
    if r.confirmed {
      var a, k: nat, n :| Searched(sc, r, a, k, n);
      hide Earliest, RoomNeeded, Arrivals, SearchOutcome, OnGrid, EntryTime, Sorted, GapOutcome;
      SameArrivals(a, Arrivals(sc));
      SearchDecides(a, Earliest(sc), sc.cfg.maxWaitTime, RoomNeeded(sc), r.safe, k, n);
      if r.safe {
        forall j | 0 <= j < k
          ensures !LeavesAll(Arrivals(sc), EntryTime(Earliest(sc), j), RoomNeeded(sc))
        {
          OnGridDown(Earliest(sc), sc.cfg.maxWaitTime, j, k);
        }
      }
    }
  }

  lemma SameArrivals(a: seq<Arrival>, b: seq<Arrival>)
    requires multiset(a) == multiset(b)
    ensures forall x :: x in a <==> x in b
  {
    forall x
      ensures x in a <==> x in b
    {
      assert x in a <==> x in multiset(a);
      assert x in b <==> x in multiset(b);
    }
  }
}
