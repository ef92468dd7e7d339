/** The planner's control loop: which path goes out when planning succeeds, fails or is blocked
    (src/frenet_planner/src/main.cpp). */
module PlannerLoop {
  import opened Wrappers

  datatype VehicleState = VehicleState(x: real, y: real, yaw: real, v: real, steer: real, accel: real)

  datatype Sample = Sample(x: real, y: real, yaw: real, kappa: real, v: real, a: real)

  type Path = seq<Sample>

  /** What a call of the planner yields. */
  datatype Plan = Planned(path: Path) | CollisionBlocked | NoValidPath

  /** One pass of the loop: no vehicle state available, or a state and the plan made from it. */
  datatype Tick = Waiting | Planning(state: VehicleState, plan: Plan)

  const MAX_TRANSIENT_FAIL_CYCLES := 5

  /** One sample at rest at the given pose. */
  function MakeStopPath(s: VehicleState): Path {
    [Sample(s.x, s.y, s.yaw, 0.0, 0.0, 0.0)]
  }

  // ---------------------------------------------------------------- reading a run

  /** The path a planning pass yields of its own. */
  ghost function OwnPath(t: Tick): Path
    requires t.Planning?
  {
    if t.plan.Planned? then t.plan.path else MakeStopPath(t.state)
  }

  /** The number of planning passes since the last success, waiting passes not counted. */
  ghost function FailRun(h: seq<Tick>): nat {
    if h == [] then 0
    else
      var t := h[|h| - 1];
      if t.Waiting? then FailRun(h[..|h| - 1])
      else if t.plan.Planned? then 0
      else FailRun(h[..|h| - 1]) + 1
  }

  ghost predicate AnyPlanning(h: seq<Tick>) {
    exists i | 0 <= i < |h| :: h[i].Planning?
  }

  /** Pass j replaces the remembered path: it plans, is blocked, is the first ever, or failed too often in a row. */
  ghost predicate Refreshes(h: seq<Tick>, j: nat)
    requires j < |h|
  {
    && h[j].Planning?
    && (!h[j].plan.NoValidPath? || !AnyPlanning(h[..j]) || FailRun(h[..j + 1]) > MAX_TRANSIENT_FAIL_CYCLES)
  }

  /** Pass j is the last one to replace the remembered path. */
  ghost predicate IsOrigin(h: seq<Tick>, j: nat) {
    j < |h| && Refreshes(h, j) && forall k: nat | j < k < |h| :: !Refreshes(h, k)
  }

  /** The vehicle state received last. */
  ghost function LastState(h: seq<Tick>): Option<VehicleState> {
    if h == [] then None
    else if h[|h| - 1].Planning? then Some(h[|h| - 1].state)
    else LastState(h[..|h| - 1])
  }

  /** The number of planning passes from `from` on. */
  ghost function PlanningPasses(h: seq<Tick>, from: nat): nat
    requires from <= |h|
    decreases |h| - from
  {
    if from == |h| then 0 else (if h[from].Planning? then 1 else 0) + PlanningPasses(h, from + 1)
  }

  /** What the last pass of a history sends. */
  ghost predicate SendsRightly(h: seq<Tick>, sent: Option<Path>)
    requires h != []
  {
    var t := h[|h| - 1];
    if t.Waiting? then
      sent == match LastState(h) { case None => None case Some(s) => Some(MakeStopPath(s)) }
    else
      exists j: nat :: IsOrigin(h, j) && sent == Some(OwnPath(h[j]))
  }

  // ---------------------------------------------------------------- the loop

  class Loop {
    var planFailStreak: nat
    var lastPath: Path
    var hasLastPath: bool
    var lastState: VehicleState
    var hasLastState: bool
    ghost var history: seq<Tick>

    ghost predicate Valid()
      reads this
    {
      && planFailStreak == FailRun(history)
      && (hasLastPath <==> AnyPlanning(history))
      && (hasLastPath ==> exists j: nat :: IsOrigin(history, j) && lastPath == OwnPath(history[j]))
      && (hasLastState <==> LastState(history).Some?)
      && (hasLastState ==> LastState(history) == Some(lastState))
    }

    constructor ()
      ensures Valid() && history == []
    {
      planFailStreak := 0;
      lastPath := [];
      hasLastPath := false;
      lastState := VehicleState(0.0, 0.0, 0.0, 0.0, 0.0, 0.0);
      hasLastState := false;
      history := [];
    }

    /** One pass without a vehicle state. */
    method Wait() returns (sent: Option<Path>)
      requires Valid()
      modifies this`history
      ensures Valid() && history == old(history) + [Waiting]
      ensures SendsRightly(history, sent)
    {
      sent := None;
      if hasLastState {
        sent := Some(MakeStopPath(lastState));
      }
      history := history + [Waiting];
      Extends(old(history), Waiting);
    }

    /** One pass with a vehicle state and the plan made from it. */
    method Pass(state: VehicleState, plan: Plan) returns (sent: Path)
      requires Valid()
      modifies this
      ensures Valid() && history == old(history) + [Planning(state, plan)]
      ensures SendsRightly(history, Some(sent))
    {
      hide FailRun, AnyPlanning, LastState, Refreshes, IsOrigin;
      ghost var n := |history|;
      Extends(history, Planning(state, plan));
      lastState, hasLastState := state, true;
      if plan.Planned? {
        planFailStreak := 0;
        lastPath, hasLastPath := plan.path, true;
        sent := plan.path;
      } else {
        planFailStreak := planFailStreak + 1;
        if plan.CollisionBlocked? {
          lastPath, hasLastPath := MakeStopPath(state), true;
          sent := lastPath;
        } else if hasLastPath && planFailStreak <= MAX_TRANSIENT_FAIL_CYCLES {
          sent := lastPath;
        } else {
          lastPath, hasLastPath := MakeStopPath(state), true;
          sent := lastPath;
        }
      }
      history := history + [Planning(state, plan)];
      assert history[n] == Planning(state, plan);
      if Refreshes(history, n) {
        assert IsOrigin(history, n) && sent == OwnPath(history[n]);
      } else {
        ghost var j: nat :| IsOrigin(old(history), j) && lastPath == OwnPath(old(history)[j]);
        assert IsOrigin(history, j) && sent == OwnPath(history[j]);
      }
    }
  }

  /** How the readings of a history change with one more pass. */
  lemma Extends(h: seq<Tick>, t: Tick)
    ensures var h' := h + [t];
            && (forall j: nat | IsOrigin(h, j) :: j < |h| && h[j].Planning?)
            && FailRun(h') == (if t.Waiting? then FailRun(h) else if t.plan.Planned? then 0 else FailRun(h) + 1)
            && (AnyPlanning(h') <==> AnyPlanning(h) || t.Planning?)
            && LastState(h') == (if t.Planning? then Some(t.state) else LastState(h))
            && (Refreshes(h', |h|) ==> IsOrigin(h', |h|))
            && (!Refreshes(h', |h|) ==> forall j: nat :: IsOrigin(h', j) <==> IsOrigin(h, j))
            && (Refreshes(h', |h|) <==>
                 t.Planning? && (!t.plan.NoValidPath? || !AnyPlanning(h) || FailRun(h) + 1 > MAX_TRANSIENT_FAIL_CYCLES))
  {
    var h' := h + [t];
    assert h'[..|h|] == h && h'[..|h| + 1] == h';
    AnyPlanningGrows(h, t);
    OriginMoves(h, t);
    hide AnyPlanning, IsOrigin;
  }

  lemma AnyPlanningGrows(h: seq<Tick>, t: Tick)
    ensures AnyPlanning(h + [t]) <==> AnyPlanning(h) || t.Planning?
  {
    var h' := h + [t];
    if AnyPlanning(h) {
      var i :| 0 <= i < |h| && h[i].Planning?;
      assert h'[i].Planning?;
    }
    if t.Planning? {
      assert h'[|h|].Planning?;
    }
  }

  lemma OriginMoves(h: seq<Tick>, t: Tick)
    ensures var h' := h + [t];
            && (forall j: nat | IsOrigin(h, j) :: j < |h| && h[j].Planning?)
            && (Refreshes(h', |h|) ==> IsOrigin(h', |h|))
            && (!Refreshes(h', |h|) ==> forall j: nat :: IsOrigin(h', j) <==> IsOrigin(h, j))
  {
    var h' := h + [t];
    forall j: nat | j < |h|
      ensures (Refreshes(h', j) <==> Refreshes(h, j)) && (Refreshes(h, j) ==> h[j].Planning?)
    {
      assert h'[..j] == h[..j] && h'[..j + 1] == h[..j + 1];
    }
    hide Refreshes;
  }

  // ---------------------------------------------------------------- what every run sends

  /** There is only one origin, so SendsRightly determines what is sent. */
  lemma OriginIsUnique(h: seq<Tick>, i: nat, j: nat)
    requires IsOrigin(h, i) && IsOrigin(h, j)
    ensures i == j
  {
  }

  lemma {:induction false} FailRunBridges(h: seq<Tick>, j: nat)
    requires j < |h| && forall k | j < k < |h| :: h[k].Waiting? || !h[k].plan.Planned?
    ensures FailRun(h) == FailRun(h[..j + 1]) + PlanningPasses(h, j + 1)
    decreases |h|
  {
    if j + 1 == |h| {
      assert h[..j + 1] == h;
    } else {
      var g := h[..|h| - 1];
      FailRunBridges(g, j);
      assert g[..j + 1] == h[..j + 1];
      PassesSnoc(g, h[|h| - 1], j + 1);
      assert g + [h[|h| - 1]] == h;
    }
  }

  lemma {:induction false} PassesSnoc(h: seq<Tick>, t: Tick, from: nat)
    requires from <= |h|
    ensures PlanningPasses(h + [t], from) == PlanningPasses(h, from) + if t.Planning? then 1 else 0
    decreases |h| - from
  {
    if from < |h| {
      PassesSnoc(h, t, from + 1);
    } else {
      assert PlanningPasses(h + [t], from + 1) == 0;
    }
  }

  /** Every pass after the origin up to the last one waits or fails without being blocked, and when the last pass
      plans, at most five of them plan. So a path sent again was the last successful plan, or a stop path, from at
      most five planning passes ago, and no collision blocked planning since. */
  lemma SentPathIsRecent(h: seq<Tick>, j: nat)
    requires h != [] && h[|h| - 1].Planning? && IsOrigin(h, j)
    ensures forall k | j < k < |h| :: h[k].Waiting? || h[k].plan.NoValidPath?
    ensures PlanningPasses(h, j + 1) <= MAX_TRANSIENT_FAIL_CYCLES
    ensures !h[j].plan.Planned? ==> PlanningPasses(h, j + 1) < MAX_TRANSIENT_FAIL_CYCLES
    ensures !h[|h| - 1].plan.NoValidPath? ==> j == |h| - 1
  {
    forall k: nat | j < k < |h|
      ensures h[k].Waiting? || h[k].plan.NoValidPath?
    {
      assert !Refreshes(h, k);
    }
    FailRunBridges(h, j);
    if j < |h| - 1 {
      assert !Refreshes(h, |h| - 1) && h[..|h|] == h;
      assert FailRun(h) <= MAX_TRANSIENT_FAIL_CYCLES;
      if !h[j].plan.Planned? {
        assert FailRun(h[..j + 1]) >= 1;
      }
    }
  }

  /** Conversely, a plan goes on being sent through at most five failing passes that no collision blocks. */
  lemma PlanOutlivesFailures(h: seq<Tick>, j: nat)
    requires j < |h| && h[|h| - 1].Planning? && h[j].Planning? && h[j].plan.Planned?
    requires forall k | j < k < |h| :: h[k].Waiting? || h[k].plan.NoValidPath?
    requires PlanningPasses(h, j + 1) <= MAX_TRANSIENT_FAIL_CYCLES
    ensures IsOrigin(h, j)
  {
    forall k: nat | j < k < |h|
      ensures !Refreshes(h, k)
    {
      var g := h[..k + 1];
      FailRunBridges(g, j);
      assert g[..j + 1] == h[..j + 1] && g[j] == h[j];
      assert h[..j + 1][j] == h[j] && FailRun(h[..j + 1]) == 0;
      FewerPasses(h, k + 1, j + 1);
      assert h[..k][j].Planning?;
    }
  }

  lemma {:induction false} FewerPasses(h: seq<Tick>, n: nat, from: nat)
    requires from <= n <= |h|
    ensures PlanningPasses(h[..n], from) <= PlanningPasses(h, from)
    decreases n - from
  {
    if from < n {
      FewerPasses(h, n, from + 1);
    }
  }

  /** The driving path of pass j is what the last pass sends exactly when nothing but at most five unblocked
      failures lies between. */
  lemma DrivesOnExactly(h: seq<Tick>, j: nat)
    requires j < |h| && h[|h| - 1].Planning? && h[j].Planning? && h[j].plan.Planned?
    ensures IsOrigin(h, j) <==>
            && (forall k | j < k < |h| :: h[k].Waiting? || h[k].plan.NoValidPath?)
            && PlanningPasses(h, j + 1) <= MAX_TRANSIENT_FAIL_CYCLES
  {
    if IsOrigin(h, j) {
      SentPathIsRecent(h, j);
    } else if (forall k | j < k < |h| :: h[k].Waiting? || h[k].plan.NoValidPath?)
              && PlanningPasses(h, j + 1) <= MAX_TRANSIENT_FAIL_CYCLES {
      PlanOutlivesFailures(h, j);
    }
  }

  /** Pass j, whatever it yields, is what the last pass sends exactly when it replaces the remembered path, only
      waiting and unblocked failing passes follow, and the failures in a row stay within the limit. */
  lemma OriginExactly(h: seq<Tick>, j: nat)
    requires j < |h| && h[|h| - 1].Planning?
    ensures IsOrigin(h, j) <==>
            && Refreshes(h, j)
            && (forall k | j < k < |h| :: h[k].Waiting? || h[k].plan.NoValidPath?)
            && (j == |h| - 1 || FailRun(h) <= MAX_TRANSIENT_FAIL_CYCLES)
  {
    if IsOrigin(h, j) {
      SentPathIsRecent(h, j);
      if j < |h| - 1 {
        assert !Refreshes(h, |h| - 1) && h[..|h|] == h;
      }
    } else if Refreshes(h, j) && (forall k | j < k < |h| :: h[k].Waiting? || h[k].plan.NoValidPath?)
              && (j == |h| - 1 || FailRun(h) <= MAX_TRANSIENT_FAIL_CYCLES) {
      forall k: nat | j < k < |h|
        ensures !Refreshes(h, k)
      {
        FailRunGrows(h, k);
        assert h[..k][j].Planning?;
      }
    }
  }

  lemma FailRunGrows(h: seq<Tick>, k: nat)
    requires k < |h| && forall i | k < i < |h| :: h[i].Waiting? || !h[i].plan.Planned?
    ensures FailRun(h[..k + 1]) <= FailRun(h)
  {
    FailRunBridges(h, k);
  }

  /** After a blocked pass an unblocked failure sends the stop path made at the earlier pose, and nothing else. */
  lemma OldStopPathIsResent(s1: VehicleState, s2: VehicleState)
    ensures forall sent ::
              var h := [Planning(s1, CollisionBlocked), Planning(s2, NoValidPath)];
              SendsRightly(h, sent) <==> sent == Some(MakeStopPath(s1))
  {
    var h := [Planning(s1, CollisionBlocked), Planning(s2, NoValidPath)];
    assert h[..1] == [Planning(s1, CollisionBlocked)] && h[..1][..0] == [];
    assert FailRun(h[..1]) == 1 && FailRun(h) == 2;
    OriginExactly(h, 0);
    assert IsOrigin(h, 0) && OwnPath(h[0]) == MakeStopPath(s1);
    forall j: nat | IsOrigin(h, j)
      ensures j == 0
    {
      OriginIsUnique(h, 0, j);
    }
  }

  // ---------------------------------------------------------------- waiting passes do not age a plan

  /** A plan, `n` waiting passes, then a failing pass. */
  ghost function GapRun(path: Path, s: VehicleState, n: nat): seq<Tick> {
    [Planning(s, Planned(path))] + seq(n, _ => Waiting) + [Planning(s, NoValidPath)]
  }

  /** The limit counts planning passes only: after any number of waiting passes the old plan is sent again. */
  lemma OldPlanAfterAnyGap(path: Path, s: VehicleState, n: nat)
    ensures var h := GapRun(path, s, n);
            forall sent :: SendsRightly(h, sent) <==> sent == Some(path)
  {
    var h := GapRun(path, s, n);
    assert h[0] == Planning(s, Planned(path)) && h[n + 1] == Planning(s, NoValidPath);
    NoPasses(h, 1);
    PlanOutlivesFailures(h, 0);
    forall sent
      ensures SendsRightly(h, sent) <==> sent == Some(path)
    {
      if SendsRightly(h, sent) {
        var j: nat :| IsOrigin(h, j) && sent == Some(OwnPath(h[j]));
        OriginIsUnique(h, j, 0);
      } else {
        assert IsOrigin(h, 0) && OwnPath(h[0]) == path;
      }
    }
  }

  lemma {:induction false} NoPasses(h: seq<Tick>, from: nat)
    requires from < |h| && h[|h| - 1].Planning?
    requires forall k | from <= k < |h| - 1 :: h[k].Waiting?
    ensures PlanningPasses(h, from) == 1
    decreases |h| - from
  {
    if from < |h| - 1 {
      NoPasses(h, from + 1);
    } else {
      assert PlanningPasses(h, |h|) == 0;
    }
  }
}
