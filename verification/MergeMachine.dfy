/** The merge state machine of FrenetPlanner::Plan, as functions on the merge context (frenet_planner.cpp). One call of
    Plan is one cycle; the projection of the ego, the gap selector's answer and the generated candidates are its
    inputs. */
module MergeMachine {
  import opened Wrappers
  import opened RealMath
  import RefLine
  import opened Collision
  import opened TrajectoryCheck
  import opened RoundaboutGap
  import opened LockedPath

  datatype MergeType = NoMerge | Roundabout | Highway

  datatype Phase = Approach | Wait | Commit | Cross

  datatype Checkpoint = Checkpoint(conflictS: real, clearS: real)

  datatype Zone = Zone(startS: real, completionS: real, checkpoints: seq<Checkpoint>)

  datatype RoundaboutConfig = RoundaboutConfig(conflictS: real, approachDistance: real, stopBuffer: real,
                                               completionDistance: real,
                                               commitDistance: real, confirmCycles: int, crossSpeed: real)

  datatype HighwayConfig = HighwayConfig(enabled: bool, zones: seq<Zone>, stopBuffer: real, commitDistance: real,
                                         confirmCycles: int, crossSpeed: real)

  /** Everything that does not change between cycles once the planner is initialised. */
  datatype Setup = Setup(roundabout: RoundaboutConfig, highway: HighwayConfig, t: Trig, ref: real -> RefLine.RefPoint,
                         shape: Shape, margins: Margins, dt: real, reactiveLookahead: real, maxAccel: real)

  datatype MergeContext = MergeContext(active: bool, kind: MergeType, zone: int, checkpoint: int, phase: Phase,
                                       gapSafe: bool, gapLocked: bool, commitPending: bool, safeCycles: nat,
                                       entryTime: real, clearTime: real, precedingId: int, precedingTime: real,
                                       followingId: int, followingTime: real, crossingCount: nat,
                                       lockedPath: seq<PathPoint>, lockedIndex: nat)

  const IDLE := MergeContext(false, NoMerge, -1, 0, Approach, false, false, false, 0, 0.0, 0.0, -1, -1.0, -1, -1.0, 0,
                             [], 0)

  /** The inputs of one cycle. `gap` is the selector's answer for the conflict active when it is asked. */
  datatype Cycle = Cycle(s: real, ego: Vec, speed: real, obstacles: seq<Obstacle>, gap: Gap, avoiding: bool,
                         candidates: seq<Candidate>, afterCurvature: nat, afterCollision: nat, targetSpeed: real)

  datatype Failure = CollisionBlocked | TransientFailure

  datatype PlanResult = Planned(path: seq<PathPoint>) | LowSpeedPath | Failed(why: Failure)

  // ---------------------------------------------------------------- zones

  /** The ordering Init demands of one zone. */
  predicate OrderedFrom(cs: seq<Checkpoint>, previousClear: real, completion: real)
    decreases |cs|
  {
    if cs == [] then completion >= previousClear
    else
      && cs[0].conflictS > previousClear && cs[0].clearS > cs[0].conflictS
      && OrderedFrom(cs[1..], cs[0].clearS, completion)
  }

  predicate ValidZone(z: Zone) {
    z.startS >= 0.0 && z.checkpoints != [] && OrderedFrom(z.checkpoints, z.startS, z.completionS)
  }

  method CheckZone(z: Zone) returns (valid: bool)
    ensures valid <==> ValidZone(z)
  {
    valid := z.startS >= 0.0 && z.checkpoints != [];
    var previousClear := z.startS;
    for i := 0 to |z.checkpoints|
      invariant ValidZone(z) <==> valid && OrderedFrom(z.checkpoints[i..], previousClear, z.completionS)
    {
      var c := z.checkpoints[i];
      assert z.checkpoints[i..][1..] == z.checkpoints[i + 1..];
      valid := valid && c.conflictS > previousClear && c.clearS > c.conflictS;
      previousClear := c.clearS;
    }
    valid := valid && z.completionS >= previousClear;
  }

  /** In a valid zone the conflicts lie strictly between start and completion, and each ends before the
      next begins. */
  lemma {:induction false} ZoneOrder(cs: seq<Checkpoint>, previousClear: real, completion: real)
    requires OrderedFrom(cs, previousClear, completion)
    ensures forall i | 0 <= i < |cs| :: previousClear < cs[i].conflictS < cs[i].clearS <= completion
    ensures forall i, j | 0 <= i < j < |cs| :: cs[i].clearS < cs[j].conflictS
    ensures previousClear <= completion
    decreases |cs|
  {
    if cs != [] {
      ZoneOrder(cs[1..], cs[0].clearS, completion);
      assert forall i | 1 <= i < |cs| :: cs[i] == cs[1..][i - 1];
    }
  }

  /** The `i`-th conflict begins after the one before it has ended, or the zone has started, and ends after it begins.
      */
  predicate InOrder(cs: seq<Checkpoint>, start: real, i: nat)
    requires i < |cs|
  {
    (if i == 0 then start else cs[i - 1].clearS) < cs[i].conflictS < cs[i].clearS
  }

  lemma {:induction false} OrderedExactly(cs: seq<Checkpoint>, start: real, completion: real)
    ensures OrderedFrom(cs, start, completion)
            <==> (forall i | 0 <= i < |cs| :: InOrder(cs, start, i))
                 && (if cs == [] then start else cs[|cs| - 1].clearS) <= completion
    decreases |cs|
  {
    if cs != [] {
      var rest := cs[1..];
      OrderedExactly(rest, cs[0].clearS, completion);
      forall i | 0 <= i < |rest|
        ensures InOrder(rest, cs[0].clearS, i) <==> InOrder(cs, start, i + 1)
      {
      }
      assert InOrder(cs, start, 0) <==> start < cs[0].conflictS < cs[0].clearS;
      hide InOrder;
      if forall i | 0 <= i < |rest| :: InOrder(rest, cs[0].clearS, i) {
        forall i | 1 <= i < |cs|
          ensures InOrder(cs, start, i)
        {
          assert InOrder(rest, cs[0].clearS, i - 1);
        }
      }
    }
  }

  /** A zone is accepted exactly when it starts at a place on the road, has a conflict, and its conflicts lie in order
      between start and completion. */
  lemma ValidExactly(z: Zone)
    ensures ValidZone(z)
            <==> && 0.0 <= z.startS && z.checkpoints != []
                 && (forall i | 0 <= i < |z.checkpoints| :: InOrder(z.checkpoints, z.startS, i))
                 && z.checkpoints[|z.checkpoints| - 1].clearS <= z.completionS
  {
    OrderedExactly(z.checkpoints, z.startS, z.completionS);
  }

  /** Init switches the highway policy off when any zone is out of order. */
  method ValidateZones(h: HighwayConfig) returns (r: HighwayConfig)
    ensures r == h.(enabled := h.enabled && forall z | z in h.zones :: ValidZone(z))
  {
    r := h;
    if !h.enabled || h.zones == [] {
      return;
    }
    for i := 0 to |h.zones|
      invariant r == h && forall j | 0 <= j < i :: ValidZone(h.zones[j])
    {
      var valid := CheckZone(h.zones[i]);
      if !valid {
        return r.(enabled := false);
      }
    }
  }

  function CheckpointAt(h: HighwayConfig, zone: int, index: int): Option<Checkpoint> {
    if 0 <= zone < |h.zones| && 0 <= index < |h.zones[zone].checkpoints| then Some(h.zones[zone].checkpoints[index])
        else None
  }

  function ZoneFrom(h: HighwayConfig, s: real, i: nat): (z: int)
    requires i <= |h.zones|
    ensures z == -1 || (i <= z < |h.zones| && h.zones[z].startS <= s <= h.zones[z].completionS)
    decreases |h.zones| - i
  {
    if i == |h.zones| then -1
    else if h.zones[i].startS <= s <= h.zones[i].completionS then i
    else ZoneFrom(h, s, i + 1)
  }

  /** The first zone the position lies in. */
  function ZoneAt(h: HighwayConfig, s: real): (z: int)
    ensures z == -1 || (h.enabled && 0 <= z < |h.zones| && h.zones[z].startS <= s <= h.zones[z].completionS)
  {
    if h.enabled then ZoneFrom(h, s, 0) else -1
  }

  // ---------------------------------------------------------------- the conflict a context is about

  function ActiveCheckpoint(su: Setup, m: MergeContext): Option<Checkpoint> {
    if m.kind.Highway? then CheckpointAt(su.highway, m.zone, m.checkpoint) else None
  }

  function ConflictS(su: Setup, m: MergeContext): real {
    var c := ActiveCheckpoint(su, m);
    if c.Some? then c.value.conflictS else su.roundabout.conflictS
  }

  function StopBuffer(su: Setup, m: MergeContext): real {
    if m.kind.Highway? then su.highway.stopBuffer else su.roundabout.stopBuffer
  }

  function ConfirmCycles(su: Setup, kind: MergeType): int {
    if kind.Highway? then su.highway.confirmCycles else su.roundabout.confirmCycles
  }

  function NextCheckpoint(su: Setup, m: MergeContext): Option<Checkpoint> {
    if m.kind.Highway? then CheckpointAt(su.highway, m.zone, m.checkpoint + 1) else None
  }

  function CompletionDistance(su: Setup, m: MergeContext): real {
    var c := ActiveCheckpoint(su, m);
    if c.Some? then c.value.clearS - c.value.conflictS else su.roundabout.completionDistance
  }

  // ---------------------------------------------------------------- a locked trajectory

  /** The unlocked context at the next conflict of the same zone. */
  function Advanced(m: MergeContext): MergeContext {
    m.(checkpoint := m.checkpoint + 1, gapLocked := false, commitPending := false, gapSafe := false, safeCycles := 0,
       phase := Approach, lockedPath := [], lockedIndex := 0)
  }

  function BackToWait(m: MergeContext): MergeContext {
    m.(gapLocked := false, gapSafe := false, safeCycles := 0, phase := Wait, lockedPath := [], lockedIndex := 0)
  }

  ghost predicate PathClear(su: Setup, path: seq<PathPoint>, os: seq<Obstacle>) {
    Clear(su.t, Poses(path), SampleTimes(|path|, su.dt), os, su.shape, su.margins, true)
  }

  /** What a committed cycle does before anything else: leave the conflict's approach behind, replay the
      locked trajectory, or give it up when it is no longer clear. `None` means the cycle goes on. */
  ghost function Replay(su: Setup, m: MergeContext, c: Cycle): (MergeContext, Option<PlanResult>) {
    if !(m.active && m.gapLocked && m.phase.Commit?) then (m, None)
    else if c.s >= ConflictS(su, m) then
      (if NextCheckpoint(su, m).Some? then Advanced(m) else m.(phase := Cross, lockedPath := []), None)
    else if m.lockedPath == [] then (m, None)
    else
      var i := Progressed(m.lockedPath, c.ego, m.lockedIndex);
      var rest, m' := m.lockedPath[i..], m.(lockedIndex := i);
      if !PathClear(su, rest, c.obstacles) then
        if c.s < ConflictS(su, m) - StopBuffer(su, m) then (BackToWait(m'), None)
        else (m', Some(Failed(CollisionBlocked)))
      else if |rest| >= 2 then (m', Some(Planned(rest)))
      else (m', Some(Failed(TransientFailure)))
  }

  // ---------------------------------------------------------------- the merge step

  function RoundaboutGapAhead(su: Setup, c: Cycle): real { su.roundabout.conflictS - c.s }

  /** Near the roundabout by a given approach distance, and not yet past its completion. */
  predicate NearRoundabout(su: Setup, c: Cycle, approach: real) {
    su.roundabout.conflictS >= 0.0 && -su.roundabout.completionDistance <= RoundaboutGapAhead(su, c) <= approach
  }

  /** Far enough to look ahead and to brake at the speed of the cycle. */
  function LookAhead(su: Setup, c: Cycle): real {
    c.speed * su.reactiveLookahead + c.speed * c.speed / (2.0 * Max(su.maxAccel, 0.1)) + 5.0
  }

  /** The approach distance grows with braking distance and collision lookahead. */
  function DynamicApproach(su: Setup, c: Cycle): real { Max(su.roundabout.approachDistance, LookAhead(su, c)) }

  function RequestedKind(su: Setup, m: MergeContext, c: Cycle): MergeType {
    if m.active && !m.kind.NoMerge? then m.kind
    else if NearRoundabout(su, c, DynamicApproach(su, c)) then Roundabout
    else if ZoneAt(su.highway, c.s) >= 0 then Highway
    else NoMerge
  }

  predicate InMergeApproach(su: Setup, m: MergeContext, c: Cycle) {
    match RequestedKind(su, m, c)
    case Roundabout =>
      NearRoundabout(su, c, DynamicApproach(su, c))
      || (m.active && RoundaboutGapAhead(su, c) >= -su.roundabout.completionDistance)
    case Highway =>
      if m.active then 0 <= m.zone < |su.highway.zones| && c.s <= su.highway.zones[m.zone].completionS
      else ZoneAt(su.highway, c.s) >= 0
    case NoMerge => false
  }

  function Activated(su: Setup, m: MergeContext, c: Cycle): MergeContext {
    if m.active then m
    else
      var kind := RequestedKind(su, m, c);
      IDLE.(active := true, kind := kind, zone := if kind.Highway? then ZoneAt(su.highway, c.s) else -1)
  }

  const CYCLE_DT := 0.05

  function CountDown(time: real): real { Max(0.0, time - CYCLE_DT) }

  /** A locked gap: times run down, and the conflict point, once reached, is crossed or left behind. */
  function HoldGap(su: Setup, m: MergeContext, c: Cycle): MergeContext {
    var m' := m.(commitPending := false, gapSafe := true, entryTime := CountDown(m.entryTime),
                 precedingTime := if m.precedingTime >= 0.0 then CountDown(m.precedingTime) else m.precedingTime,
                 followingTime := if m.followingTime >= 0.0 then CountDown(m.followingTime) else m.followingTime);
    if c.s < ConflictS(su, m) then m'
    else if NextCheckpoint(su, m).Some? then
      Advanced(m').(precedingId := -1, followingId := -1, precedingTime := -1.0, followingTime := -1.0)
    else m'.(phase := Cross)
  }

  /** The number of cycles in a row, up to this one, that found the same confirmed safe gap. */
  function SafeCycles(m: MergeContext, g: Gap): nat {
    if !(g.confirmed && g.safe) then 0
    else if m.precedingId == g.precedingId && m.followingId == g.followingId then m.safeCycles + 1
    else 1
  }

  /** An open gap is judged anew: far out the approach goes on, near the conflict the vehicle waits, and a
      gap confirmed often enough asks for a commitment. */
  function JudgeGap(su: Setup, m: MergeContext, c: Cycle): MergeContext {
    var g, n := c.gap, SafeCycles(m, c.gap);
    var m' := m.(safeCycles := n, gapSafe := g.safe, entryTime := g.entryTime, clearTime := g.clearTime,
                 precedingId := g.precedingId, precedingTime := g.precedingTime, followingId := g.followingId,
                 followingTime := g.followingTime, crossingCount := g.crossingCount);
    var commitDistance := if m.kind.Highway? then su.highway.commitDistance else su.roundabout.commitDistance;
    if ConflictS(su, m) - c.s > commitDistance then
      m'.(phase := Approach, gapSafe := !g.confirmed || g.safe, commitPending := false)
    else if g.confirmed && g.safe && n >= ConfirmCycles(su, m.kind) then
      m'.(phase := Wait, commitPending := true)
    else
      m'.(phase := Wait, gapSafe := false, commitPending := false)
  }

  /** Whether this cycle asks the gap selector. */
  predicate Judges(su: Setup, m: MergeContext, c: Cycle) {
    InMergeApproach(su, m, c) && !Activated(su, m, c).gapLocked
  }

  function MergeStep(su: Setup, m: MergeContext, c: Cycle): MergeContext {
    if !InMergeApproach(su, m, c) then IDLE
    else
      var m' := Activated(su, m, c);
      if m'.gapLocked then HoldGap(su, m', c) else JudgeGap(su, m', c)
  }

  // ---------------------------------------------------------------- selection and commitment

  /** The trajectory a candidate would commit the vehicle to. */
  function Whole(su: Setup, m: MergeContext, c: Cycle, k: Candidate): seq<PathPoint>
    requires su.dt > 0.0
  {
    Extended(k.path, su.ref, ConflictS(su, m), CompletionDistance(su, m), k.endS,
             Max(c.targetSpeed, if m.kind.Highway? then su.highway.crossSpeed else su.roundabout.crossSpeed), su.dt)
  }

  predicate Committing(m: MergeContext, c: Cycle) { !c.avoiding && m.active && m.commitPending }

  /** While committing, only candidates whose whole trajectory is clear stay valid. */
  ghost function Checked(su: Setup, m: MergeContext, c: Cycle, k: Candidate): Candidate
    requires su.dt > 0.0
  {
    if Committing(m, c) && k.valid && !PathClear(su, Whole(su, m, c, k), c.obstacles) then k.(valid := false) else k
  }

  lemma InvalidStays(su: Setup, m: MergeContext, c: Cycle, k: Candidate)
    requires su.dt > 0.0 && !k.valid
    ensures Checked(su, m, c, k) == k
  {
  }

  ghost function AllChecked(su: Setup, m: MergeContext, c: Cycle): (r: seq<Candidate>)
    requires su.dt > 0.0
    ensures |r| == |c.candidates|
  {
    seq(|c.candidates|, i requires 0 <= i < |c.candidates| => Checked(su, m, c, c.candidates[i]))
  }

  lemma AllCheckedAt(su: Setup, m: MergeContext, c: Cycle, i: nat)
    requires su.dt > 0.0 && i < |c.candidates|
    ensures AllChecked(su, m, c)[i] == Checked(su, m, c, c.candidates[i])
  {
  }

  lemma UncommittedUnchecked(su: Setup, m: MergeContext, c: Cycle)
    requires su.dt > 0.0 && !Committing(m, c)
    ensures AllChecked(su, m, c) == c.candidates
  {
  }

  function CountValid(cs: seq<Candidate>): nat {
    if cs == [] then 0 else CountValid(cs[..|cs| - 1]) + if cs[|cs| - 1].valid then 1 else 0
  }

  ghost function Select(su: Setup, m: MergeContext, c: Cycle): (MergeContext, PlanResult)
    requires su.dt > 0.0
  {
    var cs := AllChecked(su, m, c);
    var best := BestOf(cs, |cs|);
    if best < 0 then
      var m' := if Committing(m, c) && c.s < ConflictS(su, m) - StopBuffer(su, m) then
                  m.(gapLocked := false, commitPending := false, gapSafe := false, safeCycles := 0, phase := Wait)
                else m;
      var afterCollision := if Committing(m, c) then CountValid(cs) else c.afterCollision;
      (m', Failed(if c.afterCurvature > 0 && afterCollision == 0 then CollisionBlocked else TransientFailure))
    else if Committing(m, c) then
      var whole := Whole(su, m, c, cs[best]);
      (m.(commitPending := false, gapLocked := true, phase := Commit, lockedPath := whole, lockedIndex := 0),
       Planned(whole))
    else (m, Planned(cs[best].path))
  }

  // ---------------------------------------------------------------- one cycle

  /** What a cycle leaves in the history: the gap it judged, if any, whether it committed, and whether it went back to
      waiting because no candidate could be committed to. */
  datatype Judged = Judged(kind: MergeType, zone: int, checkpoint: int, gap: Gap)

  datatype Record = Record(judged: Option<Judged>, committed: bool, turnedBack: bool)

  const LOW_SPEED := 0.5

  predicate LowSpeed(su: Setup, m: MergeContext, c: Cycle) {
    && Abs(c.speed) < LOW_SPEED
    && !(NearRoundabout(su, c, su.roundabout.approachDistance) || ZoneAt(su.highway, c.s) >= 0 || m.active)
  }

  ghost function Plan(su: Setup, m: MergeContext, c: Cycle): (MergeContext, PlanResult, Record)
    requires su.dt > 0.0
  {
    var (m1, early) := Replay(su, m, c);
    if early.Some? then (m1, early.value, Record(None, false, false))
    else if LowSpeed(su, m, c) then
      (m1, LowSpeedPath, Record(None, false, false))
    else
      var m2 := MergeStep(su, m1, c);
      var (m3, r) := Select(su, m2, c);
      var a := Activated(su, m1, c);
      (m3, r, Record(if Judges(su, m1, c) then Some(Judged(a.kind, a.zone, a.checkpoint, c.gap)) else None,
                     Committing(m2, c) && r.Planned?, r.Failed? && m3 != m2))
  }
}
