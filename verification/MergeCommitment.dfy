/** When exactly the planner commits, told by the history of its cycles and their inputs (frenet_planner.cpp). */
module MergeCommitment {
  import opened Wrappers
  import opened RealMath
  import opened Angles
  import opened Collision
  import opened TrajectoryCheck
  import opened Prediction
  import opened RoundaboutGap
  import opened LockedPath
  import opened MergeMachine
  import opened MergeSafety

  // ---------------------------------------------------------------- the conflict of a judgement

  predicate HasPlace(su: Setup, j: Judged) {
    match j.kind
    case Roundabout => true
    case Highway => 0 <= j.zone < |su.highway.zones| && 0 <= j.checkpoint < |su.highway.zones[j.zone].checkpoints|
    case NoMerge => false
  }

  /** Where the judged conflict lies, and where the vehicle has left it behind. */
  function PlaceOf(su: Setup, j: Judged): Checkpoint
    requires HasPlace(su, j)
  {
    match j.kind
    case Roundabout =>
      Checkpoint(su.roundabout.conflictS, su.roundabout.conflictS + su.roundabout.completionDistance)
    case Highway => su.highway.zones[j.zone].checkpoints[j.checkpoint]
  }

  /** The conflict is no farther ahead than the commit distance of its kind of merge. */
  predicate WithinCommitDistance(su: Setup, j: Judged, s: real) {
    && HasPlace(su, j)
    && PlaceOf(su, j).conflictS <= s + match j.kind
                                       case Roundabout => su.roundabout.commitDistance
                                       case Highway => su.highway.commitDistance
                                       case NoMerge => 0.0
  }

  /** The vehicle can still stop before the stop line of the conflict. */
  predicate BeforeStopLine(su: Setup, j: Judged, s: real) {
    && HasPlace(su, j)
    && s < PlaceOf(su, j).conflictS - match j.kind
                                      case Roundabout => su.roundabout.stopBuffer
                                      case Highway => su.highway.stopBuffer
                                      case NoMerge => 0.0
  }

  /** Candidate `k` prolonged through the judged conflict. */
  function Prolonged(su: Setup, j: Judged, c: Cycle, k: Candidate): seq<PathPoint>
    requires su.dt > 0.0 && HasPlace(su, j)
  {
    var at := PlaceOf(su, j);
    var crossSpeed := if j.kind.Highway? then su.highway.crossSpeed else su.roundabout.crossSpeed;
    Extended(k.path, su.ref, at.conflictS, at.clearS - at.conflictS, k.endS, Max(c.targetSpeed, crossSpeed), su.dt)
  }

  /** Some valid candidate stays clear of all obstacles until the vehicle has left the conflict behind. */
  ghost predicate Passable(su: Setup, j: Judged, c: Cycle)
    requires su.dt > 0.0
  {
    HasPlace(su, j)
    && exists k | k in c.candidates :: k.valid && PathClear(su, Prolonged(su, j, c, k), c.obstacles)
  }

  // ---------------------------------------------------------------- confirmations in a row

  /** The cycle judged a gap and left it at that. */
  predicate Clean(r: Record) { r.judged.Some? && !r.committed && !r.turnedBack }

  /** The cycle judged the gap `j`, at the same conflict and between the same vehicles, confirmed and safe. */
  predicate SameGap(r: Record, j: Judged) {
    FoundSafe(r, j.kind, j.zone, j.checkpoint, j.gap.precedingId, j.gap.followingId)
  }

  /** The last `n` cycles up to cycle `i` all found its gap confirmed and safe, and none of the earlier ones among them
      committed or turned back. */
  ghost predicate InARow(h: seq<Record>, i: nat, n: nat)
    requires i < |h|
  {
    && h[i].judged.Some? && n <= i + 1
    && forall k | i + 1 - n <= k <= i :: SameGap(h[k], h[i].judged.value) && (k < i ==> Clean(h[k]))
  }

  /** The cycle asks for a commitment: an open gap near enough, confirmed often enough, and no avoidance under way. */
  ghost predicate Asks(su: Setup, cs: seq<Cycle>, h: seq<Record>, i: nat)
    requires i < |h| == |cs|
  {
    && h[i].judged.Some? && WithinCommitDistance(su, h[i].judged.value, cs[i].s) && !cs[i].avoiding
    && InARow(h, i, Needed(su, h[i].judged.value.kind))
  }

  /** A cycle commits exactly when it asks for a commitment and a clear way through the conflict is at hand; it turns
      back exactly when it asks, finds none, and can still stop. */
  ghost predicate DecidesAt(su: Setup, cs: seq<Cycle>, h: seq<Record>, i: nat)
    requires su.dt > 0.0 && i < |h| == |cs|
  {
    && (h[i].committed <==> Asks(su, cs, h, i) && Passable(su, h[i].judged.value, cs[i]))
    && (h[i].turnedBack <==> Asks(su, cs, h, i) && !Passable(su, h[i].judged.value, cs[i])
                             && BeforeStopLine(su, h[i].judged.value, cs[i].s))
  }

  // ---------------------------------------------------------------- what the context knows of it

  /** The last cycle judged the gap the context remembers. */
  predicate AboutLast(m: MergeContext, r: Record) {
    && m.active && r.judged.Some?
    && var j := r.judged.value;
       && j.kind == m.kind && j.zone == m.zone && j.checkpoint == m.checkpoint
       && j.gap.precedingId == m.precedingId && j.gap.followingId == m.followingId
  }

  /** The count of confirmations is exactly the number of clean cycles in a row, and a locked gap leaves none. */
  ghost predicate Counted(h: seq<Record>, m: MergeContext) {
    if m.gapLocked then h != [] && !Clean(h[|h| - 1])
    else if h == [] || !Clean(h[|h| - 1]) then m.safeCycles == 0
    else
      && AboutLast(m, h[|h| - 1])
      && forall n: nat | n > 0 :: Counts(h, m.safeCycles, n)
  }

  ghost predicate Counts(h: seq<Record>, count: nat, n: nat)
    requires h != []
  {
    n <= count <==> InARow(h, |h| - 1, n)
  }

  ghost predicate Exact(su: Setup, cs: seq<Cycle>, h: seq<Record>, m: MergeContext) {
    && su.dt > 0.0 && |h| == |cs| && Counted(h, m)
    && forall i | 0 <= i < |h| :: DecidesAt(su, cs, h, i)
  }

  // ---------------------------------------------------------------- one cycle

  lemma RowGrows(h: seq<Record>, rec: Record, n: nat)
    requires rec.judged.Some? && n > 1
    ensures InARow(h + [rec], |h|, n)
            <==> SameGap(rec, rec.judged.value) && |h| > 0 && Clean(h[|h| - 1])
                 && SameGap(h[|h| - 1], rec.judged.value) && InARow(h, |h| - 1, n - 1)
  {
    var h', i := h + [rec], |h|;
    if InARow(h', i, n) {
      assert SameGap(h'[i], rec.judged.value);
      assert SameGap(h'[i - 1], rec.judged.value) && Clean(h'[i - 1]);
      forall k | i - (n - 1) <= k <= i - 1
        ensures SameGap(h[k], h[i - 1].judged.value) && (k < i - 1 ==> Clean(h[k]))
      {
        assert SameGap(h'[k], rec.judged.value) && Clean(h'[k]);
      }
    }
    if SameGap(rec, rec.judged.value) && i > 0 && Clean(h[i - 1])
       && SameGap(h[i - 1], rec.judged.value) && InARow(h, i - 1, n - 1) {
      forall k | i + 1 - n <= k <= i
        ensures SameGap(h'[k], rec.judged.value) && (k < i ==> Clean(h'[k]))
      {
        if k < i {
          assert SameGap(h[k], h[i - 1].judged.value) && (k < i - 1 ==> Clean(h[k]));
        }
      }
    }
  }

  /** Judging a gap counts on: the new count is the number of cycles in a row, this one included. */
  lemma JudgedCount(su: Setup, h: seq<Record>, m: MergeContext, c: Cycle, rec: Record, n: nat)
    requires Counted(h, m) && !m.gapLocked && Judges(su, m, c) && n > 0 && (m.active || m == IDLE)
    requires var a := Activated(su, m, c); rec.judged == Some(Judged(a.kind, a.zone, a.checkpoint, c.gap))
    ensures n <= SafeCycles(Activated(su, m, c), c.gap) <==> InARow(h + [rec], |h|, n)
  {
    hide InMergeApproach, RequestedKind, ZoneAt;
    var h', i, a := h + [rec], |h|, Activated(su, m, c);
    assert h'[i] == rec && forall k | 0 <= k < i :: h'[k] == h[k];
    if n > 1 {
      RowGrows(h, rec, n);
      hide InARow;
      if i > 0 && Clean(h[i - 1]) {
        assert AboutLast(m, h[i - 1]) && a == m;
        assert Counts(h, m.safeCycles, n - 1);
      }
    }
  }

  /** The replay leaves the count right, or goes on with a locked gap. */
  lemma ReplayCounted(su: Setup, h: seq<Record>, m: MergeContext, c: Cycle)
    requires Consistent(su, m) && Counted(h, m)
    ensures var (m1, early) := Replay(su, m, c);
            && Counted(h, m1) && (early.Some? ==> m1.gapLocked)
            && (!m1.active ==> m1 == IDLE)
  {
    hide PathClear, Progressed, ConflictS, StopBuffer, NextCheckpoint, Clean, AboutLast, InARow;
  }

  /** A record without a judgement decides nothing, and breaks the row. */
  lemma NothingJudged(su: Setup, cs: seq<Cycle>, h: seq<Record>, c: Cycle, m: MergeContext)
    requires su.dt > 0.0 && |h| == |cs| && (m.gapLocked || m.safeCycles == 0)
    ensures var rec := Record(None, false, false);
            Counted(h + [rec], m) && DecidesAt(su, cs + [c], h + [rec], |h|)
  {
  }

  /** What was decided stays decided. */
  lemma DecisionsStay(su: Setup, cs: seq<Cycle>, h: seq<Record>, c: Cycle, rec: Record, i: nat)
    requires su.dt > 0.0 && i < |h| == |cs| && DecidesAt(su, cs, h, i)
    ensures DecidesAt(su, cs + [c], h + [rec], i)
  {
    hide Passable, WithinCommitDistance, BeforeStopLine, SameGap, Clean;
    assert (cs + [c])[i] == cs[i] && forall k | 0 <= k <= i :: (h + [rec])[k] == h[k];
    RowStays(h, rec, i, if h[i].judged.Some? then Needed(su, h[i].judged.value.kind) else 0);
    hide InARow;
  }

  lemma RowStays(h: seq<Record>, rec: Record, i: nat, n: nat)
    requires i < |h|
    ensures InARow(h + [rec], i, n) <==> InARow(h, i, n)
  {
    hide SameGap, Clean;
    var h' := h + [rec];
    assert forall k | 0 <= k <= i :: h'[k] == h[k];
    if InARow(h', i, n) {
      forall k | i + 1 - n <= k <= i
        ensures SameGap(h[k], h[i].judged.value) && (k < i ==> Clean(h[k]))
      {
        assert h'[k] == h[k];
      }
    }
    if InARow(h, i, n) {
      forall k | i + 1 - n <= k <= i
        ensures SameGap(h'[k], h[i].judged.value) && (k < i ==> Clean(h'[k]))
      {
        assert h'[k] == h[k];
      }
    }
  }

  /** A judged gap asks for a commitment exactly when it is near enough and confirmed often enough. */
  lemma JudgeAsks(su: Setup, m: MergeContext, c: Cycle, j: Judged)
    requires Initialised(su) && Consistent(su, m) && !m.phase.Commit? && Judges(su, m, c)
    requires var a := Activated(su, m, c); j == Judged(a.kind, a.zone, a.checkpoint, c.gap)
    ensures var m2, n := MergeStep(su, m, c), SafeCycles(Activated(su, m, c), c.gap);
            && HasPlace(su, j) && m2.active && !m2.gapLocked && m2.safeCycles == n
            && m2.kind == j.kind && m2.zone == j.zone && m2.checkpoint == j.checkpoint
            && m2.precedingId == c.gap.precedingId && m2.followingId == c.gap.followingId
            && ConflictS(su, m2) == PlaceOf(su, j).conflictS
            && (m2.commitPending <==> WithinCommitDistance(su, j, c.s) && n >= Needed(su, j.kind))
            && (!WithinCommitDistance(su, j, c.s) ==> m2.phase == Approach)
            && (WithinCommitDistance(su, j, c.s) ==> m2.phase == Wait)
  {
    ActivatedConsistent(su, m, c);
    hide InMergeApproach, RequestedKind, ZoneAt, Activated;
    var a := Activated(su, m, c);
    assert MergeStep(su, m, c) == JudgeGap(su, a, c);
    assert a.kind.Roundabout? || a.kind.Highway?;
    hide Initialised;
  }

  lemma ProlongedIsWhole(su: Setup, m: MergeContext, c: Cycle, k: Candidate, j: Judged)
    requires su.dt > 0.0 && HasPlace(su, j) && m.kind == j.kind && m.zone == j.zone && m.checkpoint == j.checkpoint
    ensures Prolonged(su, j, c, k) == Whole(su, m, c, k)
  {
    hide Extended;
    assert CompletionDistance(su, m) == PlaceOf(su, j).clearS - PlaceOf(su, j).conflictS;
  }

  /** While committing, a candidate is left exactly when there is a clear way through. */
  lemma SelectFindsPassage(su: Setup, m: MergeContext, c: Cycle, j: Judged)
    requires su.dt > 0.0 && HasPlace(su, j) && m.kind == j.kind && m.zone == j.zone && m.checkpoint == j.checkpoint
    requires Committing(m, c)
    ensures BestOf(AllChecked(su, m, c), |c.candidates|) >= 0 <==> Passable(su, j, c)
  {
    hide PathClear, Whole, Prolonged, BestOf, AllChecked;
    var cs := AllChecked(su, m, c);
    BestIsCheapest(cs, |cs|);
    forall i | 0 <= i < |cs|
      ensures cs[i] == Checked(su, m, c, c.candidates[i])
      ensures Prolonged(su, j, c, c.candidates[i]) == Whole(su, m, c, c.candidates[i])
    {
      AllCheckedAt(su, m, c, i);
      ProlongedIsWhole(su, m, c, c.candidates[i], j);
    }
    if k :| k in c.candidates && k.valid && PathClear(su, Prolonged(su, j, c, k), c.obstacles) {
      var i :| 0 <= i < |c.candidates| && c.candidates[i] == k;
      assert cs[i].valid;
    }
    if BestOf(cs, |cs|) >= 0 {
      var i := BestOf(cs, |cs|);
      assert c.candidates[i] in c.candidates && cs[i].valid;
    }
  }

  /** What the choice of a candidate makes of a judged cycle. */
  lemma SelectDecides(su: Setup, m: MergeContext, c: Cycle, j: Judged)
    requires su.dt > 0.0 && HasPlace(su, j) && m.kind == j.kind && m.zone == j.zone && m.checkpoint == j.checkpoint
    requires m.active && !m.gapLocked && ConflictS(su, m) == PlaceOf(su, j).conflictS
    ensures var (m3, r) := Select(su, m, c);
            var asks := m.commitPending && !c.avoiding;
            && ((Committing(m, c) && r.Planned?) <==> asks && Passable(su, j, c))
            && ((r.Failed? && m3 != m) <==> asks && !Passable(su, j, c) && BeforeStopLine(su, j, c.s))
            && (asks && Passable(su, j, c) ==> m3.gapLocked)
            && (asks && !Passable(su, j, c) && BeforeStopLine(su, j, c.s) ==> !m3.gapLocked && m3.safeCycles == 0)
            && (!(asks && (Passable(su, j, c) || BeforeStopLine(su, j, c.s))) ==> m3 == m)
  {
    if Committing(m, c) {
      SelectFindsPassage(su, m, c, j);
    }
    hide AllChecked, BestOf, CountValid, Whole, Passable, PlaceOf;
    assert j.kind.Roundabout? || j.kind.Highway?;
    assert StopBuffer(su, m) == if j.kind.Highway? then su.highway.stopBuffer else su.roundabout.stopBuffer;
    hide ConflictS;
  }

  lemma JudgedCounted(su: Setup, h: seq<Record>, rec: Record, m2: MergeContext, m3: MergeContext)
    requires rec.judged.Some? && m2.active && AboutLast(m2, rec)
    requires forall n: nat | n > 0 :: n <= m2.safeCycles <==> InARow(h + [rec], |h|, n)
    requires !m3.gapLocked && Clean(rec) ==> m3 == m2
    requires m3.gapLocked ==> rec.committed
    requires !m3.gapLocked && !Clean(rec) ==> m3.safeCycles == 0
    ensures Counted(h + [rec], m3)
  {
    hide InARow, AboutLast;
    var h' := h + [rec];
    assert h'[|h'| - 1] == rec;
    forall n: nat | n > 0
      ensures Counts(h', m2.safeCycles, n)
    {
    }
  }

  /** The cycle of a judged gap decides as it should, and counts on. */
  lemma JudgedCycle(su: Setup, cs: seq<Cycle>, h: seq<Record>, m: MergeContext, c: Cycle, rec: Record)
    requires su.dt > 0.0 && Initialised(su) && Consistent(su, m) && !m.phase.Commit? && Judges(su, m, c)
    requires |h| == |cs| && Counted(h, m) && !m.gapLocked && (m.active || m == IDLE)
    requires var a, m2 := Activated(su, m, c), MergeStep(su, m, c);
             var (m3, r) := Select(su, m2, c);
             rec == Record(Some(Judged(a.kind, a.zone, a.checkpoint, c.gap)), Committing(m2, c) && r.Planned?,
                           r.Failed? && m3 != m2)
    ensures Counted(h + [rec], Select(su, MergeStep(su, m, c), c).0)
    ensures DecidesAt(su, cs + [c], h + [rec], |h|)
  {
    hide Consistent, MergeStep, Select, Passable, WithinCommitDistance, BeforeStopLine, InARow, Judges, Counted,
         HasPlace, Activated, SafeCycles, Committing, Initialised, ConflictS, PlaceOf;
    var j, m2 := rec.judged.value, MergeStep(su, m, c);
    JudgeAsks(su, m, c, j);
    SelectDecides(su, m2, c, j);
    forall n: nat | n > 0
      ensures n <= m2.safeCycles <==> InARow(h + [rec], |h|, n)
    {
      JudgedCount(su, h, m, c, rec, n);
    }
    assert (h + [rec])[|h|] == rec && (cs + [c])[|h|] == c;
    var needed := Needed(su, j.kind);
    assert needed > 0 && (needed <= m2.safeCycles <==> InARow(h + [rec], |h|, needed));
    JudgedCounted(su, h, rec, m2, Select(su, m2, c).0);
  }

  /** Every cycle decides as it should, whatever came before. */
  lemma PlanDecides(su: Setup, cs: seq<Cycle>, h: seq<Record>, m: MergeContext, c: Cycle)
    requires Initialised(su) && Generated(c) && Consistent(su, m) && Exact(su, cs, h, m)
    ensures Exact(su, cs + [c], h + [Plan(su, m, c).2], Plan(su, m, c).0)
  {
    var (m', r, rec) := Plan(su, m, c);
    var (m1, early) := Replay(su, m, c);
    ReplayConsistent(su, m, c);
    ReplayCounted(su, h, m, c);
    forall i | 0 <= i < |h|
      ensures DecidesAt(su, cs + [c], h + [rec], i)
    {
      assert DecidesAt(su, cs, h, i);
      DecisionsStay(su, cs, h, c, rec, i);
    }
    if early.Some? || LowSpeed(su, m, c) {
      assert m1.gapLocked || m1 == IDLE;
      NothingJudged(su, cs, h, c, m1);
    } else if Judges(su, m1, c) {
      UnlockedToJudge(su, m1, c);
      JudgedCycle(su, cs, h, m1, c, rec);
    } else {
      UnjudgedStep(su, m1, c);
      UnjudgedSelect(su, MergeStep(su, m1, c), c);
      NothingJudged(su, cs, h, c, m');
    }
    hide Replay, MergeStep, Select, Judges, LowSpeed, DecidesAt, Counted, Consistent, Initialised, Generated, Activated;
  }

  lemma UnlockedToJudge(su: Setup, m: MergeContext, c: Cycle)
    requires Judges(su, m, c) && (m.active || m == IDLE)
    ensures !m.gapLocked
  {
    hide InMergeApproach, RequestedKind, ZoneAt;
  }

  lemma UnjudgedSelect(su: Setup, m: MergeContext, c: Cycle)
    requires su.dt > 0.0 && !m.commitPending
    ensures Select(su, m, c).0 == m
  {
    hide AllChecked, BestOf, CountValid;
  }

  // ---------------------------------------------------------------- where merges begin and end

  /** Beyond what the speed covers while looking ahead, and 5 more, lies what braking takes from that speed: at the
      configured acceleration it takes off the square of the speed. */
  lemma LookAheadBrakes(su: Setup, c: Cycle)
    ensures var a := Max(su.maxAccel, 0.1);
            var braking := LookAhead(su, c) - 5.0 - c.speed * su.reactiveLookahead;
            a > 0.0 && braking * (2.0 * a) == c.speed * c.speed && braking >= 0.0
  {
    var a := Max(su.maxAccel, 0.1);
    var q := c.speed * c.speed / (2.0 * a);
    assert q * (2.0 * a) == c.speed * c.speed >= 0.0;
    if q < 0.0 {
      MulMono(q, 0.0, 2.0 * a);
    }
  }

  /** The roundabout is configured, no farther ahead than the approach distance or what the speed takes, and not left
      behind. */
  predicate AtRoundabout(su: Setup, c: Cycle) {
    && 0.0 <= su.roundabout.conflictS <= c.s + Max(su.roundabout.approachDistance, LookAhead(su, c))
    && c.s <= su.roundabout.conflictS + su.roundabout.completionDistance
  }

  predicate InZone(su: Setup, z: int, s: real) {
    && su.highway.enabled && 0 <= z < |su.highway.zones|
    && su.highway.zones[z].startS <= s <= su.highway.zones[z].completionS
  }

  lemma {:induction false} FirstZone(h: HighwayConfig, s: real, i: nat)
    requires i <= |h.zones|
    ensures var z := ZoneFrom(h, s, i);
            && (z >= 0 ==> forall j | i <= j < z :: !(h.zones[j].startS <= s <= h.zones[j].completionS))
            && (z < 0 ==> forall j | i <= j < |h.zones| :: !(h.zones[j].startS <= s <= h.zones[j].completionS))
    decreases |h.zones| - i
  {
    if i < |h.zones| {
      FirstZone(h, s, i + 1);
    }
  }

  /** A merge begins exactly where the roundabout is near or, failing that, in the first highway zone the position lies
      in; it ends exactly where the completion of its kind lies behind. */
  lemma MergesBeginAndEnd(su: Setup, m: MergeContext, c: Cycle)
    requires su.dt > 0.0 && Consistent(su, m) && !m.phase.Commit? && !LowSpeed(su, m, c)
    ensures var m' := Plan(su, m, c).0;
            && (!m.active ==> (m'.active <==> AtRoundabout(su, c) || exists z :: InZone(su, z, c.s)))
            && (!m.active && m'.active ==>
                  if AtRoundabout(su, c) then m'.kind.Roundabout?
                  else m'.kind.Highway? && InZone(su, m'.zone, c.s) && m'.checkpoint == 0
                       && forall z | InZone(su, z, c.s) :: m'.zone <= z)
            && (m.active && m.kind.Roundabout? ==>
                  (m'.active <==> c.s <= su.roundabout.conflictS + su.roundabout.completionDistance))
            && (m.active && m.kind.Highway? ==> (m'.active <==> c.s <= su.highway.zones[m.zone].completionS))
  {
    FirstZone(su.highway, c.s, 0);
    SelectKeepsPlace(su, MergeStep(su, m, c), c);
    RoundaboutWindow(su, c);
    ZonesFound(su, c.s);
    if InMergeApproach(su, m, c) {
      StepKeepsKind(su, m, c);
    }
    hide Select, DynamicApproach, NearRoundabout, AtRoundabout, LowSpeed, ZoneFrom, HoldGap, JudgeGap;
  }

  /** A cycle takes the low-speed path exactly when the vehicle all but stands, no merge is active, and neither the
      roundabout, by its configured distance, nor any highway zone is near. */
  lemma LowSpeedExactly(su: Setup, m: MergeContext, c: Cycle)
    requires su.dt > 0.0 && Consistent(su, m)
    ensures Plan(su, m, c).1.LowSpeedPath?
            <==> && -0.5 < c.speed < 0.5 && !m.active
                 && !(0.0 <= su.roundabout.conflictS <= c.s + su.roundabout.approachDistance
                      && c.s <= su.roundabout.conflictS + su.roundabout.completionDistance)
                 && !exists z :: InZone(su, z, c.s)
  {
    ZonesFound(su, c.s);
    hide MergeStep, AllChecked, BestOf, CountValid, Whole, PathClear, Progressed, ConflictS, StopBuffer, InZone,
         ZoneFrom, Activated, Judges;
  }

  lemma StepKeepsKind(su: Setup, m: MergeContext, c: Cycle)
    requires InMergeApproach(su, m, c)
    ensures var a, m' := Activated(su, m, c), MergeStep(su, m, c);
            && m'.active == a.active && m'.kind == a.kind && m'.zone == a.zone && (!m.active ==> m'.checkpoint == 0)
  {
    hide InMergeApproach, RequestedKind, ConflictS, NextCheckpoint, SafeCycles;
  }

  lemma RoundaboutWindow(su: Setup, c: Cycle)
    ensures NearRoundabout(su, c, DynamicApproach(su, c)) <==> AtRoundabout(su, c)
  {
    hide LookAhead;
  }

  lemma ZonesFound(su: Setup, s: real)
    ensures ZoneAt(su.highway, s) >= 0 <==> exists z :: InZone(su, z, s)
    ensures ZoneAt(su.highway, s) >= 0 ==>
              InZone(su, ZoneAt(su.highway, s), s) && forall z | InZone(su, z, s) :: ZoneAt(su.highway, s) <= z
  {
    FirstZone(su.highway, s, 0);
    if ZoneAt(su.highway, s) >= 0 {
      assert InZone(su, ZoneAt(su.highway, s), s);
    }
  }

  /** A locked conflict that is reached gives way to the next one of its zone exactly when the zone has another, and is
      crossed otherwise. */
  lemma ReachedConflict(su: Setup, m: MergeContext, c: Cycle)
    requires su.dt > 0.0 && Initialised(su) && Consistent(su, m) && m.gapLocked && c.s >= ConflictS(su, m)
    ensures var m' := Plan(su, m, c).0;
            m'.active ==>
              if m.kind.Highway? && m.checkpoint + 1 < |su.highway.zones[m.zone].checkpoints| then
                m'.checkpoint == m.checkpoint + 1 && !m'.phase.Cross?
              else m'.checkpoint == m.checkpoint && m'.phase.Cross? && m'.gapLocked
  {
    var (m1, early) := Replay(su, m, c);
    SelectKeepsPlace(su, MergeStep(su, m1, c), c);
    SelectPhase(su, MergeStep(su, m1, c), c);
    HasNext(su, m);
    hide Select, PathClear, Progressed, ConflictS, StopBuffer, InMergeApproach, SafeCycles, NextCheckpoint;
  }

  lemma HasNext(su: Setup, m: MergeContext)
    requires Consistent(su, m)
    ensures NextCheckpoint(su, m).Some?
            <==> m.kind.Highway? && m.checkpoint + 1 < |su.highway.zones[m.zone].checkpoints|
  {
  }

  lemma SelectPhase(su: Setup, m: MergeContext, c: Cycle)
    requires su.dt > 0.0
    ensures Select(su, m, c).0.phase.Cross? ==> m.phase.Cross?
    ensures !m.commitPending ==> Select(su, m, c).0 == m
  {
    hide AllChecked, BestOf, CountValid, Whole, ConflictS, StopBuffer;
  }

  // ---------------------------------------------------------------- when a cycle fails

  /** What is left of the locked path, from where the replay goes on. */
  function LockedRest(m: MergeContext, c: Cycle): seq<PathPoint>
    requires m.lockedPath != []
  {
    m.lockedPath[Progressed(m.lockedPath, c.ego, m.lockedIndex)..]
  }

  function AboutContext(m: MergeContext, c: Cycle): Judged { Judged(m.kind, m.zone, m.checkpoint, c.gap) }

  /** Before its conflict a committed cycle sends the rest of the locked path while it is clear; when that is
      exhausted the cycle fails for the time being; when it is blocked the lock is given up while the vehicle can
      still stop before the stop line, and past that the cycle fails as blocked and keeps the lock. */
  lemma CommittedOutcome(su: Setup, m: MergeContext, c: Cycle)
    requires Initialised(su) && Consistent(su, m) && m.phase.Commit?
    requires HasPlace(su, AboutContext(m, c)) && c.s < PlaceOf(su, AboutContext(m, c)).conflictS
    ensures var (m', r, rec) := Plan(su, m, c);
            if PathClear(su, LockedRest(m, c), c.obstacles) then
              m'.gapLocked && r == if |LockedRest(m, c)| >= 2 then Planned(LockedRest(m, c))
                                   else Failed(TransientFailure)
            else if BeforeStopLine(su, AboutContext(m, c), c.s) then
              m'.phase.Commit? ==> rec.committed
            else m'.gapLocked && m'.phase.Commit? && r == Failed(CollisionBlocked)
  {
    var (m1, early) := Replay(su, m, c);
    var j := AboutContext(m, c);
    assert ConflictS(su, m) == PlaceOf(su, j).conflictS;
    assert BeforeStopLine(su, j, c.s) <==> c.s < ConflictS(su, m) - StopBuffer(su, m);
    ReplayConsistent(su, m, c);
    if early.None? {
      MergeStepConsistent(su, m1, c);
      SelectCommits(su, MergeStep(su, m1, c), c);
    }
    hide PathClear, Progressed, ConflictS, StopBuffer, PlaceOf, BeforeStopLine, MergeStep, Select, Consistent, Judges,
         Initialised, Activated, NextCheckpoint;
  }

  lemma SelectCommits(su: Setup, m: MergeContext, c: Cycle)
    requires su.dt > 0.0 && !m.phase.Commit?
    ensures var (m', r) := Select(su, m, c); m'.phase.Commit? ==> Committing(m, c) && r.Planned?
  {
    hide AllChecked, BestOf, CountValid, Whole, ConflictS, StopBuffer;
  }

  /** Choosing fails exactly when no candidate is left: none is valid, or none of the valid ones stays clear while
      committing. The failure counts as blocked exactly when some candidate had passed the curvature test and none
      the collision test, the one of the commitment included. */
  lemma SelectFails(su: Setup, m: MergeContext, c: Cycle)
    requires su.dt > 0.0
    ensures var (m', r) := Select(su, m, c);
            && (r.Failed? <==>
                  forall k | k in c.candidates && k.valid ::
                    Committing(m, c) && !PathClear(su, Whole(su, m, c, k), c.obstacles))
            && (r.Failed? ==>
                  (r.why.CollisionBlocked? <==> c.afterCurvature > 0 && (Committing(m, c) || c.afterCollision == 0)))
  {
    hide PathClear, Whole, BestOf, AllChecked, ConflictS, StopBuffer, CountValid;
    var cs := AllChecked(su, m, c);
    BestIsCheapest(cs, |cs|);
    forall i | 0 <= i < |cs|
      ensures cs[i] == Checked(su, m, c, c.candidates[i])
    {
      AllCheckedAt(su, m, c, i);
    }
    if BestOf(cs, |cs|) < 0 {
      NoneValid(cs);
      forall k | k in c.candidates && k.valid
        ensures Committing(m, c) && !PathClear(su, Whole(su, m, c, k), c.obstacles)
      {
        var i :| 0 <= i < |c.candidates| && c.candidates[i] == k;
        assert !cs[i].valid;
      }
    } else {
      var i := BestOf(cs, |cs|);
      assert c.candidates[i] in c.candidates && cs[i].valid;
    }
  }

  lemma {:induction false} NoneValid(cs: seq<Candidate>)
    requires forall i | 0 <= i < |cs| :: !cs[i].valid
    ensures CountValid(cs) == 0
  {
    if cs != [] {
      NoneValid(cs[..|cs| - 1]);
    }
  }

  // ---------------------------------------------------------------- a held gap

  /** What is left of a time after `n` cycles; a negative time, which stands for no vehicle, stays. */
  function Left(time: real, n: nat): real {
    if time < 0.0 then time else if time < n as real * 0.05 then 0.0 else time - n as real * 0.05
  }

  /** A gap held over a number of cycles before its conflict. */
  function Held(su: Setup, m: MergeContext, cs: seq<Cycle>): MergeContext {
    if cs == [] then m else HoldGap(su, Held(su, m, cs[..|cs| - 1]), cs[|cs| - 1])
  }

  /** While a gap is held the times of entry and of both vehicles run down cycle by cycle to zero, and nothing else
      about it changes. */
  lemma {:induction false} HeldTimesRunDown(su: Setup, m: MergeContext, cs: seq<Cycle>)
    requires m.gapLocked && !m.commitPending && m.gapSafe && m.entryTime >= 0.0
    requires forall c | c in cs :: c.s < ConflictS(su, m)
    ensures Held(su, m, cs) == m.(entryTime := Left(m.entryTime, |cs|),
                                  precedingTime := Left(m.precedingTime, |cs|),
                                  followingTime := Left(m.followingTime, |cs|))
  {
    hide ConflictS, NextCheckpoint;
    if cs != [] {
      var init, last := cs[..|cs| - 1], cs[|cs| - 1];
      HeldTimesRunDown(su, m, init);
      LeftOnce(m.entryTime, |init|);
      LeftOnce(m.precedingTime, |init|);
      LeftOnce(m.followingTime, |init|);
      assert last in cs;
      SameConflict(su, m, Held(su, m, init));
    }
  }

  lemma LeftOnce(time: real, n: nat)
    ensures Left(time, n + 1) == if time < 0.0 then time else Max(0.0, Left(time, n) - CYCLE_DT)
    ensures Left(time, n) >= 0.0 <==> time >= 0.0
    ensures Left(time, 0) == time
  {
  }

  lemma SameConflict(su: Setup, m: MergeContext, m': MergeContext)
    requires m'.kind == m.kind && m'.zone == m.zone && m'.checkpoint == m.checkpoint
    ensures ConflictS(su, m') == ConflictS(su, m)
  {
  }

  // ---------------------------------------------------------------- what a clear path keeps

  /** The margin at sample `i` of a path. */
  function MarginOf(su: Setup, i: nat): real { su.margins.safety + su.margins.growth * (i as real * su.dt) }

  /** On a clear path every point of the vehicle keeps more than twice the margin of the sample from every point of
      every obstacle, predicted to the time of the sample. */
  lemma ClearPathKeepsDistance(su: Setup, path: seq<PathPoint>, os: seq<Obstacle>, i: nat, k: nat, p: Vec, q: Vec)
    requires PathClear(su, path, os) && i < |path| && k < |os| && UnitCircle(su.t) && MarginOf(su, i) >= 0.0
    requires su.shape.length >= 0.0 && su.shape.width >= 0.0 && os[k].length >= 0.0 && os[k].width >= 0.0
    requires Covers(su.t, EgoRectangle(Pose(path[i].x, path[i].y, path[i].yaw), su.shape), p)
    requires Covers(su.t, ObstacleRectangle(su.t, os[k], i as real * su.dt), q)
    ensures Dot(Minus(q, p), Minus(q, p)) > (2.0 * MarginOf(su, i)) * (2.0 * MarginOf(su, i))
  {
    hide Clear, Covers, Dot, UnitCircle, EgoRectangle, ObstacleRectangle, SampleTime;
    var times := SampleTimes(|path|, su.dt);
    MarginAtSample(su, i);
    assert times[i] == SampleTime(i, su.dt);
    ClearKeepsDistance(su.t, Poses(path), times, os, su.shape, su.margins, i, k, p, q);
  }

  lemma MarginAtSample(su: Setup, i: nat)
    ensures SampleTime(i, su.dt) == i as real * su.dt
    ensures su.margins.safety + su.margins.growth * SampleTime(i, su.dt) == MarginOf(su, i)
  {
  }

  // ---------------------------------------------------------------- whole runs

  /** In every run from a fresh planner every cycle commits exactly when it asks for a commitment and a clear way
      through the conflict is at hand, and turns back exactly when it asks in vain before the stop line. */
  lemma {:induction false} EveryRunDecides(su: Setup, cs: seq<Cycle>)
    requires Initialised(su) && forall c | c in cs :: Generated(c)
    ensures var (m, h) := Run(su, cs);
            |h| == |cs| && Consistent(su, m) && forall i | 0 <= i < |h| :: DecidesAt(su, cs, h, i)
  {
    RunIsExact(su, cs);
    hide Consistent, DecidesAt, Counted, Generated, Initialised, Run;
  }

  lemma IdleIsConsistent(su: Setup)
    ensures Consistent(su, IDLE)
  {
  }

  lemma {:induction false} RunIsExact(su: Setup, cs: seq<Cycle>)
    requires Initialised(su) && forall c | c in cs :: Generated(c)
    ensures var (m, h) := Run(su, cs); |h| == |cs| && Consistent(su, m) && Exact(su, cs, h, m)
  {
    hide Plan, Consistent, DecidesAt, Generated;
    IdleIsConsistent(su);
    if cs != [] {
      var init, last := cs[..|cs| - 1], cs[|cs| - 1];
      RunIsExact(su, init);
      var (m, h) := Run(su, init);
      assert last in cs;
      PlanConsistent(su, m, last);
      PlanDecides(su, init, h, m, last);
      assert init + [last] == cs;
    }
  }
}
