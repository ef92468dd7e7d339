/** What every run of the merge state machine keeps (frenet_planner.cpp). */
module MergeSafety {
  import opened Wrappers
  import opened LockedPath
  import opened MergeMachine

  predicate Initialised(su: Setup) {
    su.dt > 0.0 && (su.highway.enabled ==> forall z | z in su.highway.zones :: ValidZone(z))
  }

  /** Candidates carry at least their first sample. */
  predicate Generated(c: Cycle) { forall k | k in c.candidates :: k.path != [] }

  predicate CheckpointInRange(su: Setup, m: MergeContext) {
    m.kind.Highway? ==>
      && su.highway.enabled && 0 <= m.zone < |su.highway.zones|
      && 0 <= m.checkpoint < |su.highway.zones[m.zone].checkpoints|
  }

  /** The gap is locked exactly while committed or crossing; a pending commitment is an unlocked wait;
      there is a locked trajectory exactly while committed; and a highway merge is about an existing
      checkpoint. */
  predicate Consistent(su: Setup, m: MergeContext) {
    && (m.active <==> !m.kind.NoMerge?) && (!m.active ==> m == IDLE)
    && (m.gapLocked <==> m.phase.Commit? || m.phase.Cross?)
    && (m.commitPending ==> m.phase.Wait?)
    && (m.lockedPath != [] <==> m.phase.Commit?) && (m.phase.Commit? ==> m.lockedIndex < |m.lockedPath|)
    && CheckpointInRange(su, m)
  }

  /** A highway merge always finds its checkpoint, so the reset for a missing zone is never taken. */
  lemma CheckpointPresent(su: Setup, m: MergeContext)
    requires Consistent(su, m) && m.kind.Highway?
    ensures ActiveCheckpoint(su, m).Some?
  {
  }

  lemma ReplayConsistent(su: Setup, m: MergeContext, c: Cycle)
    requires Consistent(su, m)
    ensures Consistent(su, Replay(su, m, c).0)
    ensures Replay(su, m, c).1.None? ==> !Replay(su, m, c).0.phase.Commit?
  {
    hide PathClear, Progressed;
  }

  lemma ActivatedConsistent(su: Setup, m: MergeContext, c: Cycle)
    requires Initialised(su) && Consistent(su, m) && InMergeApproach(su, m, c)
    ensures Consistent(su, Activated(su, m, c)) && Activated(su, m, c).active
  {
    var z := ZoneAt(su.highway, c.s);
    if z >= 0 {
      assert su.highway.zones[z] in su.highway.zones;
    }
    hide DynamicApproach, NearRoundabout, OrderedFrom;
  }

  lemma MergeStepConsistent(su: Setup, m: MergeContext, c: Cycle)
    requires Initialised(su) && Consistent(su, m) && !m.phase.Commit?
    ensures Consistent(su, MergeStep(su, m, c)) && !MergeStep(su, m, c).phase.Commit?
  {
    if InMergeApproach(su, m, c) {
      ActivatedConsistent(su, m, c);
      hide InMergeApproach, RequestedKind, DynamicApproach, NearRoundabout;
    }
  }

  lemma BestIsGiven(su: Setup, m: MergeContext, c: Cycle)
    requires su.dt > 0.0
    ensures var cs := AllChecked(su, m, c); var best := BestOf(cs, |cs|);
            best >= 0 ==>
              && c.candidates[best].valid && cs[best] == c.candidates[best]
              && (Committing(m, c) ==> PathClear(su, Whole(su, m, c, cs[best]), c.obstacles))
              && forall j | 0 <= j < |c.candidates| && cs[j].valid :: c.candidates[best].cost <= c.candidates[j].cost
  {
    var cs := AllChecked(su, m, c);
    BestIsCheapest(cs, |cs|);
    hide PathClear, Whole, BestOf;
  }

  lemma SelectConsistent(su: Setup, m: MergeContext, c: Cycle)
    requires su.dt > 0.0 && Generated(c) && Consistent(su, m)
    ensures Consistent(su, Select(su, m, c).0)
  {
    BestIsGiven(su, m, c);
    var cs := AllChecked(su, m, c);
    var best := BestOf(cs, |cs|);
    if best >= 0 {
      assert c.candidates[best] in c.candidates;
      var whole := Whole(su, m, c, cs[best]);
      assert cs[best].path <= whole;
    }
    hide AllChecked, BestOf, CountValid, Whole, PathClear, Generated;
  }

  /** Every cycle keeps the context consistent. */
  lemma PlanConsistent(su: Setup, m: MergeContext, c: Cycle)
    requires Initialised(su) && Generated(c) && Consistent(su, m)
    ensures Consistent(su, Plan(su, m, c).0)
  {
    ReplayConsistent(su, m, c);
    var (m1, early) := Replay(su, m, c);
    if early.None? && !LowSpeed(su, m, c) {
      MergeStepConsistent(su, m1, c);
      SelectConsistent(su, MergeStep(su, m1, c), c);
    }
    hide Replay, MergeStep, Select, Consistent, LowSpeed;
  }

  // ---------------------------------------------------------------- what a committed cycle sends

  /** The vehicle commits only to a trajectory that this very cycle found clear through the conflict zone:
      it is the whole of the cheapest candidate that is, and it is what the cycle sends. */
  lemma CommitsToClearTrajectory(su: Setup, m: MergeContext, c: Cycle)
    requires Initialised(su) && Generated(c) && Consistent(su, m)
    ensures var (m', r, rec) := Plan(su, m, c);
            rec.committed ==>
              && m'.phase.Commit? && m'.lockedIndex == 0 && r == Planned(m'.lockedPath)
              && PathClear(su, m'.lockedPath, c.obstacles)
              && exists k | k in c.candidates :: k.valid && m'.lockedPath == Whole(su, m', c, k)
  {
    var (m1, early) := Replay(su, m, c);
    if early.None? && !LowSpeed(su, m, c) {
      var m2 := MergeStep(su, m1, c);
      var cs := AllChecked(su, m2, c);
      var best := BestOf(cs, |cs|);
      BestIsGiven(su, m2, c);
      if best >= 0 && Committing(m2, c) {
        var k := c.candidates[best];
        assert k in c.candidates;
        CommittedWhole(su, m2, c, k);
      }
      hide MergeStep, AllChecked, BestOf, PathClear, Whole, CountValid, Committing;
    }
    hide Replay, LowSpeed, Judges;
  }

  /** Locking the gap does not change what the candidate would be extended to. */
  lemma CommittedWhole(su: Setup, m: MergeContext, c: Cycle, k: Candidate)
    requires su.dt > 0.0
    ensures var whole := Whole(su, m, c, k);
            Whole(su, m.(commitPending := false, gapLocked := true, phase := Commit, lockedPath := whole,
                         lockedIndex := 0), c, k) == whole
  {
    hide Extended;
  }

  /** A cycle that ends committed either commits in this very cycle, or replays the trajectory it was
      committed to from a point not behind the last one; whatever such a cycle sends is clear. */
  lemma CommittedCyclesAreClear(su: Setup, m: MergeContext, c: Cycle)
    requires Initialised(su) && Generated(c) && Consistent(su, m)
    ensures var (m', r, rec) := Plan(su, m, c);
            m'.phase.Commit? && !rec.committed ==>
              && m.phase.Commit? && m'.lockedPath == m.lockedPath && m.lockedIndex <= m'.lockedIndex
              && c.s < ConflictS(su, m)
              && m'.lockedIndex < |m.lockedPath|
              && (r.Planned? ==> r.path == m.lockedPath[m'.lockedIndex..] && |r.path| >= 2)
    ensures var (m', r, _) := Plan(su, m, c);
            m'.phase.Commit? && r.Planned? ==> PathClear(su, r.path, c.obstacles)
  {
    var (m1, early) := Replay(su, m, c);
    CommitsToClearTrajectory(su, m, c);
    ReplayConsistent(su, m, c);
    if early.None? && !LowSpeed(su, m, c) {
      MergeStepConsistent(su, m1, c);
      hide MergeStep, AllChecked, BestOf, Whole, CountValid;
    }
    hide LowSpeed, Judges, PathClear, Consistent, Extended, Generated, Initialised;
  }

  /** While a merge stays active it keeps its kind and zone; its checkpoint never goes back, and goes on by
      one only when the conflict is reached. */
  lemma CheckpointsOnlyAdvance(su: Setup, m: MergeContext, c: Cycle)
    requires Initialised(su) && Consistent(su, m) && m.active
    ensures var m' := Plan(su, m, c).0;
            m'.active ==>
              && m'.kind == m.kind && m'.zone == m.zone
              && (m'.checkpoint == m.checkpoint
                  || (m'.checkpoint == m.checkpoint + 1 && c.s >= ConflictS(su, m) && m.gapLocked))
  {
    hide Replay, MergeStep, Select, LowSpeed, Judges, Consistent, ValidZone, ConflictS, Committing, Activated;
    var (m1, early) := Replay(su, m, c);
    ReplayAdvances(su, m, c);
    SelectKeepsPlace(su, MergeStep(su, m1, c), c);
    MergeStepAdvance(su, m1, c);
  }

  /** The replay stays at the conflict, or leaves it for the next one without a lock. */
  lemma ReplayAdvances(su: Setup, m: MergeContext, c: Cycle)
    requires Consistent(su, m) && m.active
    ensures var m1 := Replay(su, m, c).0;
            && m1.active && m1.kind == m.kind && m1.zone == m.zone
            && (m1.checkpoint == m.checkpoint ==> ConflictS(su, m1) == ConflictS(su, m))
            && (m1.checkpoint == m.checkpoint && m1.gapLocked ==> m.gapLocked)
            && (m1.checkpoint != m.checkpoint ==>
                  m1.checkpoint == m.checkpoint + 1 && !m1.gapLocked && c.s >= ConflictS(su, m) && m.gapLocked)
  {
    hide PathClear, Progressed, StopBuffer;
  }

  lemma SelectKeepsPlace(su: Setup, m: MergeContext, c: Cycle)
    requires su.dt > 0.0
    ensures var m' := Select(su, m, c).0;
            m'.active == m.active && m'.kind == m.kind && m'.zone == m.zone && m'.checkpoint == m.checkpoint
  {
    hide AllChecked, BestOf, CountValid, Whole, StopBuffer, ConflictS;
  }

  lemma MergeStepAdvance(su: Setup, m: MergeContext, c: Cycle)
    requires m.active
    ensures var m' := MergeStep(su, m, c);
            m'.active ==>
              && m'.kind == m.kind && m'.zone == m.zone
              && (m'.checkpoint == m.checkpoint
                  || (m'.checkpoint == m.checkpoint + 1 && c.s >= ConflictS(su, m) && m.gapLocked))
  {
    hide InMergeApproach, SafeCycles, NextCheckpoint;
  }

  // ---------------------------------------------------------------- confirmation

  /** The cycle judged this gap, at this conflict, and found it confirmed and safe. */
  predicate FoundSafe(r: Record, kind: MergeType, zone: int, checkpoint: int, precedingId: int, followingId: int) {
    && r.judged.Some?
    && r.judged.value.kind == kind && r.judged.value.zone == zone && r.judged.value.checkpoint == checkpoint
    && r.judged.value.gap.confirmed && r.judged.value.gap.safe
    && r.judged.value.gap.precedingId == precedingId && r.judged.value.gap.followingId == followingId
  }

  /** The last `n` cycles all found the gap the context remembers confirmed and safe. */
  ghost predicate SafeRun(h: seq<Record>, m: MergeContext, n: nat) {
    n <= |h| && forall i | |h| - n <= i < |h| ::
        FoundSafe(h[i], m.kind, m.zone, m.checkpoint, m.precedingId, m.followingId)
  }

  /** The configured number of confirmations for a kind of merge, at least one. */
  function Needed(su: Setup, kind: MergeType): nat {
    match kind
    case Highway => if su.highway.confirmCycles >= 1 then su.highway.confirmCycles else 1
    case _ => if su.roundabout.confirmCycles >= 1 then su.roundabout.confirmCycles else 1
  }

  /** A commitment is the last of `Needed` cycles in a row that found the same gap at the same conflict
      confirmed and safe. */
  ghost predicate CommitJustified(su: Setup, h: seq<Record>, i: nat)
    requires i < |h|
  {
    h[i].committed ==>
      && h[i].judged.Some?
      && var j := h[i].judged.value;
         Needed(su, j.kind) <= i + 1
         && forall k | i + 1 - Needed(su, j.kind) <= k <= i ::
              FoundSafe(h[k], j.kind, j.zone, j.checkpoint, j.gap.precedingId, j.gap.followingId)
  }

  ghost predicate Remembered(su: Setup, h: seq<Record>, m: MergeContext) {
    && (forall i | 0 <= i < |h| :: CommitJustified(su, h, i))
    && (!m.gapLocked ==> SafeRun(h, m, m.safeCycles))
  }

  /** A judged gap that asks for a commitment has been confirmed often enough, this cycle included. */
  lemma JudgedRun(su: Setup, h: seq<Record>, m: MergeContext, c: Cycle, rec: Record)
    requires Judges(su, m, c) && SafeRun(h, Activated(su, m, c), Activated(su, m, c).safeCycles)
    requires var a := Activated(su, m, c); rec.judged == Some(Judged(a.kind, a.zone, a.checkpoint, c.gap))
    ensures var m' := MergeStep(su, m, c);
            && SafeRun(h + [rec], m', m'.safeCycles) && !m'.gapLocked
            && (m'.commitPending ==> m'.safeCycles >= Needed(su, m'.kind))
            && m'.kind == rec.judged.value.kind && m'.zone == rec.judged.value.zone
            && m'.checkpoint == rec.judged.value.checkpoint
            && m'.precedingId == c.gap.precedingId && m'.followingId == c.gap.followingId
  {
    hide InMergeApproach, RequestedKind, ConflictS;
  }

  /** A cycle that judges no gap leaves nothing to remember, or a lock. */
  lemma UnjudgedStep(su: Setup, m: MergeContext, c: Cycle)
    requires !Judges(su, m, c)
    ensures var m' := MergeStep(su, m, c); (!m'.gapLocked ==> m'.safeCycles == 0) && !m'.commitPending
  {
    hide InMergeApproach, RequestedKind, ConflictS, NextCheckpoint;
  }

  lemma ReplayForgets(su: Setup, m: MergeContext, c: Cycle)
    requires Consistent(su, m)
    ensures var (m1, early) := Replay(su, m, c);
            && (early.Some? ==> m1.gapLocked)
            && (!m1.gapLocked ==> m1.safeCycles == 0 || m1 == m)
  {
    hide PathClear, Progressed, ConflictS, StopBuffer, NextCheckpoint;
  }

  lemma SelectRemembers(su: Setup, m: MergeContext, c: Cycle)
    requires su.dt > 0.0
    ensures var (m', r) := Select(su, m, c);
            && (Committing(m, c) && r.Planned? ==> m'.gapLocked)
            && (!m'.gapLocked ==> m'.safeCycles == 0 || m' == m)
            && m'.kind == m.kind && m'.zone == m.zone && m'.checkpoint == m.checkpoint
  {
    hide AllChecked, BestOf, CountValid, Whole, ConflictS, StopBuffer;
  }

  lemma GrownHistory(su: Setup, h: seq<Record>, rec: Record)
    requires forall i | 0 <= i < |h| :: CommitJustified(su, h, i)
    ensures forall i | 0 <= i < |h| :: CommitJustified(su, h + [rec], i)
  {
    forall i | 0 <= i < |h|
      ensures CommitJustified(su, h + [rec], i)
    {
      assert CommitJustified(su, h, i);
    }
    hide FoundSafe, Needed;
  }

  lemma CommittedNow(su: Setup, h: seq<Record>, rec: Record, m: MergeContext)
    requires rec.committed ==>
               && SafeRun(h + [rec], m, m.safeCycles) && m.safeCycles >= Needed(su, m.kind)
    ensures CommitJustified(su, h + [rec], |h|)
  {
    if rec.committed {
      assert FoundSafe((h + [rec])[|h|], m.kind, m.zone, m.checkpoint, m.precedingId, m.followingId);
    }
  }

  /** Every cycle keeps the memory of confirmations truthful. */
  lemma PlanRemembers(su: Setup, h: seq<Record>, m: MergeContext, c: Cycle)
    requires Initialised(su) && Consistent(su, m) && Remembered(su, h, m)
    ensures Remembered(su, h + [Plan(su, m, c).2], Plan(su, m, c).0)
  {
    var (m', r, rec) := Plan(su, m, c);
    var (m1, early) := Replay(su, m, c);
    ReplayForgets(su, m, c);
    GrownHistory(su, h, rec);
    if early.Some? || LowSpeed(su, m, c) {
      CommittedNow(su, h, rec, m1);
      assert m1.gapLocked || m1 == IDLE;
    } else {
      var m2 := MergeStep(su, m1, c);
      SelectRemembers(su, m2, c);
      assert SafeRun(h, m1, m1.safeCycles) || m1.gapLocked;
      if Judges(su, m1, c) {
        assert SafeRun(h, Activated(su, m1, c), Activated(su, m1, c).safeCycles);
        JudgedRun(su, h, m1, c, rec);
        CommittedNow(su, h, rec, m2);
      } else {
        UnjudgedStep(su, m1, c);
        CommittedNow(su, h, rec, m2);
      }
    }
  }

  // ---------------------------------------------------------------- whole runs

  /** The state and the history after a run of cycles from a fresh planner. */
  ghost function Run(su: Setup, cs: seq<Cycle>): (MergeContext, seq<Record>)
    requires su.dt > 0.0
  {
    if cs == [] then (IDLE, [])
    else
      var (m, h) := Run(su, cs[..|cs| - 1]);
      var (m', _, rec) := Plan(su, m, cs[|cs| - 1]);
      (m', h + [rec])
  }

  /** After every run the context is consistent, and every commitment in it was the last of the configured
      number of cycles in a row that found the same gap at the same conflict confirmed and safe. */
  lemma {:induction false} EveryRunIsSafe(su: Setup, cs: seq<Cycle>)
    requires Initialised(su) && forall c | c in cs :: Generated(c)
    ensures var (m, h) := Run(su, cs); |h| == |cs| && Consistent(su, m) && Remembered(su, h, m)
  {
    if cs != [] {
      var last := cs[|cs| - 1];
      EveryRunIsSafe(su, cs[..|cs| - 1]);
      var (m, h) := Run(su, cs[..|cs| - 1]);
      assert last in cs;
      PlanConsistent(su, m, last);
      PlanRemembers(su, h, m, last);
    }
    hide Plan, Consistent, Remembered, Generated, Initialised;
  }
}
