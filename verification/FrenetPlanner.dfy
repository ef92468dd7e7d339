/** The planner object: Init's zone validation and the merge part of Plan, step by step on its merge
    context (frenet_planner.cpp). */
module Planner {
  import opened Wrappers
  import opened RealMath
  import opened TrajectoryCheck
  import opened LockedPath
  import opened MergeMachine
  import opened MergeSafety
  import opened MergeCommitment

  class FrenetPlanner {
    const su: Setup
    var merge: MergeContext
    ghost var history: seq<Record>
    ghost var cycles: seq<Cycle>

    /** In every reachable state the context is consistent, every commitment in the history was confirmed as often as
        configured, and every cycle decided as its inputs and the history demand. */
    ghost predicate Valid()
      reads this
    {
      && Initialised(su) && Consistent(su, merge) && Remembered(su, history, merge)
      && Exact(su, cycles, history, merge)
    }

    constructor (raw: Setup)
      requires raw.dt > 0.0
      ensures Valid() && merge == IDLE && history == [] && cycles == []
      ensures su == raw.(highway :=
                         raw.highway.(enabled := raw.highway.enabled
                                      && forall z | z in raw.highway.zones :: ValidZone(z)))
    {
      var highway := ValidateZones(raw.highway);
      su := raw.(highway := highway);
      merge, history, cycles := IDLE, [], [];
      new;
      hide ValidZone;
    }

    /** The block at the start of Plan that follows, leaves or gives up a locked trajectory. */
    method ReplayLocked(c: Cycle) returns (early: Option<PlanResult>)
      requires su.dt > 0.0
      modifies this`merge
      ensures (merge, early) == Replay(su, old(merge), c)
    {
      hide PathClear, Progressed, ConflictS;
      early := None;
      if merge.active && merge.gapLocked && merge.phase.Commit? {
        var conflictS := ConflictS(su, merge);
        if c.s >= conflictS {
          var next := NextCheckpoint(su, merge);
          if next.Some? {
            merge := merge.(checkpoint := merge.checkpoint + 1, gapLocked := false, commitPending := false,
                            gapSafe := false, safeCycles := 0, phase := Approach, lockedPath := [], lockedIndex := 0);
          } else {
            merge := merge.(phase := Cross, lockedPath := []);
          }
        } else if merge.lockedPath != [] {
          var stopS := conflictS - StopBuffer(su, merge);
          var remaining, index := RemainingPath(merge.lockedPath, c.ego, merge.lockedIndex);
          merge := merge.(lockedIndex := index);
          var clear := IsClear(remaining, c);
          if !clear {
            if c.s < stopS {
              merge := merge.(gapLocked := false, gapSafe := false, safeCycles := 0, phase := Wait, lockedPath := [],
                              lockedIndex := 0);
            } else {
              early := Some(Failed(CollisionBlocked));
            }
          } else if |remaining| >= 2 {
            early := Some(Planned(remaining));
          } else {
            early := Some(Failed(TransientFailure));
          }
        }
      }
    }

    method IsClear(path: seq<PathPoint>, c: Cycle) returns (clear: bool)
      ensures clear <==> PathClear(su, path, c.obstacles)
    {
      var blockingId;
      clear, blockingId := CartesianTrajectoryClear(su.t, Poses(path), c.obstacles, su.shape, su.margins, su.dt);
    }

    /** The merge step proper: activation, the hold of a locked gap or a fresh judgement, and the reset
        outside the merge area. */
    method StepMerge(c: Cycle)
      requires Initialised(su) && Consistent(su, merge)
      modifies this`merge
      ensures merge == MergeStep(su, old(merge), c)
    {
      if !InMergeApproach(su, merge, c) {
        merge := IDLE;
        return;
      }
      ActivatedConsistent(su, merge, c);
      ghost var activated := Activated(su, merge, c);
      if !merge.active {
        var kind := RequestedKind(su, merge, c);
        merge := IDLE.(active := true, kind := kind);
        if kind.Highway? {
          merge := merge.(zone := ZoneAt(su.highway, c.s));
        }
      }
      assert merge == activated;
      if merge.kind.Highway? && ActiveCheckpoint(su, merge).None? {
        CheckpointPresent(su, merge);
        assert false;  // the zone-missing reset
      }
      hide InMergeApproach, RequestedKind, Consistent, Initialised;
      if merge.gapLocked {
        Hold(c);
      } else {
        Judge(c);
      }
    }

    method Hold(c: Cycle)
      modifies this`merge
      ensures merge == HoldGap(su, old(merge), c)
    {
      hide ConflictS, NextCheckpoint;
      var conflictS, next := ConflictS(su, merge), NextCheckpoint(su, merge);
      merge := merge.(commitPending := false, entryTime := Max(0.0, merge.entryTime - CYCLE_DT));
      if merge.precedingTime >= 0.0 {
        merge := merge.(precedingTime := Max(0.0, merge.precedingTime - CYCLE_DT));
      }
      if merge.followingTime >= 0.0 {
        merge := merge.(followingTime := Max(0.0, merge.followingTime - CYCLE_DT));
      }
      merge := merge.(gapSafe := true);
      if c.s >= conflictS {
        if next.Some? {
          merge := merge.(checkpoint := merge.checkpoint + 1, gapLocked := false, gapSafe := false, safeCycles := 0,
                          phase := Approach, lockedPath := [], lockedIndex := 0);
          merge := merge.(precedingId := -1, followingId := -1, precedingTime := -1.0, followingTime := -1.0);
        } else {
          merge := merge.(phase := Cross);
        }
      }
    }

    method Judge(c: Cycle)
      modifies this`merge
      ensures merge == JudgeGap(su, old(merge), c)
    {
      hide ConflictS;
      var conflictGap := ConflictS(su, merge) - c.s;
      var commitDistance := if merge.kind.Highway? then su.highway.commitDistance else su.roundabout.commitDistance;
      var gap := c.gap;
      var sameGap := merge.precedingId == gap.precedingId && merge.followingId == gap.followingId;
      var safeCycles := if gap.confirmed && gap.safe then (if sameGap then merge.safeCycles + 1 else 1) else 0;
      merge := merge.(safeCycles := safeCycles);
      merge := merge.(gapSafe := gap.safe, entryTime := gap.entryTime, clearTime := gap.clearTime,
                      precedingId := gap.precedingId, precedingTime := gap.precedingTime,
                      followingId := gap.followingId, followingTime := gap.followingTime,
                      crossingCount := gap.crossingCount);
      if conflictGap > commitDistance {
        merge := merge.(phase := Approach, gapSafe := !gap.confirmed || gap.safe, commitPending := false);
      } else if gap.confirmed && gap.safe && merge.safeCycles >= ConfirmCycles(su, merge.kind) {
        merge := merge.(phase := Wait, commitPending := true);
      } else {
        merge := merge.(phase := Wait, gapSafe := false, commitPending := false);
      }
    }

    /** While committing, the whole trajectory of every valid candidate is checked. */
    method CheckCandidates(c: Cycle) returns (cs: seq<Candidate>)
      requires su.dt > 0.0
      ensures cs == AllChecked(su, merge, c)
    {
      hide Checked, AllChecked;
      cs := c.candidates;
      if c.avoiding || !merge.active || !merge.commitPending {
        UncommittedUnchecked(su, merge, c);
        return;
      }
      ghost var goal := AllChecked(su, merge, c);
      for i := 0 to |cs|
        invariant |cs| == |goal| == |c.candidates|
        invariant forall j | 0 <= j < i :: cs[j] == goal[j]
        invariant forall j | i <= j < |cs| :: cs[j] == c.candidates[j]
      {
        AllCheckedAt(su, merge, c, i);
        if !cs[i].valid {
          InvalidStays(su, merge, c, cs[i]);
          continue;
        }
        var clear := CheckCandidate(c, cs[i]);
        if !clear {
          cs := cs[i := cs[i].(valid := false)];
        }
      }
    }

    /** A valid candidate of a committing plan stays valid exactly when its whole trajectory is clear. */
    method CheckCandidate(c: Cycle, k: Candidate) returns (clear: bool)
      requires su.dt > 0.0 && Committing(merge, c) && k.valid
      ensures Checked(su, merge, c, k) == if clear then k else k.(valid := false)
    {
      hide PathClear, Extended, ConflictS, CompletionDistance;
      var full := Complete(c, k);
      clear := IsClear(full, c);
    }

    method Complete(c: Cycle, k: Candidate) returns (full: seq<PathPoint>)
      requires su.dt > 0.0
      ensures full == Whole(su, merge, c, k)
    {
      hide Extended;
      var crossSpeed := if merge.kind.Highway? then su.highway.crossSpeed else su.roundabout.crossSpeed;
      full := ExtendMergePathThroughConflict(k.path, su.ref, ConflictS(su, merge), CompletionDistance(su, merge),
                                             k.endS,
                                             Max(c.targetSpeed, crossSpeed), su.dt);
    }

    method CountSurvivors(cs: seq<Candidate>) returns (n: nat)
      ensures n == CountValid(cs)
    {
      n := 0;
      for i := 0 to |cs|
        invariant n == CountValid(cs[..i])
      {
        assert cs[..i + 1][..i] == cs[..i];
        if cs[i].valid {
          n := n + 1;
        }
      }
      assert cs[..|cs|] == cs;
    }

    /** Choice of the best candidate, and the commitment to it. */
    method SelectAndCommit(c: Cycle) returns (r: PlanResult)
      requires su.dt > 0.0
      modifies this`merge
      ensures (merge, r) == Select(su, old(merge), c)
    {
      hide AllChecked, CountValid, Whole, ConflictS, StopBuffer;
      var committing := !c.avoiding && merge.active && merge.commitPending;
      var afterCollision := c.afterCollision;
      var candidates := CheckCandidates(c);
      if committing {
        afterCollision := CountSurvivors(candidates);
      }
      var best := SelectBestPath(candidates);
      if best < 0 {
        if committing && c.s < ConflictS(su, merge) - StopBuffer(su, merge) {
          merge := merge.(gapLocked := false, commitPending := false, gapSafe := false, safeCycles := 0, phase := Wait);
        }
        return Failed(if c.afterCurvature > 0 && afterCollision == 0 then CollisionBlocked else TransientFailure);
      }
      var selected := candidates[best].path;
      if committing {
        selected := Complete(c, candidates[best]);
        merge := merge.(commitPending := false, gapLocked := true, phase := Commit, lockedPath := selected,
                        lockedIndex := 0);
      }
      r := Planned(selected);
    }

    /** One planning cycle. */
    method PlanCycle(c: Cycle) returns (r: PlanResult)
      requires Valid() && Generated(c)
      modifies this
      ensures Valid()
      ensures var (m, result, record) := Plan(su, old(merge), c);
              merge == m && r == result && history == old(history) + [record] && cycles == old(cycles) + [c]
    {
      PlanConsistent(su, merge, c);
      PlanRemembers(su, history, merge, c);
      PlanDecides(su, cycles, history, merge, c);
      ReplayConsistent(su, merge, c);
      hide Remembered, Consistent, Exact, Replay, MergeStep, Select, Judges;
      history, cycles := history + [Plan(su, merge, c).2], cycles + [c];
      var lowSpeed := LowSpeed(su, merge, c);
      var early := ReplayLocked(c);
      if early.Some? {
        return early.value;
      }
      if lowSpeed {
        return LowSpeedPath;
      }
      StepMerge(c);
      r := SelectAndCommit(c);
    }
  }
}
