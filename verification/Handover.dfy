/** From the planner's loop through the packet into the controller's reference path. */
module Handover {
  import opened ByteCodec
  import Wrappers
  import PlannerLoop
  import PathPacket
  import MpcLoop
  import VehicleModel
  import CostFunction

  /** The received message as the controller uses it. */
  function AsPlannedPath(m: PathPacket.Message): MpcLoop.PlannedPath {
    MpcLoop.PlannedPath(seq(|m.samples|, i requires 0 <= i < |m.samples| =>
                              MpcLoop.PathSample(m.samples[i].x, m.samples[i].y, m.samples[i].yaw, m.samples[i].kappa,
                                                 m.samples[i].v)),
                        m.dt, VehicleModel.State(m.ego.x, m.ego.y, m.ego.yaw, m.ego.v))
  }

  /** What the controller makes of a packet. */
  function Received(f: Floats, m: PathPacket.Message): MpcLoop.PlannedPath {
    AsPlannedPath(PathPacket.Delivered(f, m))
  }

  /** A reference of `steps` samples, all at rest at the vehicle's pose. */
  ghost predicate RestsAt(r: seq<CostFunction.RefSample>, steps: int, f: Floats, s: PlannerLoop.VehicleState) {
    && (steps > 0 ==> |r| == steps)
    && forall i | 0 <= i < |r| ::
        r[i] == CostFunction.RefSample(f.Rounded(s.x), f.Rounded(s.y), f.Rounded(s.yaw), 0.0, 0.0)
  }

  lemma OneSampleRests(f: Floats, m: PathPacket.Message, s: PlannerLoop.VehicleState, dt: real, steps: int)
    requires m.samples == PlannerLoop.MakeStopPath(s)
    requires f.Rounded(0.0) == 0.0 && f.Rounded(m.dt) > 0.0
    ensures RestsAt(MpcLoop.Aligned(Received(f, m), dt, steps), steps, f, s)
  {
    var path := Received(f, m);
    forall i: nat | i < steps
      ensures MpcLoop.Aligned(path, dt, steps)[i]
              == CostFunction.RefSample(f.Rounded(s.x), f.Rounded(s.y), f.Rounded(s.yaw), 0.0, 0.0)
    {
      MpcLoop.OneSampleStandsStill(path, dt, steps, i);
    }
  }

  /** A stop path sent for a vehicle reaches the controller as a reference that rests at the vehicle's pose over
      the whole horizon, and the standstill watchdog never takes it for an intent to drive. */
  lemma StopPathIsObeyed(f: Floats, m: PathPacket.Message, s: PlannerLoop.VehicleState, dt: real, steps: int, vx: real,
                         w: MpcLoop.Watchdog, hypot: (real, real) -> real)
    requires m.samples == PlannerLoop.MakeStopPath(s)
    requires f.Rounded(0.0) == 0.0 && f.Rounded(m.dt) > 0.0
    requires hypot(0.0, 0.0) == 0.0 && w.minPathProgress >= 0.0 && w.targetSpeed >= 0.0
    ensures PathPacket.Acceptable(PathPacket.Packet(f, m))
    ensures var path := AsPlannedPath(PathPacket.Parsed(f, PathPacket.Packet(f, m)));
            && RestsAt(MpcLoop.Aligned(path, dt, steps), steps, f, s)
            && !MpcLoop.StoppedWithIntent(MpcLoop.Aligned(path, dt, steps), vx, w, hypot)
  {
    PathPacket.SendReceive(f, m);
    OneSampleRests(f, m, s, dt, steps);
    hide PathPacket.Packet, MpcLoop.Aligned;
    MpcLoop.StopPathIsNoIntent(Received(f, m), dt, steps, vx, w, hypot);
  }

  /** After a pass whose planning a collision blocked, whatever the passes before, the controller's reference
      rests at the pose of that pass. */
  lemma BlockedPassStops(h: seq<PlannerLoop.Tick>, sent: PlannerLoop.Path, f: Floats, m: PathPacket.Message, dt: real,
                         steps: int)
    requires h != [] && h[|h| - 1].Planning? && h[|h| - 1].plan.CollisionBlocked?
    requires PlannerLoop.SendsRightly(h, Wrappers.Some(sent)) && m.samples == sent
    requires f.Rounded(0.0) == 0.0 && f.Rounded(m.dt) > 0.0
    ensures RestsAt(MpcLoop.Aligned(Received(f, m), dt, steps), steps, f, h[|h| - 1].state)
  {
    var j: nat :| PlannerLoop.IsOrigin(h, j) && sent == PlannerLoop.OwnPath(h[j]);
    PlannerLoop.SentPathIsRecent(h, j);
    OneSampleRests(f, m, h[j].state, dt, steps);
  }
}
