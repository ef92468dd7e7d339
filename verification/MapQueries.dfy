/** What the two queries of the map answer, told by lists of links alone: how far it is from a place on one link to
    the beginning of another over the links of such a list (map/mgeo_loader.cpp). */
module MapQueries {
  import opened Wrappers
  import opened RealMath
  import opened QueueOrder
  import opened RoadGraph
  import opened RoadSearch
  import opened StopSearch

  /** `path` can be driven from node `a` to node `b`. */
  ghost predicate Joins(links: map<LinkId, Link>, a: NodeId, path: seq<LinkId>, b: NodeId) {
    if path == [] then a == b
    else
      var n := |path| - 1;
      && path[n] in links && links[path[n]].toNode == b
      && Joins(links, a, path[..n], links[path[n]].fromNode)
  }

  ghost function Metres(links: map<LinkId, Link>, path: seq<LinkId>): real {
    if path == [] then 0.0
    else
      var n := |path| - 1;
      Metres(links, path[..n]) + if path[n] in links then links[path[n]].length else 0.0
  }

  /** From `offset` on link `from` to its end, which may lie behind already, and on over `path`. */
  ghost function Ahead(links: map<LinkId, Link>, from: LinkId, offset: real, path: seq<LinkId>): real
    requires from in links
  {
    (if offset < links[from].length then links[from].length - offset else 0.0) + Metres(links, path)
  }

  /** `path` leads from the end of link `from` to the beginning of link `to`, and a place `toOffset` on `to` that is
      entered that way is within `limit`, as its beginning is. */
  ghost predicate InRange(links: map<LinkId, Link>, from: LinkId, offset: real, path: seq<LinkId>, to: LinkId,
                          toOffset: real, limit: real) {
    && from in links && to in links && Joins(links, links[from].toNode, path, links[to].fromNode)
    && Ahead(links, from, offset, path) <= limit && Ahead(links, from, offset, path) + toOffset <= limit
  }

  /** What a distance query between two different links answers: a distance exactly when some path is in range, and
      then the length of such a path. */
  ghost predicate DistanceAnswer(links: map<LinkId, Link>, from: LinkId, offset: real, to: LinkId, toOffset: real,
                                 limit: real, r: Option<real>)
    requires from in links
  {
    && (r.Some? <==> exists path :: InRange(links, from, offset, path, to, toOffset, limit))
    && (r.Some? ==> exists path :: InRange(links, from, offset, path, to, toOffset, limit)
                                   && r.value == Ahead(links, from, offset, path) + toOffset)
  }

  // ---------------------------------------------------------------- walks as lists

  ghost function PathOf(w: Walk): seq<LinkId> {
    match w
    case Here => []
    case Along(p, l) => PathOf(p) + [l]
  }

  ghost function WalkOf(path: seq<LinkId>): Walk {
    if path == [] then Here else Along(WalkOf(path[..|path| - 1]), path[|path| - 1])
  }

  lemma {:induction false} PathOfWalkOf(path: seq<LinkId>)
    ensures PathOf(WalkOf(path)) == path
  {
    if path != [] {
      PathOfWalkOf(path[..|path| - 1]);
    }
  }

  /** A walk is a path from the start of the search, and costs the base cost and the length of that path. */
  lemma {:induction false} WalkIsPath(s: Search, w: Walk)
    ensures IsWalk(s, w) ==> Joins(s.links, s.start, PathOf(w), EndNode(s, w))
    ensures Cost(s, w) == s.base + Metres(s.links, PathOf(w))
  {
    if w.Along? {
      WalkIsPath(s, w.prefix);
      assert PathOf(w)[..|PathOf(w)| - 1] == PathOf(w.prefix);
    }
  }

  lemma {:induction false} PathIsWalk(s: Search, path: seq<LinkId>, b: NodeId)
    requires Joins(s.links, s.start, path, b)
    ensures IsWalk(s, WalkOf(path)) && EndNode(s, WalkOf(path)) == b
  {
    if path != [] {
      PathIsWalk(s, path[..|path| - 1], s.links[path[|path| - 1]].fromNode);
    }
  }

  lemma {:induction false} WalkIsOpen(s: Search, w: Walk)
    requires IsWalk(s, w) && s.blocked == {}
    ensures IsOpen(s, w)
  {
    if w.Along? {
      WalkIsOpen(s, w.prefix);
    }
  }

  // ---------------------------------------------------------------- the distance query

  lemma WalkInRange(links: map<LinkId, Link>, from: LinkId, offset: real, to: LinkId, toOffset: real, limit: real,
                    w: Walk)
    requires from in links
    ensures var s := QuerySearch(links, from, offset);
            WithinRange(s, w, to, toOffset, limit) ==>
              InRange(links, from, offset, PathOf(w), to, toOffset, limit)
              && Cost(s, w) == Ahead(links, from, offset, PathOf(w))
  {
    WalkIsPath(QuerySearch(links, from, offset), w);
  }

  lemma PathWithinRange(links: map<LinkId, Link>, from: LinkId, offset: real, to: LinkId, toOffset: real, limit: real,
                        path: seq<LinkId>)
    requires InRange(links, from, offset, path, to, toOffset, limit)
    ensures WithinRange(QuerySearch(links, from, offset), WalkOf(path), to, toOffset, limit)
  {
    var s := QuerySearch(links, from, offset);
    PathIsWalk(s, path, links[to].fromNode);
    WalkIsPath(s, WalkOf(path));
    PathOfWalkOf(path);
    WalkIsOpen(s, WalkOf(path));
  }

  /** The distance search answers the query. */
  lemma ForwardAnswers(links: map<LinkId, Link>, from: LinkId, offset: real, to: LinkId, toOffset: real, limit: real,
                       r: Option<real>)
    requires from in links && to in links
    requires ForwardOutcome(QuerySearch(links, from, offset), to, toOffset, limit, r)
    ensures DistanceAnswer(links, from, offset, to, toOffset, limit, r)
  {
    var s := QuerySearch(links, from, offset);
    ForwardSoundAndComplete(s, to, toOffset, limit, r);
    hide WithinRange, InRange, ForwardOutcome, QuerySearch, Ahead, Cost;
    if r.Some? {
      var w :| WithinRange(s, w, to, toOffset, limit) && Cost(s, w) + toOffset == r.value;
      WalkInRange(links, from, offset, to, toOffset, limit, w);
    }
    if path :| InRange(links, from, offset, path, to, toOffset, limit) {
      PathWithinRange(links, from, offset, to, toOffset, limit, path);
    }
  }

  // ---------------------------------------------------------------- the stop-line query

  ghost predicate HasStopLine(stops: seq<StopLine>, node: NodeId) {
    exists i :: 0 <= i < |stops| && stops[i].nodeId == node
  }

  ghost predicate IsStopAt(stops: seq<StopLine>, node: NodeId, stop: StopLine, i: nat) {
    i < |stops| && stops[i] == stop && stop.nodeId == node && forall j | 0 <= j < i :: stops[j].nodeId != node
  }

  /** `stop` is the first stop line recorded for `node`. */
  ghost predicate IsFirstStop(stops: seq<StopLine>, node: NodeId, stop: StopLine) {
    exists i: nat :: IsStopAt(stops, node, stop, i)
  }

  /** No node that `path` passes before its end has a stop line. */
  ghost predicate Unstopped(links: map<LinkId, Link>, stops: seq<StopLine>, a: NodeId, path: seq<LinkId>) {
    path != [] ==>
      && !HasStopLine(stops, a)
      && forall l | l in path[..|path| - 1] :: l in links && !HasStopLine(stops, links[l].toNode)
  }

  /** `path` leads from the end of link `current` to its first node with a stop line, within `limit`. */
  ghost predicate StopInRange(links: map<LinkId, Link>, stops: seq<StopLine>, current: LinkId, offset: real,
                              path: seq<LinkId>, node: NodeId, limit: real) {
    && current in links && Joins(links, links[current].toNode, path, node)
    && HasStopLine(stops, node) && Unstopped(links, stops, links[current].toNode, path)
    && Ahead(links, current, offset, path) <= limit
  }

  /** The last link of `path`, if it has one, begins nearer than the initial best distance of the search. */
  ghost predicate BeginsNear(links: map<LinkId, Link>, current: LinkId, offset: real, path: seq<LinkId>)
    requires current in links
  {
    path == [] || Ahead(links, current, offset, path[..|path| - 1]) < FAR_AWAY
  }

  /** What a stop-line query answers: a stop line exactly when some path meets one in range, and then the first stop
      line of the node where such a path does, with the length of that path. */
  ghost predicate StopLineAnswer(links: map<LinkId, Link>, stops: seq<StopLine>, current: LinkId, offset: real,
                                 limit: real, r: Option<(StopLine, real)>)
    requires current in links
  {
    && (r.Some? <==> exists path, node :: StopInRange(links, stops, current, offset, path, node, limit)
                                          && BeginsNear(links, current, offset, path))
    && (r.Some? ==> exists path, node :: StopInRange(links, stops, current, offset, path, node, limit)
                                         && IsFirstStop(stops, node, r.value.0)
                                         && r.value.1 == Ahead(links, current, offset, path))
  }

  lemma {:induction false} FirstStopAt(stops: seq<StopLine>, node: NodeId)
    ensures StopsAt(stops, node) != [] <==> HasStopLine(stops, node)
    ensures StopsAt(stops, node) != [] ==> IsFirstStop(stops, node, StopsAt(stops, node)[0])
  {
    hide IsStopAt, HasStopLine;
    if stops != [] {
      var init, last := stops[..|stops| - 1], stops[|stops| - 1];
      FirstStopAt(init, node);
      assert stops == init + [last];
      StopAdded(init, last, node);
      if StopsAt(init, node) != [] {
        var i: nat :| IsStopAt(init, node, StopsAt(init, node)[0], i);
        StopStays(init, last, node, StopsAt(init, node)[0], i);
      }
    } else {
      NoStops(node);
    }
  }

  lemma NoStops(node: NodeId)
    ensures !HasStopLine([], node)
  {
  }

  lemma StopAdded(stops: seq<StopLine>, last: StopLine, node: NodeId)
    ensures HasStopLine(stops + [last], node) <==> HasStopLine(stops, node) || last.nodeId == node
    ensures !HasStopLine(stops, node) && last.nodeId == node ==> IsStopAt(stops + [last], node, last, |stops|)
  {
    var all := stops + [last];
    assert all[|stops|] == last && forall j | 0 <= j < |stops| :: all[j] == stops[j];
    if HasStopLine(stops, node) {
      var i :| 0 <= i < |stops| && stops[i].nodeId == node;
      assert all[i].nodeId == node;
    }
  }

  lemma StopStays(stops: seq<StopLine>, last: StopLine, node: NodeId, stop: StopLine, i: nat)
    requires IsStopAt(stops, node, stop, i)
    ensures IsStopAt(stops + [last], node, stop, i)
  {
    assert forall j | 0 <= j < |stops| :: (stops + [last])[j] == stops[j];
  }

  /** The nodes of an open walk have no stop line; the start of the walk counts only when it goes on. */
  lemma {:induction false} OpenIsUnstopped(s: Search, stops: seq<StopLine>, w: Walk)
    requires IsWalk(s, w) && forall n :: n in s.blocked <==> HasStopLine(stops, n)
    ensures IsOpen(s, w) <==>
            forall l | l in PathOf(w) :: l in s.links && !HasStopLine(stops, s.links[l].toNode)
  {
    hide HasStopLine;
    if w.Along? {
      OpenIsUnstopped(s, stops, w.prefix);
      assert forall l :: l in PathOf(w) <==> l in PathOf(w.prefix) || l == w.link;
    }
  }

  lemma ArrivalInRange(links: map<LinkId, Link>, stops: seq<StopLine>, blocked: set<NodeId>, current: LinkId,
                       offset: real, limit: real, w: Walk, l: LinkId)
    requires current in links && !HasStopLine(stops, links[current].toNode)
    requires forall n :: n in blocked <==> HasStopLine(stops, n)
    requires Arrival(StopQuery(links, blocked, current, offset), limit, w, l)
    ensures var s := StopQuery(links, blocked, current, offset);
            && l in links && StopInRange(links, stops, current, offset, PathOf(Along(w, l)), links[l].toNode, limit)
            && Cost(s, Along(w, l)) == Ahead(links, current, offset, PathOf(Along(w, l)))
            && (Cost(s, w) < FAR_AWAY <==> BeginsNear(links, current, offset, PathOf(Along(w, l))))
  {
    hide HasStopLine;
    var s := StopQuery(links, blocked, current, offset);
    WalkIsPath(s, w);
    WalkIsPath(s, Along(w, l));
    OpenIsUnstopped(s, stops, w);
    var path := PathOf(Along(w, l));
    assert path[..|path| - 1] == PathOf(w);
  }

  lemma InRangeArrives(links: map<LinkId, Link>, stops: seq<StopLine>, blocked: set<NodeId>, current: LinkId,
                       offset: real, limit: real, path: seq<LinkId>, node: NodeId)
    requires StopInRange(links, stops, current, offset, path, node, limit) && path != []
    requires forall n :: n in blocked <==> HasStopLine(stops, n)
    ensures var s := StopQuery(links, blocked, current, offset);
            var w, l := WalkOf(path[..|path| - 1]), path[|path| - 1];
            Arrival(s, limit, w, l) && (BeginsNear(links, current, offset, path) ==> Cost(s, w) < FAR_AWAY)
  {
    hide HasStopLine;
    var s := StopQuery(links, blocked, current, offset);
    var n := |path| - 1;
    var init := path[..n];
    PathIsWalk(s, init, links[path[n]].fromNode);
    PathOfWalkOf(init);
    WalkIsPath(s, WalkOf(init));
    OpenIsUnstopped(s, stops, WalkOf(init));
  }

  lemma {:induction false} MetresNonNegative(links: map<LinkId, Link>, path: seq<LinkId>)
    requires NonNegative(links)
    ensures Metres(links, path) >= 0.0
  {
    if path != [] {
      MetresNonNegative(links, path[..|path| - 1]);
    }
  }

  /** The end of the current link has a stop line: it is answered, or nothing is in range. */
  lemma AnswerAtEnd(links: map<LinkId, Link>, stops: seq<StopLine>, current: LinkId, offset: real, limit: real)
    requires current in links && NonNegative(links) && HasStopLine(stops, links[current].toNode)
    ensures var node, rest := links[current].toNode, Ahead(links, current, offset, []);
            StopsAt(stops, node) != []
            && if rest <= limit then
              StopLineAnswer(links, stops, current, offset, limit, Some((StopsAt(stops, node)[0], rest)))
            else StopLineAnswer(links, stops, current, offset, limit, None)
  {
    hide HasStopLine;
    var node, rest := links[current].toNode, Ahead(links, current, offset, []);
    FirstStopAt(stops, node);
    if rest <= limit {
      assert StopInRange(links, stops, current, offset, [], node, limit);
    } else {
      forall path, n | StopInRange(links, stops, current, offset, path, n, limit)
        ensures false
      {
        MetresNonNegative(links, path);
      }
    }
  }

  lemma ArrivalCostsBase(s: Search, limit: real, w: Walk, l: LinkId)
    requires NonNegative(s.links) && Arrival(s, limit, w, l)
    ensures s.base <= limit
  {
    CostAtLeastBase(s, Along(w, l));
  }

  /** Beyond the current link the stop-line search answers the query. */
  lemma StopsAnswer(links: map<LinkId, Link>, stops: seq<StopLine>, blocked: set<NodeId>, current: LinkId, offset: real,
                    limit: real, r: Option<(StopLine, real)>)
    requires current in links && !HasStopLine(stops, links[current].toNode)
    requires forall n :: n in blocked <==> HasStopLine(stops, n)
    requires var s := StopQuery(links, blocked, current, offset);
             && (r.Some? <==> exists w, k :: Arrival(s, limit, w, k) && Cost(s, w) < FAR_AWAY)
             && (r.Some? ==>
                   exists w, l :: Arrival(s, limit, w, l) && Cost(s, Along(w, l)) == r.value.1
                                  && l in links && StopsAt(stops, links[l].toNode) != []
                                  && r.value.0 == StopsAt(stops, links[l].toNode)[0])
    ensures StopLineAnswer(links, stops, current, offset, limit, r)
  {
    hide HasStopLine, StopInRange, BeginsNear, IsFirstStop, Arrival, Ahead, Cost;
    var s := StopQuery(links, blocked, current, offset);
    if r.Some? {
      var w, k :| Arrival(s, limit, w, k) && Cost(s, w) < FAR_AWAY;
      ArrivalInRange(links, stops, blocked, current, offset, limit, w, k);
      var path := PathOf(Along(w, k));
      assert StopInRange(links, stops, current, offset, path, links[k].toNode, limit)
             && BeginsNear(links, current, offset, path);
      var v, l :| Arrival(s, limit, v, l) && Cost(s, Along(v, l)) == r.value.1
                  && l in links && StopsAt(stops, links[l].toNode) != []
                  && r.value.0 == StopsAt(stops, links[l].toNode)[0];
      ArrivalInRange(links, stops, blocked, current, offset, limit, v, l);
      FirstStopAt(stops, links[l].toNode);
      assert StopInRange(links, stops, current, offset, PathOf(Along(v, l)), links[l].toNode, limit)
             && IsFirstStop(stops, links[l].toNode, r.value.0);
    }
    if path, node :| StopInRange(links, stops, current, offset, path, node, limit)
                     && BeginsNear(links, current, offset, path) {
      NotAtEnd(links, stops, current, offset, limit, path, node);
      InRangeArrives(links, stops, blocked, current, offset, limit, path, node);
      var w, l := WalkOf(path[..|path| - 1]), path[|path| - 1];
      assert Arrival(s, limit, w, l) && Cost(s, w) < FAR_AWAY;
    }
  }

  lemma NotAtEnd(links: map<LinkId, Link>, stops: seq<StopLine>, current: LinkId, offset: real, limit: real,
                 path: seq<LinkId>, node: NodeId)
    requires StopInRange(links, stops, current, offset, path, node, limit)
    requires !HasStopLine(stops, links[current].toNode)
    ensures path != []
  {
    hide HasStopLine;
  }
}
