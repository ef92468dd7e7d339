/** The map loader with its tables and its two queries (map/mgeo_loader.cpp). */
module MapLoader {
  import opened Wrappers
  import opened RealMath
  import opened QueueOrder
  import opened RoadGraph
  import opened RoadSearch
  import opened StopSearch
  import opened MapQueries

  /** Takes the first entry, by cost and then by name, out of the priority queue. */
  method PopTop(queue: seq<Entry>) returns (top: Entry, rest: seq<Entry>)
    requires queue != []
    ensures Popped(queue, top, rest)
  {
    var k := 0;
    NeverPrecedesItself(queue[0].link);
    for i := 1 to |queue|
      invariant 0 <= k < |queue|
      invariant forall j | 0 <= j < i :: NotLater(queue[k], queue[j])
    {
      PrecedesIsTotal(queue[i].link, queue[k].link);
      if queue[i].cost < queue[k].cost || (queue[i].cost == queue[k].cost && Precedes(queue[i].link, queue[k].link)) {
        NeverPrecedesItself(queue[i].link);
        forall j | 0 <= j < i
          ensures NotLater(queue[i], queue[j])
        {
          NotLaterIsTransitive(queue[i], queue[k], queue[j]);
        }
        k := i;
      }
    }
    top := queue[k];
    rest := queue[..k] + queue[k + 1..];
    assert queue == queue[..k] + [top] + queue[k + 1..];
  }

  /** Queues the links of `next` at `cost`, stopping short when the target is among them and in range. */
  method PushLinks(queue: seq<Entry>, cost: real, next: seq<LinkId>, target: LinkId, offset: real, limit: real)
    returns (hit: bool, pushed: seq<Entry>)
    ensures hit <==> target in next && cost + offset <= limit
    ensures !hit ==> pushed == queue + Entries(cost, next)
  {
    hit, pushed := false, queue;
    for i := 0 to |next|
      invariant pushed == queue + Entries(cost, next[..i])
      invariant cost + offset <= limit ==> target !in next[..i]
    {
      if next[i] == target {
        var distance := cost + offset;
        if distance <= limit {
          return true, pushed;
        }
      }
      pushed := pushed + [Entry(cost, next[i])];
    }
    assert next[..|next|] == next;
  }

  method QueueAll(queue: seq<Entry>, cost: real, next: seq<LinkId>) returns (pushed: seq<Entry>)
    ensures pushed == queue + Entries(cost, next)
  {
    pushed := queue;
    for i := 0 to |next|
      invariant pushed == queue + Entries(cost, next[..i])
    {
      pushed := pushed + [Entry(cost, next[i])];
    }
    assert next[..|next|] == next;
  }

  class MGeoLoader {
    var links: map<LinkId, Link>
    var outgoing: map<NodeId, seq<LinkId>>
    var stopLines: seq<StopLine>
    var stopLinesByNode: map<NodeId, seq<StopLine>>

    constructor ()
      ensures Valid() && links == map[] && stopLines == []
    {
      links, outgoing, stopLines, stopLinesByNode := map[], map[], [], map[];
    }

    /** While there are links, the other tables fit them. A load that fails while it reads the stop lines leaves
        those tables behind without links, so that every query comes back empty. */
    ghost predicate Valid()
      reads this
    {
      NonNegative(links) && (links != map[] ==> Indexed())
    }

    ghost predicate Indexed()
      reads this
    {
      && OutgoingOf(links, links.Keys, outgoing)
      && (forall n :: n in stopLinesByNode <==> StopsAt(stopLines, n) != [])
      && (forall n | n in stopLinesByNode :: stopLinesByNode[n] == StopsAt(stopLines, n))
    }

    /** Fills the tables from the link and stop-line records. No records stand for files that cannot be read or hold
        no arrays, a missing stop line for a record whose point cannot be read. */
    method Load(hypot: (real, real) -> real, records: Option<(seq<LinkRecord>, seq<Option<StopLine>>)>)
      returns (ok: bool)
      requires Distances(hypot)
      modifies this
      ensures Valid()
      ensures records.Some? && (forall i | 0 <= i < |records.value.1| :: records.value.1[i].Some?) ==>
                && links == LinkTable(LinksOf(hypot, records.value.0)) && stopLines == Readable(records.value.1)
                && Indexed()
                && ok == (links != map[])
      ensures records.None? || (exists i :: 0 <= i < |records.value.1| && records.value.1[i].None?) ==>
                links == map[] && stopLines == [] && !ok
      // a load that fails at a stop line leaves behind what it had indexed
      ensures records.Some? ==>
                var table, stops := LinkTable(LinksOf(hypot, records.value.0)), Readable(records.value.1);
                && OutgoingOf(table, table.Keys, outgoing)
                && forall n :: if n in stopLinesByNode then stopLinesByNode[n] == StopsAt(stops, n) != []
                               else StopsAt(stops, n) == []
      ensures records.None? ==> outgoing == map[] && stopLinesByNode == map[]
    {
      links, outgoing, stopLinesByNode, stopLines := map[], map[], map[], [];
      if records.None? {
        return false;
      }
      StoreLinks(hypot, records.value.0);
      IndexLinks();
      var complete := AddStops(records.value.1);
      if !complete {
        links, stopLines := map[], [];
        return false;
      }
      ok := links != map[];
    }

    /** Stores the links that have a name. */
    method StoreLinks(hypot: (real, real) -> real, records: seq<LinkRecord>)
      requires Distances(hypot) && links == map[]
      modifies this`links
      ensures links == LinkTable(LinksOf(hypot, records)) && NonNegative(links)
    {
      hide LinkOf;
      ghost var parsed := LinksOf(hypot, records);
      for i := 0 to |records|
        invariant links == LinkTable(parsed[..i]) && NonNegative(links)
      {
        assert parsed[..i + 1][..i] == parsed[..i];
        var link := ReadLink(hypot, records[i]);
        if link.id != "" {
          links := links[link.id := link];
        }
      }
      assert parsed[..|parsed|] == parsed;
    }

    /** Stores the stop lines, and groups them by node, up to the first that cannot be read. */
    method AddStops(parsed: seq<Option<StopLine>>) returns (complete: bool)
      requires stopLines == [] && stopLinesByNode == map[]
      modifies this`stopLines, this`stopLinesByNode
      ensures complete <==> forall i | 0 <= i < |parsed| :: parsed[i].Some?
      ensures stopLines == Readable(parsed)
      ensures forall n :: n in stopLinesByNode <==> StopsAt(stopLines, n) != []
      ensures forall n | n in stopLinesByNode :: stopLinesByNode[n] == StopsAt(stopLines, n)
    {
      ghost var all := Readable(parsed);
      for i := 0 to |parsed|
        invariant i <= |all| && stopLines == all[..i]
        invariant forall n :: n in stopLinesByNode <==> StopsAt(stopLines, n) != []
        invariant forall n | n in stopLinesByNode :: stopLinesByNode[n] == StopsAt(stopLines, n)
      {
        if parsed[i].None? {
          assert |all| == i;
          return false;
        }
        var stop := parsed[i].value;
        ghost var before := stopLines;
        stopLines := stopLines + [stop];
        assert stopLines[..i] == before && all[..i + 1] == stopLines;
        var node := stop.nodeId;
        var list := if node in stopLinesByNode then stopLinesByNode[node] else [];
        stopLinesByNode := stopLinesByNode[node := list + [stop]];
      }
      complete := true;
    }

    /** Groups the stored links by the node they leave; the order of the visit is unspecified. */
    method IndexLinks()
      requires outgoing == map[]
      modifies this`outgoing
      ensures OutgoingOf(links, links.Keys, outgoing)
    {
      var pending := links.Keys;
      while pending != {}
        invariant pending <= links.Keys
        invariant OutgoingOf(links, links.Keys - pending, outgoing)
      {
        var id :| id in pending;
        var node := links[id].fromNode;
        var list := if node in outgoing then outgoing[node] else [];
        OutgoingGrows(links, links.Keys - pending, outgoing, id);
        assert links.Keys - (pending - {id}) == links.Keys - pending + {id};
        outgoing := outgoing[node := list + [id]];
        pending := pending - {id};
      }
      assert links.Keys - pending == links.Keys;
    }

    method FindForwardDistance(fromId: LinkId, fromS: real, toId: LinkId, toS: real, maxDistance: real)
      returns (r: Option<real>)
      requires Valid()
      ensures fromId !in links || toId !in links ==> r == None
      ensures fromId in links && fromId == toId ==>
                r == if 0.0 <= toS - fromS <= maxDistance then Some(toS - fromS) else None
      ensures fromId in links && toId in links && fromId != toId ==>
                && ForwardOutcome(QuerySearch(links, fromId, fromS), toId, toS, maxDistance, r)
                // what that comes to: a distance exactly when a path is in range, and the length of such a path
                && DistanceAnswer(links, fromId, fromS, toId, toS, maxDistance, r)
    {
      hide DistanceAnswer, ForwardOutcome;
      if fromId !in links || toId !in links {
        return None;
      }
      if fromId == toId {
        var distance := toS - fromS;
        if distance < 0.0 || distance > maxDistance {
          return None;
        }
        return Some(distance);
      }
      var remaining := Max(0.0, links[fromId].length - fromS);
      r := SearchForward(QuerySearch(links, fromId, fromS), remaining, links[fromId].toNode, toId, toS, maxDistance);
      ForwardAnswers(links, fromId, fromS, toId, toS, maxDistance, r);
    }

    /** The distance search from the end `node` of the current link, which lies `remaining` ahead. */
    method SearchForward(ghost s: Search, remaining: real, node: NodeId, toId: LinkId, toS: real, maxDistance: real)
      returns (r: Option<real>)
      requires Valid() && toId in links
      requires s == Search(links, node, {}, remaining) && remaining >= 0.0
      ensures ForwardOutcome(s, toId, toS, maxDistance, r)
    {
      hide Searching, IsLabel;
      if remaining > maxDistance {
        NothingWithin(s, toId, toS, maxDistance);
        return None;
      }
      if node !in outgoing {
        NothingWithin(s, toId, toS, maxDistance);
        return None;
      }
      var first := outgoing[node];
      var hit, queue := PushLinks([], remaining, first, toId, toS, maxDistance);
      if hit {
        assert WithinRange(s, Here, toId, toS, maxDistance);
        return Some(remaining + toS);
      }
      StartKeeps(s, maxDistance, maxDistance + 1.0, first);
      assert queue == Entries(remaining, first);
      r := SearchTarget(s, queue, toId, toS, maxDistance);
    }

    /** The main loop of the distance search, entered with the links that leave the current link queued. */
    method SearchTarget(ghost s: Search, start: seq<Entry>, target: LinkId, offset: real, limit: real)
      returns (r: Option<real>)
      requires Valid() && s.links == links && s.blocked == {} && target in links
      requires Searching(s, start, map[], limit, limit + 1.0)
      requires !WithinRange(s, Here, target, offset, limit)
      ensures ForwardOutcome(s, target, offset, limit, r)
    {
      hide Searching, IsLabel, ForwardOutcome, NonNegative, NotAfter, NotLater, WithinRange, Leads, Earliest;
      var queue := start;
      var best: map<LinkId, real> := map[];
      ghost var unlabelled := links.Keys;
      while queue != []
        invariant Searching(s, queue, best, limit, limit + 1.0)
        invariant NoneEntered(s, best, target, offset, limit)
        invariant unlabelled == links.Keys - best.Keys
        decreases unlabelled, |queue|
      {
        var top, rest := PopTop(queue);
        if top.cost > limit {
          DropKeeps(s, queue, best, limit, limit + 1.0, top, rest);
          queue := rest;
          continue;
        }
        FirstIsLabel(s, queue, best, limit, limit + 1.0, top);
        if top.link in best && best[top.link] <= top.cost {
          DropKeeps(s, queue, best, limit, limit + 1.0, top, rest);
          queue := rest;
          continue;
        }
        assert top.link !in best;  // no link is expanded twice
        ghost var labelled := best;
        FewerUnlabelled(links, best, top.link, top.cost);
        best, unlabelled := best[top.link := top.cost], unlabelled - {top.link};
        var link := links[top.link];
        var costToEnd := top.cost + link.length;
        if costToEnd > limit || link.toNode !in outgoing {
          SettleKeeps(s, queue, labelled, limit, limit + 1.0, top, rest);
          queue := rest;
          continue;
        }
        var next := outgoing[link.toNode];
        var hit, pushed := PushLinks(rest, costToEnd, next, target, offset, limit);
        if hit {
          EnteredFirst(s, queue, labelled, target, offset, limit, top);
          return Some(costToEnd + offset);
        }
        ExpandKeeps(s, queue, labelled, limit, limit + 1.0, top, rest, next);
        queue := pushed;
      }
      DryMeansNone(s, best, target, offset, limit);
      r := None;
    }

    predicate HasStop(node: NodeId)
      reads this
    {
      node in stopLinesByNode && stopLinesByNode[node] != []
    }

    function StopNodes(): set<NodeId>
      reads this
    {
      set n | n in stopLinesByNode && stopLinesByNode[n] != []
    }

    /** An answer exists exactly when some walk within the limit arrives at a stop line, and is then the first
        stop line at the end of a link, at a distance that StopOutcome describes. */
    ghost predicate StopAnswer(s: Search, limit: real, r: Option<(StopLine, real)>)
      reads this
    {
      && (r.Some? <==> exists w, k :: Arrival(s, limit, w, k) && Cost(s, w) < FAR_AWAY)
      && (r.Some? ==>
            exists last, near, cl, cn ::
              StopAt(last, r.value.0) && StopOutcome(s, limit, r.value.1, last, near, cl, cn))
    }

    /** The first stop line at the end of a link. */
    ghost predicate StopAt(l: LinkId, stop: StopLine)
      reads this
    {
      l in links && StopsAt(stopLines, links[l].toNode) != [] && stop == StopsAt(stopLines, links[l].toNode)[0]
    }

    method FindNextStopLine(current: LinkId, currentS: real, maxDistance: real)
      returns (r: Option<(StopLine, real)>)
      requires Valid()
      ensures current !in links ==> r == None
      ensures current in links ==>
                var s := StopQuery(links, StopNodes(), current, currentS);
                if HasStop(s.start) && s.base <= maxDistance then
                  r == Some((StopsAt(stopLines, s.start)[0], s.base))
                else
                  StopAnswer(s, maxDistance, r)
      // what that comes to: a stop line exactly when a path meets one in range, and the length of such a path
      ensures current in links ==> StopLineAnswer(links, stopLines, current, currentS, maxDistance, r)
    {
      hide StopAnswer, StopLineAnswer, StopsAt;
      if current !in links {
        return None;
      }
      var remaining := Max(0.0, links[current].length - currentS);
      var node := links[current].toNode;
      StopNodesAreThose();
      if HasStop(node) && remaining <= maxDistance {
        AnswerAtEnd(links, stopLines, current, currentS, maxDistance);
        return Some((stopLinesByNode[node][0], remaining));
      }
      r := SearchAhead(StopQuery(links, StopNodes(), current, currentS), remaining, node, maxDistance);
      AnswerBeyond(current, currentS, maxDistance, r);
    }

    lemma StopNodesAreThose()
      requires Valid() && links != map[]
      ensures forall n :: n in StopNodes() <==> HasStopLine(stopLines, n)
      ensures forall n :: HasStop(n) <==> HasStopLine(stopLines, n)
    {
      forall n
        ensures StopsAt(stopLines, n) != [] <==> HasStopLine(stopLines, n)
      {
        FirstStopAt(stopLines, n);
      }
    }

    /** What the search beyond the current link finds answers the query. */
    lemma AnswerBeyond(current: LinkId, offset: real, limit: real, r: Option<(StopLine, real)>)
      requires Valid() && current in links
      requires var s := StopQuery(links, StopNodes(), current, offset);
               !(HasStop(s.start) && s.base <= limit) && StopAnswer(s, limit, r)
      ensures StopLineAnswer(links, stopLines, current, offset, limit, r)
    {
      hide StopOutcome, Arrival, HasStopLine, StopLineAnswer, StopsAt;
      var s := StopQuery(links, StopNodes(), current, offset);
      StopNodesAreThose();
      if HasStopLine(stopLines, s.start) {
        AnswerAtEnd(links, stopLines, current, offset, limit);
        if w, k :| Arrival(s, limit, w, k) && Cost(s, w) < FAR_AWAY {
          ArrivalCostsBase(s, limit, w, k);
        }
      } else {
        if r.Some? {
          var last, near, cl, cn :| StopAt(last, r.value.0) && StopOutcome(s, limit, r.value.1, last, near, cl, cn);
          AnswerIsAWalk(s, limit, r.value.1, last, near, cl, cn);
        }
        StopsAnswer(links, stopLines, StopNodes(), current, offset, limit, r);
      }
    }

    /** The search beyond the current link, whose end `node` lies `remaining` ahead. */
    method SearchAhead(ghost s: Search, remaining: real, node: NodeId, maxDistance: real)
      returns (r: Option<(StopLine, real)>)
      requires Valid() && links != map[]
      requires s == Search(links, node, StopNodes(), remaining) && remaining >= 0.0
      requires !(HasStop(node) && remaining <= maxDistance)
      ensures StopAnswer(s, maxDistance, r)
    {
      hide Searching, IsLabel, NonNegative, StopOutcome, Arrival;
      if node !in outgoing {
        NoArrival(s, maxDistance);
        return None;
      }
      var queue := QueueAll([], remaining, outgoing[node]);
      ghost var big := Max(FAR_AWAY, maxDistance + 1.0);
      StartKeeps(s, maxDistance, big, outgoing[node]);
      assert queue == Entries(remaining, outgoing[node]);
      r := SearchStops(s, queue, maxDistance, big);
    }

    /** Queues what leaves the end of the freshly labelled link `top.link`. */
    method Relax(ghost s: Search, ghost queue: seq<Entry>, ghost done: map<LinkId, real>, ghost limit: real,
                 ghost cut: real,
                 top: Entry, rest: seq<Entry>)
      returns (pushed: seq<Entry>)
      requires Valid() && s.links == links && top.link in links
      requires Searching(s, queue, done, limit, cut) && Popped(queue, top, rest)
      requires top.cost <= limit && top.cost < cut && top.link !in done && links[top.link].toNode !in s.blocked
      ensures Searching(s, pushed, done[top.link := top.cost], limit, cut)
    {
      hide Searching, Popped;
      var link := links[top.link];
      if link.toNode !in outgoing {
        SettleKeeps(s, queue, done, limit, cut, top, rest);
        return rest;
      }
      ExpandKeeps(s, queue, done, limit, cut, top, rest, outgoing[link.toNode]);
      pushed := QueueAll(rest, top.cost + link.length, outgoing[link.toNode]);
    }

    /** The answer so far: none, or the stop line at the end of the last stop link that was labelled. */
    ghost predicate AnswerSoFar(found: bool, distance: real, stop: Option<StopLine>, last: LinkId)
      reads this
    {
      if found then
        last in links && StopsAt(stopLines, links[last].toNode) != []
            && stop == Some(StopsAt(stopLines, links[last].toNode)[0])
      else
        distance == FAR_AWAY
    }

    /** One expansion of the stop-line search: labels `top.link`, and either remembers the stop line at
        its end, overwriting the one remembered before, or queues what leaves its end. */
    method Visit(ghost s: Search, ghost queue: seq<Entry>, ghost done: map<LinkId, real>, limit: real, ghost cut: real,
                 top: Entry, rest: seq<Entry>, found: bool, distance: real, stop: Option<StopLine>,
                 ghost last: LinkId, ghost near: LinkId)
      returns (queue': seq<Entry>, found': bool, distance': real, stop': Option<StopLine>, ghost last': LinkId,
               ghost near': LinkId)
      requires Valid() && s.links == links && s.blocked == StopNodes() && top.link in links
      requires Searching(s, queue, done, limit, cut) && Popped(queue, top, rest)
      requires top.cost <= limit && top.cost < distance <= cut && top.link !in done
      requires Leads(s, top.link, top.link) && forall k | k in done :: NotAfter(s, done[k], k, top.cost, top.link)
      requires Progress(s, done, limit, found, distance, last, near) && AnswerSoFar(found, distance, stop, last)
      ensures Searching(s, queue', done[top.link := top.cost], limit, cut)
      ensures Progress(s, done[top.link := top.cost], limit, found', distance', last', near')
      ensures AnswerSoFar(found', distance', stop', last')
      ensures distance' == distance || distance' <= limit
    {
      hide Searching, Popped, Progress;
      queue', found', distance', stop', last', near' := rest, found, distance, stop, last, near;
      var link := links[top.link];
      var costToEnd := top.cost + link.length;
      if costToEnd > limit {
        SettleKeeps(s, queue, done, limit, cut, top, rest);
        SettleOther(s, done, limit, found, distance, last, near, top.link, top.cost);
      } else if HasStop(link.toNode) {
        SettleKeeps(s, queue, done, limit, cut, top, rest);
        SettleStop(s, done, limit, found, distance, last, near, top.link, top.cost);
        last', near' := top.link, Nearer(s, done, found, near, top.link, top.cost);
        found', distance', stop' := true, costToEnd, Some(stopLinesByNode[link.toNode][0]);
      } else {
        SettleOther(s, done, limit, found, distance, last, near, top.link, top.cost);
        queue' := Relax(s, queue, done, limit, cut, top, rest);
      }
    }

    /** The main loop of the stop-line search. The two tests that drop an entry are those of the source;
        `cut` falls from `big` to the best distance the first time an entry is dropped for being no
        nearer, after which everything that is left is dropped. */
    method SearchStops(ghost s: Search, start: seq<Entry>, limit: real, ghost big: real)
      returns (r: Option<(StopLine, real)>)
      requires Valid() && s.links == links && s.blocked == StopNodes()
      requires Searching(s, start, map[], limit, big) && big >= FAR_AWAY && big > limit
      ensures StopAnswer(s, limit, r)
    {
      hide Searching, Progress, StopOutcome, Arrival, Cost, NonNegative, OutgoingOf, StopsAt, Leads, Earliest, NotAfter,
          IsLabel;
      var queue := start;
      var best: map<LinkId, real> := map[];
      var found, distance, stop := false, FAR_AWAY, None;
      ghost var cut, unlabelled := big, links.Keys;
      ghost var last: LinkId, near: LinkId := "", "";
      NothingSoFar(s, limit);
      while queue != []
        invariant Searching(s, queue, best, limit, cut) && Progress(s, best, limit, found, distance, last, near)
        invariant distance <= cut && (cut == big || (cut == distance && forall e | e in queue :: cut <= e.cost))
        invariant AnswerSoFar(found, distance, stop, last)
        invariant unlabelled == links.Keys - best.Keys
        decreases unlabelled, |queue|
      {
        var top, rest := PopTop(queue);
        if top.cost > limit || top.cost >= distance {
          if top.cost <= limit {
            CutKeeps(s, queue, best, limit, cut, distance);
            cut := distance;
          }
          DropKeeps(s, queue, best, limit, cut, top, rest);
          queue := rest;
          continue;
        }
        FirstIsLabel(s, queue, best, limit, cut, top);
        if top.link in best && best[top.link] <= top.cost {
          DropKeeps(s, queue, best, limit, cut, top, rest);
          queue := rest;
          continue;
        }
        assert top.link !in best;  // no link is expanded twice
        FewerUnlabelled(links, best, top.link, top.cost);
        queue, found, distance, stop, last, near :=
          Visit(s, queue, best, limit, cut, top, rest, found, distance, stop, last, near);
        best, unlabelled := best[top.link := top.cost], unlabelled - {top.link};
      }
      if !found {
        FinishEmpty(s, best, limit, cut, distance, last, near);
        return None;
      }
      FinishFound(s, best, limit, cut, distance, last, near);
      r := Some((stop.value, distance));
      assert StopAt(last, stop.value) && StopOutcome(s, limit, distance, last, near, best[last], best[near]);
    }

    // ------------------------------------------------------------ a variant of the source

    /** One expansion with the comparison that the source leaves out: a stop line is remembered only when it lies
        nearer than the one remembered before. */
    method VisitGuarded(ghost s: Search, ghost queue: seq<Entry>, ghost done: map<LinkId, real>, limit: real,
                        ghost cut: real,
                        top: Entry, rest: seq<Entry>, found: bool, distance: real, stop: Option<StopLine>,
                            ghost last: LinkId)
      returns (queue': seq<Entry>, found': bool, distance': real, stop': Option<StopLine>, ghost last': LinkId)
      requires Valid() && s.links == links && s.blocked == StopNodes() && top.link in links
      requires Searching(s, queue, done, limit, cut) && Popped(queue, top, rest)
      requires top.cost <= limit && top.cost < cut && top.link !in done
      requires Guarded(s, done, limit, found, distance, last) && AnswerSoFar(found, distance, stop, last)
      ensures Searching(s, queue', done[top.link := top.cost], limit, cut)
      ensures Guarded(s, done[top.link := top.cost], limit, found', distance', last')
      ensures AnswerSoFar(found', distance', stop', last') && distance' <= distance
    {
      hide Searching, Popped, Guarded;
      queue', found', distance', stop', last' := rest, found, distance, stop, last;
      var link := links[top.link];
      var costToEnd := top.cost + link.length;
      if costToEnd > limit {
        SettleKeeps(s, queue, done, limit, cut, top, rest);
        GuardedOther(s, done, limit, found, distance, last, top.link, top.cost);
      } else if HasStop(link.toNode) {
        SettleKeeps(s, queue, done, limit, cut, top, rest);
        GuardedSettle(s, done, limit, found, distance, last, top.link, top.cost);
        if costToEnd < distance {
          found', distance', stop', last' := true, costToEnd, Some(stopLinesByNode[link.toNode][0]), top.link;
        }
      } else {
        GuardedOther(s, done, limit, found, distance, last, top.link, top.cost);
        queue' := Relax(s, queue, done, limit, cut, top, rest);
      }
    }

    /** The stop-line loop with that comparison: on every map its answer is the nearest stop line, and it answers
        whenever one lies in range nearer than the initial best distance. */
    method SearchStopsGuarded(ghost s: Search, start: seq<Entry>, limit: real, ghost big: real)
      returns (r: Option<(StopLine, real)>)
      requires Valid() && s.links == links && s.blocked == StopNodes()
      requires Searching(s, start, map[], limit, big) && big >= FAR_AWAY && big > limit
      ensures r.Some? ==>
                && IsNearest(s, limit, r.value.1)
                && exists w, l :: Arrival(s, limit, w, l) && Cost(s, Along(w, l)) == r.value.1 && StopAt(l, r.value.0)
      ensures r.Some? <==> exists w, l :: Arrival(s, limit, w, l) && Cost(s, Along(w, l)) < FAR_AWAY
    {
      hide Searching, Guarded, IsNearest, Arrival, Cost, NonNegative, OutgoingOf, StopsAt, Leads, Earliest, NotAfter,
          IsLabel;
      var queue := start;
      var best: map<LinkId, real> := map[];
      var found, distance, stop := false, FAR_AWAY, None;
      ghost var cut, unlabelled, last: LinkId := big, links.Keys, "";
      GuardedStart(s, limit);
      while queue != []
        invariant Searching(s, queue, best, limit, cut) && Guarded(s, best, limit, found, distance, last)
        invariant distance <= cut && (cut == big || forall e | e in queue :: distance <= e.cost)
        invariant AnswerSoFar(found, distance, stop, last)
        invariant unlabelled == links.Keys - best.Keys
        decreases unlabelled, |queue|
      {
        var top, rest := PopTop(queue);
        if top.cost > limit || top.cost >= distance {
          if top.cost <= limit {
            CutKeeps(s, queue, best, limit, cut, distance);
            cut := distance;
          }
          DropKeeps(s, queue, best, limit, cut, top, rest);
          queue := rest;
          continue;
        }
        FirstIsLabel(s, queue, best, limit, cut, top);
        if top.link in best && best[top.link] <= top.cost {
          DropKeeps(s, queue, best, limit, cut, top, rest);
          queue := rest;
          continue;
        }
        FewerUnlabelled(links, best, top.link, top.cost);
        queue, found, distance, stop, last :=
          VisitGuarded(s, queue, best, limit, cut, top, rest, found, distance, stop, last);
        best, unlabelled := best[top.link := top.cost], unlabelled - {top.link};
      }
      GuardedIsNearest(s, best, limit, cut, found, distance, last);
      GuardedAnswers(s, best, limit, found, distance, last);
      if !found {
        return None;
      }
      r := Some((stop.value, distance));
    }
  }
}
