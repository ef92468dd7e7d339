/** MGeoLoader: the map tables and the two searches over them (map/mgeo_loader.cpp). */
module RoadSearch {
  import opened Wrappers
  import opened RealMath
  import opened QueueOrder
  import opened RoadGraph

  /** `valid` says that the record had a point. */
  datatype StopLine = StopLine(nodeId: NodeId, trafficLightId: string, x: real, y: real, valid: bool)

  /** Initial value of the best stop distance; the first stop line found lies on a link that begins nearer. */
  const FAR_AWAY := 1000000000.0

  // ---------------------------------------------------------------- tables built by load

  /** A link as it is read; points that cannot be read are missing. */
  datatype LinkRecord = LinkRecord(id: LinkId, fromNode: NodeId, toNode: NodeId, points: seq<Option<(real, real)>>)

  /** The points that can be read. */
  function Centreline(points: seq<Option<(real, real)>>): seq<(real, real)> {
    if points == [] then []
    else
      var n := |points| - 1;
      Centreline(points[..n]) + if points[n].Some? then [points[n].value] else []
  }

  ghost predicate Distances(hypot: (real, real) -> real) { forall x, y :: hypot(x, y) >= 0.0 }

  function LineLength(hypot: (real, real) -> real, line: seq<(real, real)>): real {
    if |line| < 2 then 0.0
    else
      var n := |line| - 1;
      LineLength(hypot, line[..n]) + hypot(line[n].0 - line[n - 1].0, line[n].1 - line[n - 1].1)
  }

  lemma {:induction false} LineLengthNonNegative(hypot: (real, real) -> real, line: seq<(real, real)>)
    requires Distances(hypot)
    ensures LineLength(hypot, line) >= 0.0
  {
    if |line| >= 2 {
      LineLengthNonNegative(hypot, line[..|line| - 1]);
    }
  }

  ghost predicate Triangle(hypot: (real, real) -> real) {
    hypot(0.0, 0.0) == 0.0 && forall a, b, c, d :: NoDetour(hypot, a, b, c, d)
  }

  ghost predicate NoDetour(hypot: (real, real) -> real, a: real, b: real, c: real, d: real) {
    hypot(a + c, b + d) <= hypot(a, b) + hypot(c, d)
  }

  /** A line is no shorter than the straight way between its ends. */
  lemma {:induction false} NotShorterThanStraight(hypot: (real, real) -> real, line: seq<(real, real)>)
    requires Triangle(hypot) && line != []
    ensures hypot(line[|line| - 1].0 - line[0].0, line[|line| - 1].1 - line[0].1) <= LineLength(hypot, line)
  {
    if |line| >= 2 {
      var n := |line| - 1;
      NotShorterThanStraight(hypot, line[..n]);
      var a, b := line[n - 1].0 - line[0].0, line[n - 1].1 - line[0].1;
      var c, d := line[n].0 - line[n - 1].0, line[n].1 - line[n - 1].1;
      assert NoDetour(hypot, a, b, c, d);
      assert a + c == line[n].0 - line[0].0 && b + d == line[n].1 - line[0].1;
    }
  }

  /** The same line elsewhere. */
  function Shifted(line: seq<(real, real)>, dx: real, dy: real): (r: seq<(real, real)>)
    ensures |r| == |line|
  {
    seq(|line|, i requires 0 <= i < |line| => (line[i].0 + dx, line[i].1 + dy))
  }

  /** The length of a line does not depend on where it lies. */
  lemma {:induction false} LengthElsewhere(hypot: (real, real) -> real, line: seq<(real, real)>, dx: real, dy: real)
    ensures LineLength(hypot, Shifted(line, dx, dy)) == LineLength(hypot, line)
  {
    if |line| >= 2 {
      var n := |line| - 1;
      LengthElsewhere(hypot, line[..n], dx, dy);
      assert Shifted(line, dx, dy)[..n] == Shifted(line[..n], dx, dy);
      assert Shifted(line, dx, dy)[n].0 - Shifted(line, dx, dy)[n - 1].0 == line[n].0 - line[n - 1].0;
      assert Shifted(line, dx, dy)[n].1 - Shifted(line, dx, dy)[n - 1].1 == line[n].1 - line[n - 1].1;
    }
  }

  function LinkOf(hypot: (real, real) -> real, r: LinkRecord): Link {
    Link(r.id, r.fromNode, r.toNode, LineLength(hypot, Centreline(r.points)))
  }

  function LinksOf(hypot: (real, real) -> real, records: seq<LinkRecord>): (r: seq<Link>)
    ensures |r| == |records|
  {
    seq(|records|, i requires 0 <= i < |records| => LinkOf(hypot, records[i]))
  }

  method ReadLink(hypot: (real, real) -> real, r: LinkRecord) returns (link: Link)
    requires Distances(hypot)
    ensures link == LinkOf(hypot, r) && link.length >= 0.0
  {
    var line: seq<(real, real)> := [];
    for i := 0 to |r.points|
      invariant line == Centreline(r.points[..i])
    {
      assert r.points[..i + 1][..i] == r.points[..i];
      if r.points[i].Some? {
        line := line + [r.points[i].value];
      }
    }
    assert r.points[..|r.points|] == r.points;
    var length := 0.0;
    var i := 1;
    while i < |line|
      invariant i >= 1 && (i <= |line| || line == [])
      invariant length == LineLength(hypot, if i <= |line| then line[..i] else line)
    {
      assert line[..i + 1][..i] == line[..i];
      length := length + hypot(line[i].0 - line[i - 1].0, line[i].1 - line[i - 1].1);
      i := i + 1;
    }
    assert line[..|line|] == line;
    LineLengthNonNegative(hypot, line);
    link := Link(r.id, r.fromNode, r.toNode, length);
  }

  /** Later entries of a repeated id win; links without an id are not stored. */
  function LinkTable(parsed: seq<Link>): (t: map<LinkId, Link>)
    ensures forall id | id in t :: id != "" && t[id].id == id && t[id] in parsed
  {
    if parsed == [] then map[]
    else
      var n := |parsed| - 1;
      var t := LinkTable(parsed[..n]);
      if parsed[n].id == "" then t else t[parsed[n].id := parsed[n]]
  }

  function StopsAt(stops: seq<StopLine>, node: NodeId): seq<StopLine> {
    if stops == [] then []
    else
      var n := |stops| - 1;
      StopsAt(stops[..n], node) + if stops[n].nodeId == node then [stops[n]] else []
  }

  /** The records up to the first that cannot be read. */
  function Readable(stops: seq<Option<StopLine>>): (r: seq<StopLine>)
    ensures |r| <= |stops| && (forall i | 0 <= i < |r| :: stops[i] == Some(r[i]))
            && (|r| < |stops| ==> stops[|r|].None?)
  {
    if stops == [] || stops[0].None? then [] else [stops[0].value] + Readable(stops[1..])
  }

  ghost predicate NoRepeats(ids: seq<LinkId>) {
    forall i, j | 0 <= i < j < |ids| :: ids[i] != ids[j]
  }

  /** `outgoing` lists, per node and without repetition, exactly the links of `ids` that leave it. */
  ghost predicate OutgoingOf(links: map<LinkId, Link>, ids: set<LinkId>, outgoing: map<NodeId, seq<LinkId>>)
    requires ids <= links.Keys
  {
    && (forall n | n in outgoing :: outgoing[n] != [] && NoRepeats(outgoing[n]))
    && (forall n, id | n in outgoing && id in outgoing[n] :: id in ids && links[id].fromNode == n)
    && (forall id | id in ids :: links[id].fromNode in outgoing && id in outgoing[links[id].fromNode])
  }

  lemma OutgoingGrows(links: map<LinkId, Link>, ids: set<LinkId>, outgoing: map<NodeId, seq<LinkId>>, id: LinkId)
    requires ids <= links.Keys && id in links && id !in ids && OutgoingOf(links, ids, outgoing)
    ensures var node := links[id].fromNode;
            var list := if node in outgoing then outgoing[node] else [];
            OutgoingOf(links, ids + {id}, outgoing[node := list + [id]])
  {
    var node := links[id].fromNode;
    var list := if node in outgoing then outgoing[node] else [];
    var outgoing' := outgoing[node := list + [id]];
    assert id in outgoing'[node];
    assert forall i | i in list :: i in outgoing'[node];
    assert forall i | i in outgoing'[node] :: i in list || i == id;
    assert id !in list;
  }

  // ---------------------------------------------------------------- what the distance search returns

  ghost predicate Enters(s: Search, l: LinkId, target: LinkId) {
    l in s.links && target in s.links && s.links[l].toNode == s.links[target].fromNode
  }

  /** A walk to the target that is within range before its offset on the target is added, and after. */
  ghost predicate WithinRange(s: Search, w: Walk, target: LinkId, offset: real, limit: real) {
    Reaches(s, w, target) && Cost(s, w) <= limit && Cost(s, w) + offset <= limit
  }

  /** `k`, labelled `c`, leads into the target's start node and brings the target into range. */
  ghost predicate Entering(s: Search, target: LinkId, offset: real, limit: real, k: LinkId, c: real) {
    && Enters(s, k, target) && IsLabel(s, k, c)
    && c + s.links[k].length <= limit && c + s.links[k].length + offset <= limit
  }

  /** `k` is labelled before every other such link. */
  ghost predicate FirstEntry(s: Search, target: LinkId, offset: real, limit: real, k: LinkId, c: real) {
    && Entering(s, target, offset, limit, k, c)
    && forall l, cl | Entering(s, target, offset, limit, l, cl) :: NotAfter(s, c, k, cl, l)
  }

  /** The search that a distance query from offset `offset` on link `from` runs. */
  function QuerySearch(links: map<LinkId, Link>, from: LinkId, offset: real): Search
    requires from in links
  {
    Search(links, links[from].toNode, {}, Max(0.0, links[from].length - offset))
  }

  ghost predicate ForwardOutcome(s: Search, target: LinkId, offset: real, limit: real, r: Option<real>) {
    match r
    case None => forall w :: !WithinRange(s, w, target, offset, limit)
    case Some(d) =>
      if WithinRange(s, Here, target, offset, limit) then d == s.base + offset
      else exists k, c :: FirstEntry(s, target, offset, limit, k, c) && d == c + s.links[k].length + offset
  }

  /** No labelled link into the target's start node brings the target into range. */
  ghost predicate NoneEntered(s: Search, done: map<LinkId, real>, target: LinkId, offset: real, limit: real) {
    && !WithinRange(s, Here, target, offset, limit)
    && (forall l | l in done && Enters(s, l, target) && done[l] + s.links[l].length <= limit ::
          done[l] + s.links[l].length + offset > limit)
  }

  lemma NothingWithin(s: Search, target: LinkId, offset: real, limit: real)
    requires NonNegative(s.links)
    requires s.base > limit || forall l | l in s.links :: s.links[l].fromNode != s.start
    ensures ForwardOutcome(s, target, offset, limit, None)
  {
    forall w
      ensures !WithinRange(s, w, target, offset, limit)
    {
      CostAtLeastBase(s, w);
      if IsWalk(s, w) && w.Along? {
        FirstLinkLeavesStart(s, w);
      }
    }
  }

  lemma {:induction false} FirstLinkLeavesStart(s: Search, w: Walk)
    requires IsWalk(s, w) && w.Along?
    ensures exists l :: l in s.links && s.links[l].fromNode == s.start
  {
    if w.prefix.Along? {
      FirstLinkLeavesStart(s, w.prefix);
    } else {
      assert w.link in s.links;
    }
  }

  lemma DryMeansNone(s: Search, done: map<LinkId, real>, target: LinkId, offset: real, limit: real)
    requires Searching(s, [], done, limit, limit + 1.0) && s.blocked == {} && target in s.links
    requires NoneEntered(s, done, target, offset, limit)
    ensures ForwardOutcome(s, target, offset, limit, None)
  {
    forall w
      ensures !WithinRange(s, w, target, offset, limit)
    {
      if WithinRange(s, w, target, offset, limit) && w.Along? {
        var Along(p, l) := w;
        DryQueueIsComplete(s, done, limit, limit + 1.0, p, l);
        assert Enters(s, l, target);
      }
    }
  }

  lemma EnteredFirst(s: Search, queue: seq<Entry>, done: map<LinkId, real>, target: LinkId, offset: real, limit: real,
                     top: Entry)
    requires Searching(s, queue, done, limit, limit + 1.0) && s.blocked == {}
    requires NoneEntered(s, done, target, offset, limit) && IsFirst(queue, top)
    requires top.cost <= limit && top.link !in done && Enters(s, top.link, target)
    requires top.cost + s.links[top.link].length <= limit && top.cost + s.links[top.link].length + offset <= limit
    ensures ForwardOutcome(s, target, offset, limit, Some(top.cost + s.links[top.link].length + offset))
  {
    hide Searching, Leads, NotAfter, IsLabel, Earliest;
    FirstIsLabel(s, queue, done, limit, limit + 1.0, top);
    forall l, cl | Entering(s, target, offset, limit, l, cl)
      ensures NotAfter(s, top.cost, top.link, cl, l)
    {
      EntryNotLabelled(s, queue, done, target, offset, limit, l, cl);
      LeaderIsCheaper(s, top.link, top.cost, l, cl);
    }
    assert FirstEntry(s, target, offset, limit, top.link, top.cost);
  }

  lemma EntryNotLabelled(s: Search, queue: seq<Entry>, done: map<LinkId, real>, target: LinkId, offset: real,
                         limit: real,
                         l: LinkId, cl: real)
    requires Searching(s, queue, done, limit, limit + 1.0)
    requires NoneEntered(s, done, target, offset, limit) && Entering(s, target, offset, limit, l, cl)
    ensures l !in done
  {
    if l in done {
      LabelIsFinal(s, queue, done, limit, limit + 1.0, l);
      assert false;
    }
  }

  lemma LeaderIsCheaper(s: Search, k: LinkId, c: real, l: LinkId, cl: real)
    requires Leads(s, k, l) && IsLabel(s, k, c) && IsLabel(s, l, cl)
    ensures NotAfter(s, c, k, cl, l)
  {
    var w :| Earliest(s, w, k) && forall v | Reaches(s, v, l) :: NoLater(s, w, k, v, l);
    var v :| Reaches(s, v, l) && Cost(s, v) == cl;
    assert NoLater(s, w, k, v, l);
  }

  lemma LabelsAreUnique(s: Search, l: LinkId, c: real, c': real)
    requires IsLabel(s, l, c) && IsLabel(s, l, c')
    ensures c == c'
  {
  }

  /** The outcome is the only one: what is found does not depend on anything but the map and the query. */
  lemma ForwardIsUnique(s: Search, target: LinkId, offset: real, limit: real, r: Option<real>, r': Option<real>)
    requires s.blocked == {} && target in s.links
    requires ForwardOutcome(s, target, offset, limit, r) && ForwardOutcome(s, target, offset, limit, r')
    ensures r == r'
  {
    ForwardSoundAndComplete(s, target, offset, limit, r);
    ForwardSoundAndComplete(s, target, offset, limit, r');
    if r.Some? && !WithinRange(s, Here, target, offset, limit) {
      var k, c :| FirstEntry(s, target, offset, limit, k, c) && r.value == c + s.links[k].length + offset;
      var k', c' :| FirstEntry(s, target, offset, limit, k', c') && r'.value == c' + s.links[k'].length + offset;
      LeadsIsAntisymmetric(s, k, k') by {
        hide Leads;
        assert NotAfter(s, c, k, c', k') && NotAfter(s, c', k', c, k);
      }
    }
  }

  /** A distance is reported exactly when a walk is in range, and it is the length of a walk in range. */
  lemma ForwardSoundAndComplete(s: Search, target: LinkId, offset: real, limit: real, r: Option<real>)
    requires s.blocked == {} && target in s.links
    requires ForwardOutcome(s, target, offset, limit, r)
    ensures r.Some? <==> exists w :: WithinRange(s, w, target, offset, limit)
    ensures r.Some? ==> exists w :: WithinRange(s, w, target, offset, limit) && Cost(s, w) + offset == r.value
    ensures offset >= 0.0 ==>
              forall w :: WithinRange(s, w, target, offset, limit)
                          <==> Reaches(s, w, target) && Cost(s, w) + offset <= limit
  {
    hide NotAfter;
    if r.Some? {
      if WithinRange(s, Here, target, offset, limit) {
        assert Cost(s, Here) + offset == r.value;
      } else {
        var k, c :| FirstEntry(s, target, offset, limit, k, c) && r.value == c + s.links[k].length + offset;
        var w :| Reaches(s, w, k) && Cost(s, w) == c;
        assert WithinRange(s, Along(w, k), target, offset, limit) && Cost(s, Along(w, k)) + offset == r.value;
      }
    }
  }

  /** A walk to the target that is in range comes over a link that is labelled no later than the first entry. */
  lemma WalkComesOverEntry(s: Search, target: LinkId, offset: real, limit: real, p: Walk, l: LinkId) returns (cl: real)
    requires NonNegative(s.links) && WithinRange(s, Along(p, l), target, offset, limit)
    ensures Entering(s, target, offset, limit, l, cl) && cl <= Cost(s, p)
  {
    cl := EveryLinkHasLabel(s, p, l);
  }

  /** The reported distance is at most the length of any walk to the target, or exceeds it by at most the
      difference in length of two links into the target's start node. */
  lemma ForwardOvershoot(s: Search, target: LinkId, offset: real, limit: real, d: real, w: Walk)
    requires s.blocked == {} && NonNegative(s.links) && target in s.links
    requires ForwardOutcome(s, target, offset, limit, Some(d))
    requires Reaches(s, w, target)
    ensures d <= Cost(s, w) + offset
            || (w.Along? && exists k :: Enters(s, k, target)
                                        && d <= Cost(s, w) + offset + s.links[k].length - s.links[w.link].length)
  {
    hide Leads, IsLabel;
    if WithinRange(s, Here, target, offset, limit) {
      CostAtLeastBase(s, w);
    } else {
      var k, c :| FirstEntry(s, target, offset, limit, k, c) && d == c + s.links[k].length + offset;
      if WithinRange(s, w, target, offset, limit) {
        var cl := WalkComesOverEntry(s, target, offset, limit, w.prefix, w.link);
        assert NotAfter(s, c, k, cl, w.link);
      }
    }
  }

  /** No walk to the target is shorter than `d`. */
  ghost predicate IsShortest(s: Search, target: LinkId, offset: real, d: real) {
    forall w | Reaches(s, w, target) :: d <= Cost(s, w) + offset
  }

  /** The link into the target's start node that is labelled first ends later than another one does. */
  ghost predicate Outrun(s: Search, target: LinkId, offset: real, limit: real) {
    exists k, c, l, cl ::
      && FirstEntry(s, target, offset, limit, k, c) && Entering(s, target, offset, limit, l, cl)
      && cl + s.links[l].length < c + s.links[k].length
  }

  /** The reported distance is the shortest exactly when the target leaves the end of the current link, or the
      link that enters its start node first is not outrun. */
  lemma ForwardShortestUnlessOutrun(s: Search, target: LinkId, offset: real, limit: real, d: real)
    requires s.blocked == {} && NonNegative(s.links) && target in s.links
    requires ForwardOutcome(s, target, offset, limit, Some(d))
    ensures IsShortest(s, target, offset, d)
            <==> WithinRange(s, Here, target, offset, limit) || !Outrun(s, target, offset, limit)
  {
    if WithinRange(s, Here, target, offset, limit) {
      forall w | Reaches(s, w, target)
        ensures d <= Cost(s, w) + offset
      {
        CostAtLeastBase(s, w);
      }
    } else {
      var k, c :| FirstEntry(s, target, offset, limit, k, c) && d == c + s.links[k].length + offset;
      if w :| Reaches(s, w, target) && d > Cost(s, w) + offset {
        var cl := WalkComesOverEntry(s, target, offset, limit, w.prefix, w.link);
        assert Outrun(s, target, offset, limit);
      }
      if Outrun(s, target, offset, limit) {
        OutrunIsNotShortest(s, target, offset, limit, d);
      }
    }
  }

  lemma OutrunIsNotShortest(s: Search, target: LinkId, offset: real, limit: real, d: real)
    requires s.blocked == {} && target in s.links && !WithinRange(s, Here, target, offset, limit)
    requires ForwardOutcome(s, target, offset, limit, Some(d)) && Outrun(s, target, offset, limit)
    ensures !IsShortest(s, target, offset, d)
  {
    hide NotAfter, WithinRange;
    var k, c, l, cl :| FirstEntry(s, target, offset, limit, k, c) && Entering(s, target, offset, limit, l, cl)
                       && cl + s.links[l].length < c + s.links[k].length;
    ForwardIsUnique(s, target, offset, limit, Some(d), Some(c + s.links[k].length + offset));
    var w :| Reaches(s, w, l) && Cost(s, w) == cl;
    assert Reaches(s, Along(w, l), target);
  }

  lemma ForwardShortestIfEntriesEqual(s: Search, target: LinkId, offset: real, limit: real, d: real)
    requires s.blocked == {} && NonNegative(s.links) && target in s.links
    requires ForwardOutcome(s, target, offset, limit, Some(d))
    requires forall k, l | Enters(s, k, target) && Enters(s, l, target) :: s.links[k].length == s.links[l].length
    ensures IsShortest(s, target, offset, d)
  {
    ForwardShortestUnlessOutrun(s, target, offset, limit, d);
    hide Leads, IsLabel;
    forall k, c, l, cl | FirstEntry(s, target, offset, limit, k, c) && Entering(s, target, offset, limit, l, cl)
      ensures cl + s.links[l].length >= c + s.links[k].length
    {
      assert NotAfter(s, c, k, cl, l);
    }
  }

  /** A long direct link into node T, and a detour of two short ones. */
  const DETOUR_LINKS :=
    map["from" := Link("from", "S", "A", 4.0), "long" := Link("long", "A", "T", 9.0),
        "hop" := Link("hop", "A", "B", 1.0),
        "last" := Link("last", "B", "T", 1.0), "to" := Link("to", "T", "U", 1.0)]

  /** The search of a query from the end of link "from". */
  function DetourMap(): Search { QuerySearch(DETOUR_LINKS, "from", 4.0) }

  lemma DetourTakesTwoLinks(w: Walk)
    requires w == Along(Along(Here, "hop"), "last")
    ensures WithinRange(DetourMap(), w, "to", 0.0, 100.0) && Cost(DetourMap(), w) == 2.0
  {
    assert WithinRange(DetourMap(), Along(Here, "hop"), "last", 0.0, 100.0);
  }

  lemma DetourFirstEntry(k: LinkId, c: real)
    requires FirstEntry(DetourMap(), "to", 0.0, 100.0, k, c)
    ensures k == "long" && c == 0.0
  {
    hide Leads;
    var s := DetourMap();
    assert Reaches(s, Here, "long");
    forall v | Reaches(s, v, "long")
      ensures Cost(s, v) >= 0.0
    {
      CostAtLeastBase(s, v);
    }
    assert Entering(s, "to", 0.0, 100.0, "long", 0.0);
    assert NotAfter(s, c, k, 0.0, "long");
    var v :| Reaches(s, v, k) && Cost(s, v) == c;
    CostAtLeastBase(s, v);
    if k == "last" {
      CostAtLeastBase(s, v.prefix);
    }
  }

  /** The reported distance need not be the shortest: here only 9 can be reported, and a walk of 2 exists. */
  lemma ForwardNotAlwaysShortest(r: Option<real>)
    requires ForwardOutcome(DetourMap(), "to", 0.0, 100.0, r)
    ensures r == Some(9.0)
    ensures !IsShortest(DetourMap(), "to", 0.0, 9.0)
    ensures exists w :: WithinRange(DetourMap(), w, "to", 0.0, 100.0) && Cost(DetourMap(), w) == 2.0
  {
    hide Leads, IsLabel, NotAfter;
    DetourTakesTwoLinks(Along(Along(Here, "hop"), "last"));
    var s := DetourMap();
    assert !WithinRange(s, Here, "to", 0.0, 100.0);
    var k, c :| FirstEntry(s, "to", 0.0, 100.0, k, c) && r.value == c + s.links[k].length + 0.0;
    DetourFirstEntry(k, c);
  }
}
