/** The road network of MGeoLoader and the theory of its two label-setting searches.

    A search starts at a node with a base cost (what is left of the current link) and relaxes whole
    links. A link's label is the cost at which its start node is reached. `blocked` nodes are entered
    but not left: the stop-line search blocks stop-line nodes, the distance search blocks none. */
module RoadGraph {
  import opened QueueOrder

  type NodeId = string

  datatype Link = Link(id: LinkId, fromNode: NodeId, toNode: NodeId, length: real)

  datatype Search = Search(links: map<LinkId, Link>, start: NodeId, blocked: set<NodeId>, base: real)

  /** A walk is the list of links travelled, most recent one outermost. */
  datatype Walk = Here | Along(prefix: Walk, link: LinkId)

  ghost predicate NonNegative(links: map<LinkId, Link>) {
    forall id | id in links :: links[id].length >= 0.0
  }

  ghost function EndNode(s: Search, w: Walk): NodeId {
    match w
    case Here => s.start
    case Along(_, l) => if l in s.links then s.links[l].toNode else s.start
  }

  ghost predicate IsWalk(s: Search, w: Walk) {
    match w
    case Here => true
    case Along(p, l) => IsWalk(s, p) && l in s.links && s.links[l].fromNode == EndNode(s, p)
  }

  /** A walk none of whose links ends in a blocked node. */
  ghost predicate IsOpen(s: Search, w: Walk) {
    match w
    case Here => true
    case Along(p, l) => IsOpen(s, p) && l in s.links && s.links[l].toNode !in s.blocked
  }

  ghost function Cost(s: Search, w: Walk): real {
    match w
    case Here => s.base
    case Along(p, l) => Cost(s, p) + if l in s.links then s.links[l].length else 0.0
  }

  /** `w` is an open walk that ends where link `l` begins. */
  ghost predicate Reaches(s: Search, w: Walk, l: LinkId) {
    IsWalk(s, w) && IsOpen(s, w) && l in s.links && s.links[l].fromNode == EndNode(s, w)
  }

  /** `c` is the least cost of an open walk to the beginning of link `l`. */
  ghost predicate IsLabel(s: Search, l: LinkId, c: real) {
    && (exists w :: Reaches(s, w, l) && Cost(s, w) == c)
    && (forall w :: Reaches(s, w, l) ==> c <= Cost(s, w))
  }

  // ---------------------------------------------------------------- the order of labelling

  /** What decides when a walk's link comes out of the queue among those of equal cost: the links of no length that
      the walk ends with, as far as the queue would not take a later one of them before them. Where every link has
      length this is the link itself. */
  ghost function Trail(s: Search, w: Walk, l: LinkId): (t: seq<LinkId>)
    ensures t != [] && t[|t| - 1] == l
  {
    match w
    case Here => [l]
    case Along(p, k) => if k in s.links && s.links[k].length == 0.0 then Kept(Trail(s, p, k), l) + [l] else [l]
  }

  /** Entering `l` by `w` comes no later than entering `k` by `v`. */
  ghost predicate NoLater(s: Search, w: Walk, l: LinkId, v: Walk, k: LinkId) {
    Cost(s, w) < Cost(s, v) || (Cost(s, w) == Cost(s, v) && !Before(Trail(s, v, k), Trail(s, w, l)))
  }

  /** `w` is a way into `l` that no other way into `l` comes before. */
  ghost predicate Earliest(s: Search, w: Walk, l: LinkId) {
    Reaches(s, w, l) && forall v | Reaches(s, v, l) :: NoLater(s, w, l, v, l)
  }

  /** Link `l` is labelled before link `k`, if they are not the same. */
  ghost predicate Leads(s: Search, l: LinkId, k: LinkId) {
    exists w :: Earliest(s, w, l) && forall v | Reaches(s, v, k) :: NoLater(s, w, l, v, k)
  }

  /** Link `l`, labelled `c`, is labelled no later than `k`, labelled `c'`. */
  ghost predicate NotAfter(s: Search, c: real, l: LinkId, c': real, k: LinkId) {
    c < c' || (c == c' && Leads(s, l, k))
  }

  lemma NoLaterIsTransitive(s: Search, w1: Walk, l1: LinkId, w2: Walk, l2: LinkId, w3: Walk, l3: LinkId)
    requires NoLater(s, w1, l1, w2, l2) && NoLater(s, w2, l2, w3, l3)
    ensures NoLater(s, w1, l1, w3, l3)
  {
    hide Trail, Cost;
    var a, b, c := Trail(s, w1, l1), Trail(s, w2, l2), Trail(s, w3, l3);
    BeforeIsTotal(a, b);
    BeforeIsTotal(b, c);
    BeforeIsTotal(a, c);
    if a != b && b != c && Before(a, b) && Before(b, c) {
      BeforeIsTransitive(a, b, c);
    }
  }

  lemma EarliestLeads(s: Search, w: Walk, l: LinkId)
    requires Earliest(s, w, l)
    ensures Leads(s, l, l) && IsLabel(s, l, Cost(s, w))
  {
  }

  lemma LeadsIsTransitive(s: Search, l: LinkId, k: LinkId, m: LinkId)
    requires Leads(s, l, k) && Leads(s, k, m)
    ensures Leads(s, l, m)
  {
    hide NoLater, Reaches;
    var w :| Earliest(s, w, l) && forall v | Reaches(s, v, k) :: NoLater(s, w, l, v, k);
    var u :| Earliest(s, u, k) && forall v | Reaches(s, v, m) :: NoLater(s, u, k, v, m);
    forall v | Reaches(s, v, m)
      ensures NoLater(s, w, l, v, m)
    {
      NoLaterIsTransitive(s, w, l, u, k, v, m);
    }
  }

  /** No two links are labelled each before the other. */
  lemma LeadsIsAntisymmetric(s: Search, l: LinkId, k: LinkId)
    requires Leads(s, l, k) && Leads(s, k, l)
    ensures l == k
  {
    var w :| Earliest(s, w, l) && forall v | Reaches(s, v, k) :: NoLater(s, w, l, v, k);
    var u :| Earliest(s, u, k) && forall v | Reaches(s, v, l) :: NoLater(s, u, k, v, l);
    hide Trail, Cost, Reaches;
    assert NoLater(s, w, l, u, k) && NoLater(s, u, k, w, l);
    BeforeIsTotal(Trail(s, w, l), Trail(s, u, k));
  }

  lemma NotAfterIsTransitive(s: Search, c: real, k: LinkId, c': real, k': LinkId, c'': real, k'': LinkId)
    requires NotAfter(s, c, k, c', k') && NotAfter(s, c', k', c'', k'')
    ensures NotAfter(s, c, k, c'', k'')
  {
    hide Leads;
    if c == c' == c'' {
      LeadsIsTransitive(s, k, k', k'');
    }
  }

  lemma TrailFrom(s: Search, w: Walk, l: LinkId)
    ensures AllFrom(Trail(s, w, l), l)
  {
    NeverPrecedesItself(l);
    if w.Along? {
      KeptFrom(Trail(s, w.prefix, w.link), l);
    }
  }

  /** Going on over a link makes a way later. */
  lemma GoingOn(s: Search, p: Walk, k: LinkId, l: LinkId)
    requires NonNegative(s.links) && k in s.links
    ensures NoLater(s, p, k, Along(p, k), l)
  {
    GoingOnIsLater(Trail(s, p, k), l);
  }

  // ---------------------------------------------------------------- search state

  /** The walk starts the search, or comes over a labelled link by an earliest way into it. */
  ghost predicate OverLabelled(s: Search, done: map<LinkId, real>, w: Walk) {
    match w
    case Here => true
    case Along(p, k) => k in done && Earliest(s, p, k)
  }

  /** Every queue entry is the cost of some open walk over what is labelled. */
  ghost predicate QueueSound(s: Search, queue: seq<Entry>, done: map<LinkId, real>) {
    forall e | e in queue :: exists w :: Reaches(s, w, e.link) && Cost(s, w) == e.cost && OverLabelled(s, done, w)
  }

  ghost predicate DoneExact(s: Search, done: map<LinkId, real>) {
    forall l | l in done :: exists w :: Earliest(s, w, l) && Cost(s, w) == done[l]
  }

  ghost predicate DoneFirst(queue: seq<Entry>, done: map<LinkId, real>) {
    forall l, e | l in done && e in queue :: done[l] <= e.cost
  }

  /** What is labelled comes before what is not. */
  ghost predicate DoneLeads(s: Search, done: map<LinkId, real>) {
    forall l, k | l in done && k in s.links && k !in done :: Leads(s, l, k)
  }

  /** Link `l` can be entered at cost `c`, and the search has not lost that fact: `l` carries a label
      at least as good, or waits in the queue at least as cheaply, or `c` is beyond the horizon
      (over `limit`, or not under `cut`). */
  ghost predicate Covered(queue: seq<Entry>, done: map<LinkId, real>, limit: real, cut: real, l: LinkId, c: real) {
    || (l in done && done[l] <= c)
    || (exists e :: e in queue && e.link == l && e.cost <= c)
    || c > limit
    || c >= cut
  }

  ghost predicate Frontier(s: Search, queue: seq<Entry>, done: map<LinkId, real>, limit: real, cut: real) {
    && (forall l | l in s.links && s.links[l].fromNode == s.start :: Covered(queue, done, limit, cut, l, s.base))
    && (forall k, l | k in done && k in s.links && l in s.links
                      && s.links[k].toNode !in s.blocked && s.links[l].fromNode == s.links[k].toNode
                      && done[k] + s.links[k].length <= limit ::
          Covered(queue, done, limit, cut, l, done[k] + s.links[k].length))
  }

  /** The invariant of both search loops. */
  ghost predicate Searching(s: Search, queue: seq<Entry>, done: map<LinkId, real>, limit: real, cut: real) {
    && NonNegative(s.links)
    && done.Keys <= s.links.Keys
    && QueueSound(s, queue, done)
    && DoneExact(s, done)
    && DoneFirst(queue, done)
    && DoneLeads(s, done)
    && Frontier(s, queue, done, limit, cut)
  }

  /** Nothing within the horizon is ever lost: the start of every open walk has a label, or the queue
      still holds something at least as cheap. */
  lemma {:induction false} FrontierMeetsEveryWalk(s: Search, queue: seq<Entry>, done: map<LinkId, real>,
                                                  limit: real, cut: real, w: Walk, l: LinkId)
    requires NonNegative(s.links) && Frontier(s, queue, done, limit, cut)
    requires Reaches(s, w, l) && Cost(s, w) <= limit && Cost(s, w) < cut
    ensures (l in done && done[l] <= Cost(s, w)) || exists e :: e in queue && e.cost <= Cost(s, w)
  {
    match w
    case Here =>
      assert Covered(queue, done, limit, cut, l, s.base);
    case Along(p, k) =>
      FrontierMeetsEveryWalk(s, queue, done, limit, cut, p, k);
      if k in done && done[k] <= Cost(s, p) {
        assert Covered(queue, done, limit, cut, l, done[k] + s.links[k].length);
      }
  }

  ghost predicate IsFirst(queue: seq<Entry>, top: Entry) {
    top in queue && forall e | e in queue :: top.cost <= e.cost && NotLater(top, e)
  }

  /** `rest` is `queue` without one occurrence of `top`, its first entry. */
  ghost predicate Popped(queue: seq<Entry>, top: Entry, rest: seq<Entry>) {
    && IsFirst(queue, top)
    && (forall e | e in rest :: e in queue)
    && (forall e | e in queue :: e in rest || e == top)
    && |rest| == |queue| - 1
  }

  /** Whatever is not labelled is entered no earlier than the first fresh entry. */
  lemma {:induction false} FirstEntryLeads(s: Search, queue: seq<Entry>, done: map<LinkId, real>, limit: real,
                                           cut: real,
                                           top: Entry, w: Walk, v: Walk, k: LinkId)
    requires Searching(s, queue, done, limit, cut) && IsFirst(queue, top)
    requires top.cost <= limit && top.cost < cut && top.link !in done
    requires Reaches(s, w, top.link) && Cost(s, w) == top.cost && OverLabelled(s, done, w)
    requires k !in done && Reaches(s, v, k)
    ensures NoLater(s, w, top.link, v, k)
    decreases v
  {
    if v.Along? && v.link !in done {
      FirstEntryLeads(s, queue, done, limit, cut, top, w, v.prefix, v.link);
      GoingOn(s, v.prefix, v.link, k);
      NoLaterIsTransitive(s, w, top.link, v.prefix, v.link, v, k);
    } else if Cost(s, v) <= limit && Cost(s, v) < cut {
      var e := WaitingFor(s, queue, done, limit, cut, v, k);
      if top.cost == Cost(s, v) {
        TrailFrom(s, v, k);
        AllFromBelow(Trail(s, v, k), k, top.link);
        SameCostLeads(s, done, top, w, v, k);
      }
    }
  }

  /** A link that can be entered over labelled ones waits in the queue. */
  lemma WaitingFor(s: Search, queue: seq<Entry>, done: map<LinkId, real>, limit: real, cut: real, v: Walk, k: LinkId)
    returns (e: Entry)
    requires Searching(s, queue, done, limit, cut)
    requires k !in done && Reaches(s, v, k) && (v.Along? ==> v.link in done) && Cost(s, v) <= limit && Cost(s, v) < cut
    ensures e in queue && e.link == k && e.cost <= Cost(s, v)
  {
    var c := if v.Here? then s.base else done[v.link] + s.links[v.link].length;
    if v.Along? {
      var u :| Earliest(s, u, v.link) && Cost(s, u) == done[v.link];
      assert NoLater(s, u, v.link, v.prefix, v.link);
    }
    assert Covered(queue, done, limit, cut, k, c);
    e :| e in queue && e.link == k && e.cost <= c;
  }

  lemma AllFromBelow(t: seq<LinkId>, k: LinkId, l: LinkId)
    requires AllFrom(t, k) && !Precedes(k, l)
    ensures AllFrom(t, l)
  {
    forall i | 0 <= i < |t|
      ensures !Precedes(t[i], l)
    {
      NotBelow(l, k, t[i]);
    }
  }

  lemma SameCostLeads(s: Search, done: map<LinkId, real>, top: Entry, w: Walk, v: Walk, k: LinkId)
    requires NonNegative(s.links) && DoneLeads(s, done) && OverLabelled(s, done, w) && Reaches(s, w, top.link)
    requires k !in done && Reaches(s, v, k) && Cost(s, v) == Cost(s, w) && AllFrom(Trail(s, v, k), top.link)
    ensures NoLater(s, w, top.link, v, k)
  {
    hide Trail;
    if w.Along? && w.link in s.links && s.links[w.link].length == 0.0 {
      EarlierLabelLeads(s, done, w.prefix, w.link, v, k);
      TrailGoesOn(s, w.prefix, w.link, top.link);
      GoingOnFromBefore(Trail(s, w.prefix, w.link), Trail(s, v, k), top.link);
    } else {
      TrailIsName(s, w, top.link);
      OneNameIsFirst(Trail(s, v, k), top.link);
    }
  }

  lemma EarlierLabelLeads(s: Search, done: map<LinkId, real>, q: Walk, i: LinkId, v: Walk, k: LinkId)
    requires DoneLeads(s, done) && i in done && Earliest(s, q, i)
    requires k in s.links && k !in done && Reaches(s, v, k) && Cost(s, v) == Cost(s, q)
    ensures Before(Trail(s, q, i), Trail(s, v, k))
  {
    hide Trail, Reaches, Cost;
    var u :| Earliest(s, u, i) && forall x | Reaches(s, x, k) :: NoLater(s, u, i, x, k);
    NoLaterIsTransitive(s, q, i, u, i, v, k);
    BeforeIsTotal(Trail(s, q, i), Trail(s, v, k));
  }

  lemma TrailGoesOn(s: Search, q: Walk, i: LinkId, l: LinkId)
    requires i in s.links && s.links[i].length == 0.0
    ensures Trail(s, Along(q, i), l) == Kept(Trail(s, q, i), l) + [l]
  {
  }

  lemma TrailIsName(s: Search, w: Walk, l: LinkId)
    requires w.Here? || w.link !in s.links || s.links[w.link].length != 0.0
    ensures Trail(s, w, l) == [l]
  {
  }

  /** What is taken off the queue first is a final label, unless it is stale or beyond the horizon. */
  lemma FirstIsLabel(s: Search, queue: seq<Entry>, done: map<LinkId, real>, limit: real, cut: real, top: Entry)
    requires Searching(s, queue, done, limit, cut) && IsFirst(queue, top)
    requires top.cost <= limit && top.cost < cut
    ensures top.link in s.links
    ensures forall k | k in done :: done[k] <= top.cost
    ensures top.link in done ==> done[top.link] <= top.cost
    ensures top.link !in done ==>
              && IsLabel(s, top.link, top.cost)
              && (exists w :: Earliest(s, w, top.link) && Cost(s, w) == top.cost)
              && (forall k | k in s.links && k !in done :: Leads(s, top.link, k))
              && (forall k | k in done :: NotAfter(s, done[k], k, top.cost, top.link))
  {
    var w :| Reaches(s, w, top.link) && Cost(s, w) == top.cost && OverLabelled(s, done, w);
    hide NoLater, Frontier;
    if top.link !in done {
      forall k, v | k in s.links && k !in done && Reaches(s, v, k)
        ensures NoLater(s, w, top.link, v, k)
      {
        FirstEntryLeads(s, queue, done, limit, cut, top, w, v, k);
      }
      EarliestLeads(s, w, top.link);
    }
  }

  /** A popped entry that is stale or beyond the horizon may be dropped. */
  lemma DropKeeps(s: Search, queue: seq<Entry>, done: map<LinkId, real>, limit: real, cut: real, top: Entry,
                  rest: seq<Entry>)
    requires Searching(s, queue, done, limit, cut) && Popped(queue, top, rest)
    requires top.cost > limit || top.cost >= cut || (top.link in done && done[top.link] <= top.cost)
    ensures Searching(s, rest, done, limit, cut)
  {
    forall l, c | Covered(queue, done, limit, cut, l, c)
      ensures Covered(rest, done, limit, cut, l, c)
    {
      if e :| e in queue && e.link == l && e.cost <= c {
        assert e in rest || e == top;
      }
    }
  }

  /** The horizon may be lowered to a cost that everything waiting has already passed. */
  lemma CutKeeps(s: Search, queue: seq<Entry>, done: map<LinkId, real>, limit: real, cut: real, cut': real)
    requires Searching(s, queue, done, limit, cut) && cut' <= cut
    ensures Searching(s, queue, done, limit, cut')
  {
    forall l, c | Covered(queue, done, limit, cut, l, c)
      ensures Covered(queue, done, limit, cut', l, c)
    {
    }
  }

  function Entries(cost: real, ids: seq<LinkId>): seq<Entry> {
    seq(|ids|, i requires 0 <= i < |ids| => Entry(cost, ids[i]))
  }

  lemma EntriesMembers(cost: real, ids: seq<LinkId>)
    ensures forall e: Entry :: e in Entries(cost, ids) <==> e.cost == cost && e.link in ids
  {
    forall e: Entry | e.cost == cost && e.link in ids
      ensures e in Entries(cost, ids)
    {
      var i :| 0 <= i < |ids| && ids[i] == e.link;
      assert Entries(cost, ids)[i] == e;
    }
  }

  /** The first fresh entry gives its link a final label, in its turn. */
  lemma LabelKeeps(s: Search, queue: seq<Entry>, done: map<LinkId, real>, limit: real, cut: real, top: Entry,
                   rest: seq<Entry>)
    requires Searching(s, queue, done, limit, cut) && Popped(queue, top, rest)
    requires top.cost <= limit && top.cost < cut && top.link !in done && top.link in s.links
    ensures var done' := done[top.link := top.cost];
            QueueSound(s, rest, done') && DoneExact(s, done') && DoneFirst(rest, done') && DoneLeads(s, done')
  {
    FirstIsLabel(s, queue, done, limit, cut, top);
    hide Frontier, Earliest, Leads, Reaches, Cost, IsLabel, NotAfter;
  }

  lemma SettledFrontier(s: Search, queue: seq<Entry>, done: map<LinkId, real>, limit: real, cut: real, top: Entry,
                        rest: seq<Entry>)
    requires Frontier(s, queue, done, limit, cut) && Popped(queue, top, rest) && top.link !in done
             && top.link in s.links
    requires top.cost + s.links[top.link].length > limit || s.links[top.link].toNode in s.blocked
             || forall l | l in s.links :: s.links[l].fromNode != s.links[top.link].toNode
    ensures Frontier(s, rest, done[top.link := top.cost], limit, cut)
  {
    var done' := done[top.link := top.cost];
    forall l, c | Covered(queue, done, limit, cut, l, c)
      ensures Covered(rest, done', limit, cut, l, c)
    {
      if e :| e in queue && e.link == l && e.cost <= c {
        assert e in rest || e == top;
      }
    }
  }

  /** Labelling a fresh first link whose end lies beyond the horizon, or is blocked. */
  lemma SettleKeeps(s: Search, queue: seq<Entry>, done: map<LinkId, real>, limit: real, cut: real, top: Entry,
                    rest: seq<Entry>)
    requires Searching(s, queue, done, limit, cut) && Popped(queue, top, rest)
    requires top.cost <= limit && top.cost < cut && top.link !in done && top.link in s.links
    requires top.cost + s.links[top.link].length > limit || s.links[top.link].toNode in s.blocked
             || forall l | l in s.links :: s.links[l].fromNode != s.links[top.link].toNode
    ensures Searching(s, rest, done[top.link := top.cost], limit, cut)
  {
    hide Frontier, QueueSound, DoneExact, DoneFirst, DoneLeads, Popped;
    LabelKeeps(s, queue, done, limit, cut, top, rest);
    SettledFrontier(s, queue, done, limit, cut, top, rest);
  }

  /** Entries queued for the links leaving a freshly labelled one stand for open walks over it, and are not
      cheaper than any label. */
  lemma ExpandedQueue(s: Search, rest: seq<Entry>, done': map<LinkId, real>, l: LinkId, next: seq<LinkId>)
    requires NonNegative(s.links) && QueueSound(s, rest, done') && DoneExact(s, done') && DoneFirst(rest, done')
    requires l in done' && l in s.links && s.links[l].toNode !in s.blocked
             && forall k | k in done' :: done'[k] <= done'[l]
    requires forall k | k in next :: k in s.links && s.links[k].fromNode == s.links[l].toNode
    ensures var queue' := rest + Entries(done'[l] + s.links[l].length, next);
            QueueSound(s, queue', done') && DoneFirst(queue', done')
  {
    var end := done'[l] + s.links[l].length;
    var queue' := rest + Entries(end, next);
    EntriesMembers(end, next);
    assert QueueSound(s, queue', done') by {
      hide NoLater, Entries;
      var w :| Earliest(s, w, l) && Cost(s, w) == done'[l];
      forall k | k in next
        ensures Reaches(s, Along(w, l), k) && Cost(s, Along(w, l)) == end && OverLabelled(s, done', Along(w, l))
      {
      }
    }
    hide QueueSound, DoneExact, Entries;
  }

  lemma ExpandedFrontier(s: Search, queue: seq<Entry>, done: map<LinkId, real>, limit: real, cut: real,
                         top: Entry, rest: seq<Entry>, next: seq<LinkId>)
    requires Frontier(s, queue, done, limit, cut) && Popped(queue, top, rest)
    requires top.link !in done && top.link in s.links
    requires forall l | l in s.links && s.links[l].fromNode == s.links[top.link].toNode :: l in next
    ensures Frontier(s, rest + Entries(top.cost + s.links[top.link].length, next), done[top.link := top.cost], limit,
                     cut)
  {
    var end := top.cost + s.links[top.link].length;
    var done' := done[top.link := top.cost];
    var queue' := rest + Entries(end, next);
    EntriesMembers(end, next);
    forall l, c | Covered(queue, done, limit, cut, l, c)
      ensures Covered(queue', done', limit, cut, l, c)
    {
      if e :| e in queue && e.link == l && e.cost <= c {
        assert e in queue' || e == top;
      }
    }
    forall l | l in next
      ensures Covered(queue', done', limit, cut, l, end)
    {
      assert Entry(end, l) in queue';
    }
  }

  /** Labelling a fresh cheapest link and queueing everything that leaves its end node. */
  lemma ExpandKeeps(s: Search, queue: seq<Entry>, done: map<LinkId, real>, limit: real, cut: real,
                    top: Entry, rest: seq<Entry>, next: seq<LinkId>)
    requires Searching(s, queue, done, limit, cut) && Popped(queue, top, rest)
    requires top.cost <= limit && top.cost < cut && top.link !in done && top.link in s.links
    requires s.links[top.link].toNode !in s.blocked
    requires forall l :: l in next <==> l in s.links && s.links[l].fromNode == s.links[top.link].toNode
    ensures Searching(s, rest + Entries(top.cost + s.links[top.link].length, next), done[top.link := top.cost], limit,
                      cut)
  {
    hide Frontier, QueueSound, DoneExact, DoneFirst, DoneLeads, Popped;
    LabelKeeps(s, queue, done, limit, cut, top, rest);
    LabelIsLast(s, queue, done, limit, cut, top, rest);
    ExpandedQueue(s, rest, done[top.link := top.cost], top.link, next);
    ExpandedFrontier(s, queue, done, limit, cut, top, rest, next);
  }

  lemma LabelIsLast(s: Search, queue: seq<Entry>, done: map<LinkId, real>, limit: real, cut: real, top: Entry,
                    rest: seq<Entry>)
    requires Searching(s, queue, done, limit, cut) && Popped(queue, top, rest)
    ensures forall k | k in done :: done[k] <= top.cost
  {
  }

  /** The first step of both searches: queue everything that leaves the start node. */
  lemma StartKeeps(s: Search, limit: real, cut: real, next: seq<LinkId>)
    requires NonNegative(s.links)
    requires forall l :: l in next <==> l in s.links && s.links[l].fromNode == s.start
    ensures Searching(s, Entries(s.base, next), map[], limit, cut)
  {
    EntriesMembers(s.base, next);
    forall l | l in next
      ensures Reaches(s, Here, l) && Covered(Entries(s.base, next), map[], limit, cut, l, s.base)
    {
      assert Entry(s.base, l) in Entries(s.base, next);
    }
  }

  /** Each expansion uses up one of the finitely many links. */
  lemma FewerUnlabelled(links: map<LinkId, Link>, done: map<LinkId, real>, l: LinkId, c: real)
    requires l in links && l !in done
    ensures links.Keys - done[l := c].Keys == links.Keys - done.Keys - {l} < links.Keys - done.Keys
  {
    assert l in links.Keys - done.Keys;
  }

  /** When the queue has run dry, every link that can be entered within the horizon has its label. */
  lemma DryQueueIsComplete(s: Search, done: map<LinkId, real>, limit: real, cut: real, w: Walk, l: LinkId)
    requires Searching(s, [], done, limit, cut)
    requires Reaches(s, w, l) && Cost(s, w) <= limit && Cost(s, w) < cut
    ensures l in done && done[l] <= Cost(s, w)
  {
    FrontierMeetsEveryWalk(s, [], done, limit, cut, w, l);
  }

  /** Costs do not fall along a walk. */
  lemma {:induction false} CostAtLeastBase(s: Search, w: Walk)
    requires NonNegative(s.links)
    ensures s.base <= Cost(s, w)
  {
    match w
    case Here =>
    case Along(p, _) => CostAtLeastBase(s, p);
  }

  // ---------------------------------------------------------------- every reachable link has its turn

  lemma {:induction false} HasFirst(queue: seq<Entry>) returns (top: Entry, rest: seq<Entry>)
    requires queue != []
    ensures Popped(queue, top, rest)
  {
    top, rest := queue[0], queue[1..];
    NeverPrecedesItself(top.link);
    assert queue == [top] + rest;
    if rest != [] {
      var first, others := HasFirst(rest);
      PrecedesIsTotal(first.link, top.link);
      if NotLater(top, first) {
        forall e | e in rest
          ensures top.cost <= e.cost && NotLater(top, e)
        {
          NotLaterIsTransitive(top, first, e);
        }
      } else {
        top, rest := first, [top] + others;
      }
    }
  }

  ghost function InSomeOrder(ids: set<LinkId>): (r: seq<LinkId>)
    ensures forall id :: id in r <==> id in ids
    decreases |ids|
  {
    if ids == {} then []
    else
      var id :| id in ids;
      [id] + InSomeOrder(ids - {id})
  }

  ghost function Leaving(s: Search, node: NodeId): (r: seq<LinkId>)
    ensures forall l :: l in r <==> l in s.links && s.links[l].fromNode == node
  {
    InSomeOrder(set l | l in s.links && s.links[l].fromNode == node)
  }

  /** A search without a target, up to the cost of a given way, labels the link that the way enters. */
  lemma EveryLinkHasLabel(s: Search, v: Walk, l: LinkId) returns (c: real)
    requires NonNegative(s.links) && Reaches(s, v, l)
    ensures IsLabel(s, l, c) && exists w :: Earliest(s, w, l) && Cost(s, w) == c
  {
    hide Earliest, IsLabel, Searching, Popped, Reaches, NonNegative, Leads, NotAfter, Cost;
    var limit, cut := Cost(s, v), Cost(s, v) + 1.0;
    var queue, done, unlabelled := Entries(s.base, Leaving(s, s.start)), map[], s.links.Keys;
    StartKeeps(s, limit, cut, Leaving(s, s.start));
    while queue != []
      invariant Searching(s, queue, done, limit, cut) && unlabelled == s.links.Keys - done.Keys
      decreases unlabelled, |queue|
    {
      var top, rest := HasFirst(queue);
      queue, done, unlabelled := Explore(s, queue, done, unlabelled, limit, cut, top, rest);
    }
    DryQueueIsComplete(s, done, limit, cut, v, l);
    c := done[l];
    LabelIsFinal(s, queue, done, limit, cut, l);
  }

  lemma LabelIsFinal(s: Search, queue: seq<Entry>, done: map<LinkId, real>, limit: real, cut: real, l: LinkId)
    requires Searching(s, queue, done, limit, cut) && l in done
    ensures IsLabel(s, l, done[l]) && exists w :: Earliest(s, w, l) && Cost(s, w) == done[l]
  {
    var w :| Earliest(s, w, l) && Cost(s, w) == done[l];
    EarliestLeads(s, w, l);
  }

  /** One pass of such a search. */
  lemma Explore(s: Search, queue: seq<Entry>, done: map<LinkId, real>, unlabelled: set<LinkId>, limit: real, cut: real,
                top: Entry, rest: seq<Entry>)
    returns (queue': seq<Entry>, done': map<LinkId, real>, unlabelled': set<LinkId>)
    requires Searching(s, queue, done, limit, cut) && Popped(queue, top, rest) && cut > limit
    requires unlabelled == s.links.Keys - done.Keys
    ensures Searching(s, queue', done', limit, cut) && unlabelled' == s.links.Keys - done'.Keys
    ensures unlabelled' < unlabelled || (unlabelled' == unlabelled && |queue'| < |queue|)
  {
    hide Searching, Earliest, IsLabel, Reaches, NonNegative, Leads, NotAfter, Cost, NotLater;
    queue', done', unlabelled' := rest, done, unlabelled;
    if top.cost > limit {
      DropKeeps(s, queue, done, limit, cut, top, rest);
      return;
    }
    FirstIsLabel(s, queue, done, limit, cut, top);
    if top.link in done {
      DropKeeps(s, queue, done, limit, cut, top, rest);
      return;
    }
    FewerUnlabelled(s.links, done, top.link, top.cost);
    done', unlabelled' := done[top.link := top.cost], unlabelled - {top.link};
    var link := s.links[top.link];
    if link.toNode in s.blocked {
      SettleKeeps(s, queue, done, limit, cut, top, rest);
    } else {
      queue' := rest + Entries(top.cost + link.length, Leaving(s, link.toNode));
      ExpandKeeps(s, queue, done, limit, cut, top, rest, Leaving(s, link.toNode));
    }
  }

  /** Of any two links that can be reached, one is labelled before the other. */
  lemma LeadsIsTotal(s: Search, v: Walk, l: LinkId, u: Walk, k: LinkId)
    requires NonNegative(s.links) && Reaches(s, v, l) && Reaches(s, u, k)
    ensures Leads(s, l, k) || Leads(s, k, l)
  {
    var c := EveryLinkHasLabel(s, v, l);
    var d := EveryLinkHasLabel(s, u, k);
    var w :| Earliest(s, w, l);
    var x :| Earliest(s, x, k);
    BeforeIsTotal(Trail(s, w, l), Trail(s, x, k));
    assert NoLater(s, w, l, x, k) || NoLater(s, x, k, w, l);
    hide NoLater, Reaches, IsLabel;
    if NoLater(s, w, l, x, k) {
      forall y | Reaches(s, y, k)
        ensures NoLater(s, w, l, y, k)
      {
        NoLaterIsTransitive(s, w, l, x, k, y, k);
      }
    } else {
      forall y | Reaches(s, y, l)
        ensures NoLater(s, x, k, y, l)
      {
        NoLaterIsTransitive(s, x, k, w, l, y, l);
      }
    }
  }

  /** Where every link has length, the names decide between links of equal cost. */
  lemma NamesDecide(s: Search, l: LinkId, k: LinkId, c: real)
    requires (forall id | id in s.links :: s.links[id].length > 0.0) && IsLabel(s, l, c) && IsLabel(s, k, c)
    ensures Leads(s, l, k) <==> !Precedes(k, l)
  {
    var w :| Reaches(s, w, l) && Cost(s, w) == c;
    var v :| Reaches(s, v, k) && Cost(s, v) == c;
    forall y, m | Reaches(s, y, m)
      ensures Trail(s, y, m) == [m]
    {
      TrailIsName(s, y, m);
    }
    hide Trail, Reaches, Cost, Before;
    OneNames(k, l);
    OneNames(l, l);
    NeverPrecedesItself(l);
    if Leads(s, l, k) {
      var x :| Earliest(s, x, l) && forall y | Reaches(s, y, k) :: NoLater(s, x, l, y, k);
      assert NoLater(s, x, l, v, k) && NoLater(s, x, l, w, l);
    } else {
      forall y | Reaches(s, y, l)
        ensures NoLater(s, w, l, y, l)
      {
      }
      assert Earliest(s, w, l);
    }
  }

  lemma OneNames(k: LinkId, l: LinkId)
    ensures Before([k], [l]) <==> Precedes(k, l)
  {
    assert [k][1..] == [] && [l][1..] == [];
  }
}
