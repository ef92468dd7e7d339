/** What MGeoLoader's stop-line search computes (map/mgeo_loader.cpp). The blocked nodes of the search
    are the stop-line nodes. */
module StopSearch {
  import opened RealMath
  import opened QueueOrder
  import opened RoadGraph
  import opened RoadSearch

  /** The search that a stop-line query from offset `offset` on link `current` runs. */
  function StopQuery(links: map<LinkId, Link>, stops: set<NodeId>, current: LinkId, offset: real): Search
    requires current in links
  {
    Search(links, links[current].toNode, stops, Max(0.0, links[current].length - offset))
  }

  ghost predicate IsStopLink(s: Search, l: LinkId) {
    l in s.links && s.links[l].toNode in s.blocked
  }

  /** Arriving, within range, over link `l` at the first stop-line node of a walk. */
  ghost predicate Arrival(s: Search, limit: real, w: Walk, l: LinkId) {
    Reaches(s, w, l) && IsStopLink(s, l) && Cost(s, Along(w, l)) <= limit
  }

  /** Link `l`, labelled `c`, ends at a stop-line node in range. */
  ghost predicate Candidate(s: Search, limit: real, l: LinkId, c: real) {
    IsStopLink(s, l) && IsLabel(s, l, c) && c + s.links[l].length <= limit
  }

  /** `last` is the stop link that supplied the answer `d`; `near` is a nearest stop link, the last one
      labelled of these. */
  ghost predicate StopOutcome(s: Search, limit: real, d: real, last: LinkId, near: LinkId, cl: real, cn: real) {
    && Candidate(s, limit, last, cl) && d == cl + s.links[last].length
    && Minimal(s, limit, near, cn)
    // every candidate is labelled no later than the answer's link, or begins not before the answer itself
    && (forall k, c | Candidate(s, limit, k, c) :: NotAfter(s, c, k, cl, last) || d <= c)
    && (forall k, c | Minimal(s, limit, k, c) :: NotAfter(s, c, k, cn, near) || d <= c)
    // every candidate before the answer's link is followed by one that begins before its end
    && (forall k, c | Candidate(s, limit, k, c) && NotAfter(s, c, k, cl, last) && k != last :: Followed(s, limit, k, c))
    // an answer beyond the nearest arrival was forced by a link that straddles that arrival
    && (d == cn + s.links[near].length || exists b, cb :: Straddles(s, limit, near, cn, b, cb))
    // every arrival goes through a candidate, or starts beyond the answer
    && (forall w, k | Arrival(s, limit, w, k) ::
          d <= Cost(s, w) || exists c :: Candidate(s, limit, k, c) && c <= Cost(s, w))
  }

  /** Some other stop link is labelled after `k`, and begins before `k` ends. */
  ghost predicate Followed(s: Search, limit: real, k: LinkId, c: real)
    requires k in s.links
  {
    exists j, cj :: Candidate(s, limit, j, cj) && j != k && NotAfter(s, c, k, cj, j) && cj < c + s.links[k].length
  }

  /** Stop link `b` is labelled no earlier than `m`, begins before the end of `m`, and ends after it. */
  ghost predicate Straddles(s: Search, limit: real, m: LinkId, cm: real, b: LinkId, cb: real)
    requires m in s.links
  {
    Candidate(s, limit, b, cb) && NotAfter(s, cm, m, cb, b) && cb < cm + s.links[m].length < cb + s.links[b].length
  }

  /** The reported distance is the least over all walks that arrive at a stop line in range. */
  ghost predicate IsNearest(s: Search, limit: real, d: real) {
    forall w, k | Arrival(s, limit, w, k) :: d <= Cost(s, Along(w, k))
  }

  ghost predicate Minimal(s: Search, limit: real, m: LinkId, cm: real) {
    && Candidate(s, limit, m, cm)
    && (forall k, c | Candidate(s, limit, k, c) :: cm + s.links[m].length <= c + s.links[k].length)
  }

  /** Some stop link begins before the nearest arrival, is labelled no earlier than any link of a nearest
      arrival, and ends after it. */
  ghost predicate Overshadowed(s: Search, limit: real) {
    exists b, cb, m, cm ::
      && Minimal(s, limit, m, cm) && Straddles(s, limit, m, cm, b, cb)
      && forall k, c | Minimal(s, limit, k, c) :: NotAfter(s, c, k, cb, b)
  }

  // ---------------------------------------------------------------- the loop

  ghost predicate Settled(s: Search, done: map<LinkId, real>, limit: real, l: LinkId) {
    l in done && IsStopLink(s, l) && done[l] + s.links[l].length <= limit
  }

  ghost predicate Progress(s: Search, done: map<LinkId, real>, limit: real, found: bool, best: real, last: LinkId,
                           near: LinkId) {
    if !found then
      best == FAR_AWAY && forall l :: !Settled(s, done, limit, l)
    else
      && Settled(s, done, limit, last) && best == done[last] + s.links[last].length
      && Settled(s, done, limit, near)
      && (exists l :: Settled(s, done, limit, l) && done[l] < FAR_AWAY)
      && (forall l | Settled(s, done, limit, l) :: NotAfter(s, done[l], l, done[last], last))
      && (forall l | Settled(s, done, limit, l) :: done[near] + s.links[near].length <= done[l] + s.links[l].length)
      && (forall l | Settled(s, done, limit, l) && done[l] + s.links[l].length <= done[near] + s.links[near].length ::
            NotAfter(s, done[l], l, done[near], near))
      && (forall l | Settled(s, done, limit, l) && l != last :: Passed(s, done, limit, l))
      && (best == done[near] + s.links[near].length
          || exists b :: Settled(s, done, limit, b) && NotAfter(s, done[near], near, done[b], b)
                         && done[b] < done[near] + s.links[near].length < done[b] + s.links[b].length)
  }

  /** Another stop link was settled after `l` that begins before `l` ends. */
  ghost predicate Passed(s: Search, done: map<LinkId, real>, limit: real, l: LinkId)
    requires l in done && l in s.links
  {
    exists j :: Settled(s, done, limit, j) && j != l && NotAfter(s, done[l], l, done[j], j)
        && done[j] < done[l] + s.links[l].length
  }

  lemma NothingSoFar(s: Search, limit: real)
    ensures Progress(s, map[], limit, false, FAR_AWAY, "", "")
  {
  }

  /** The new nearest link after settling stop link `l` at cost `c`. */
  ghost function Nearer(s: Search, done: map<LinkId, real>, found: bool, near: LinkId, l: LinkId, c: real): LinkId
    requires l in s.links && (found ==> near in done && near in s.links)
  {
    if !found || c + s.links[l].length <= done[near] + s.links[near].length then l else near
  }

  lemma SettleStop(s: Search, done: map<LinkId, real>, limit: real, found: bool, best: real, last: LinkId, near: LinkId,
                   l: LinkId, c: real)
    requires Progress(s, done, limit, found, best, last, near)
    requires IsStopLink(s, l) && l !in done && c < best && c + s.links[l].length <= limit
    requires Leads(s, l, l) && forall k | k in done :: NotAfter(s, done[k], k, c, l)
    ensures found ==> near in done && near in s.links
    ensures Progress(s, done[l := c], limit, true, c + s.links[l].length, l, Nearer(s, done, found, near, l, c))
  {
    hide Leads, Passed;
    var done' := done[l := c];
    assert Settled(s, done', limit, l);
    forall k | k != l
      ensures Settled(s, done', limit, k) <==> Settled(s, done, limit, k)
    {
    }
    forall k | Settled(s, done', limit, k) && k != l
      ensures Passed(s, done', limit, k)
    {
      StopPasses(s, done, limit, last, k, l, c);
    }
  }

  lemma StopPasses(s: Search, done: map<LinkId, real>, limit: real, last: LinkId, k: LinkId, l: LinkId, c: real)
    requires Settled(s, done, limit, k) && l !in done && Settled(s, done[l := c], limit, l)
    requires k == last ==> NotAfter(s, done[k], k, c, l) && c < done[k] + s.links[k].length
    requires k != last ==> Passed(s, done, limit, k)
    ensures Passed(s, done[l := c], limit, k)
  {
    hide NotAfter;
    var done' := done[l := c];
    if k == last {
      assert Settled(s, done', limit, l) && NotAfter(s, done'[k], k, done'[l], l);
    } else {
      var j :| Settled(s, done, limit, j) && j != k && NotAfter(s, done[k], k, done[j], j)
          && done[j] < done[k] + s.links[k].length;
      assert Settled(s, done', limit, j);
    }
  }

  lemma SettleOther(s: Search, done: map<LinkId, real>, limit: real, found: bool, best: real, last: LinkId,
                    near: LinkId,
                    l: LinkId, c: real)
    requires Progress(s, done, limit, found, best, last, near)
    requires l in s.links && l !in done
    requires c + s.links[l].length > limit || s.links[l].toNode !in s.blocked
    ensures Progress(s, done[l := c], limit, found, best, last, near)
  {
    hide NotAfter;
    var done' := done[l := c];
    forall k
      ensures Settled(s, done', limit, k) <==> Settled(s, done, limit, k)
    {
    }
    if found {
      forall k | Settled(s, done', limit, k) && k != last
        ensures Passed(s, done', limit, k)
      {
        var j :| Settled(s, done, limit, j) && j != k && NotAfter(s, done[k], k, done[j], j)
            && done[j] < done[k] + s.links[k].length;
        assert Settled(s, done', limit, j);
      }
    }
  }

  /** An arrival within the horizon has been labelled. */
  lemma ArrivalSettled(s: Search, done: map<LinkId, real>, limit: real, cut: real, w: Walk, k: LinkId)
    requires Searching(s, [], done, limit, cut)
    requires Arrival(s, limit, w, k) && Cost(s, w) < cut
    ensures k in done && done[k] <= Cost(s, w) && Settled(s, done, limit, k) && Candidate(s, limit, k, done[k])
  {
    DryQueueIsComplete(s, done, limit, cut, w, k);
    LabelIsFinal(s, [], done, limit, cut, k);
  }

  lemma CandidateSettled(s: Search, done: map<LinkId, real>, limit: real, cut: real, k: LinkId, c: real)
    requires Searching(s, [], done, limit, cut)
    requires Candidate(s, limit, k, c) && c < cut
    ensures Settled(s, done, limit, k) && done[k] == c
  {
    var w :| Reaches(s, w, k) && Cost(s, w) == c;
    ArrivalSettled(s, done, limit, cut, w, k);
    LabelsAreUnique(s, k, c, done[k]);
  }

  /** Whatever is labelled no later than a settled link has been labelled. */
  lemma EarlierSettled(s: Search, done: map<LinkId, real>, limit: real, cut: real, last: LinkId, k: LinkId, c: real)
    requires Searching(s, [], done, limit, cut) && Settled(s, done, limit, last) && done[last] <= cut
    requires Candidate(s, limit, k, c) && NotAfter(s, c, k, done[last], last)
    ensures Settled(s, done, limit, k) && done[k] == c
  {
    hide IsLabel, Leads, NoLater, Frontier, QueueSound, DoneExact;
    if c < cut {
      CandidateSettled(s, done, limit, cut, k, c);
    } else {
      if k !in done {
        LeadsIsAntisymmetric(s, k, last);
      }
      LabelIsFinal(s, [], done, limit, cut, k);
      LabelsAreUnique(s, k, c, done[k]);
    }
  }

  lemma PassedIsFollowed(s: Search, done: map<LinkId, real>, limit: real, cut: real, k: LinkId)
    requires Searching(s, [], done, limit, cut) && Settled(s, done, limit, k) && Passed(s, done, limit, k)
    ensures Followed(s, limit, k, done[k])
  {
    hide IsLabel, Searching, NotAfter;
    var j :| Settled(s, done, limit, j) && j != k && NotAfter(s, done[k], k, done[j], j)
        && done[j] < done[k] + s.links[k].length;
    LabelIsFinal(s, [], done, limit, cut, j);
    assert Candidate(s, limit, j, done[j]);
  }

  lemma SettledIsCandidate(s: Search, done: map<LinkId, real>, limit: real, cut: real, k: LinkId)
    requires Searching(s, [], done, limit, cut) && Settled(s, done, limit, k)
    ensures Candidate(s, limit, k, done[k])
  {
    LabelIsFinal(s, [], done, limit, cut, k);
  }

  lemma FinishFound(s: Search, done: map<LinkId, real>, limit: real, cut: real, best: real, last: LinkId, near: LinkId)
    requires Searching(s, [], done, limit, cut) && best <= cut
    requires Progress(s, done, limit, true, best, last, near)
    ensures last in done && near in done
    ensures StopOutcome(s, limit, best, last, near, done[last], done[near])
    ensures exists w, k :: Arrival(s, limit, w, k) && Cost(s, w) < FAR_AWAY
  {
    hide Searching, IsLabel, NotAfter, Candidate, Arrival, Passed, Followed;
    LengthsOf(s, [], done, limit, cut);
    SettledIsCandidate(s, done, limit, cut, last);
    forall k, c | Candidate(s, limit, k, c) && c < best
      ensures Settled(s, done, limit, k) && done[k] == c
    {
      CandidateSettled(s, done, limit, cut, k, c);
    }
    forall w, k | Arrival(s, limit, w, k) && Cost(s, w) < best
      ensures exists c :: Candidate(s, limit, k, c) && c <= Cost(s, w)
    {
      ArrivalSettled(s, done, limit, cut, w, k);
    }
    forall k, c | Candidate(s, limit, k, c) && NotAfter(s, c, k, done[last], last) && k != last
      ensures k in s.links && Followed(s, limit, k, c)
    {
      EarlierSettled(s, done, limit, cut, last, k, c);
      PassedIsFollowed(s, done, limit, cut, k);
    }
    NearIsMinimal(s, done, limit, cut, best, last, near);
    OverwrittenStraddles(s, done, limit, cut, best, last, near);
    FoundWithin(s, done, limit, cut, best, last, near);
  }

  lemma LengthsOf(s: Search, queue: seq<Entry>, done: map<LinkId, real>, limit: real, cut: real)
    requires Searching(s, queue, done, limit, cut)
    ensures NonNegative(s.links)
  {
  }

  lemma NearIsMinimal(s: Search, done: map<LinkId, real>, limit: real, cut: real, best: real, last: LinkId,
                      near: LinkId)
    requires Searching(s, [], done, limit, cut) && best <= cut && Progress(s, done, limit, true, best, last, near)
    ensures Minimal(s, limit, near, done[near])
  {
    hide IsLabel, NotAfter, Passed;
    LengthsOf(s, [], done, limit, cut);
    hide Searching;
    SettledIsCandidate(s, done, limit, cut, near);
    forall k, c | Candidate(s, limit, k, c)
      ensures done[near] + s.links[near].length <= c + s.links[k].length
    {
      if c < best {
        CandidateSettled(s, done, limit, cut, k, c);
      }
    }
  }

  lemma OverwrittenStraddles(s: Search, done: map<LinkId, real>, limit: real, cut: real, best: real, last: LinkId,
                             near: LinkId)
    requires Searching(s, [], done, limit, cut) && Progress(s, done, limit, true, best, last, near)
    ensures best == done[near] + s.links[near].length || exists b, cb :: Straddles(s, limit, near, done[near], b, cb)
  {
    hide Searching, IsLabel, NotAfter, Passed;
    if best != done[near] + s.links[near].length {
      var b :| Settled(s, done, limit, b) && NotAfter(s, done[near], near, done[b], b)
               && done[b] < done[near] + s.links[near].length < done[b] + s.links[b].length;
      SettledIsCandidate(s, done, limit, cut, b);
      assert Straddles(s, limit, near, done[near], b, done[b]);
    }
  }

  lemma FoundWithin(s: Search, done: map<LinkId, real>, limit: real, cut: real, best: real, last: LinkId, near: LinkId)
    requires Searching(s, [], done, limit, cut) && Progress(s, done, limit, true, best, last, near)
    ensures exists w, k :: Arrival(s, limit, w, k) && Cost(s, w) < FAR_AWAY
  {
    hide Searching, NotAfter, Passed;
    var l :| Settled(s, done, limit, l) && done[l] < FAR_AWAY;
    SettledIsCandidate(s, done, limit, cut, l);
    var w :| Reaches(s, w, l) && Cost(s, w) == done[l];
    assert Arrival(s, limit, w, l);
  }

  lemma FinishEmpty(s: Search, done: map<LinkId, real>, limit: real, cut: real, best: real, last: LinkId, near: LinkId)
    requires Searching(s, [], done, limit, cut) && FAR_AWAY <= cut
    requires Progress(s, done, limit, false, best, last, near)
    ensures forall w, k :: !(Arrival(s, limit, w, k) && Cost(s, w) < FAR_AWAY)
  {
    forall w, k | Arrival(s, limit, w, k) && Cost(s, w) < FAR_AWAY
      ensures false
    {
      ArrivalSettled(s, done, limit, cut, w, k);
    }
  }

  /** Nothing leaves the start node, so nothing is reached. */
  lemma NoArrival(s: Search, limit: real)
    requires forall l | l in s.links :: s.links[l].fromNode != s.start
    ensures forall w, k :: !Arrival(s, limit, w, k)
  {
    forall w, k | Arrival(s, limit, w, k)
      ensures false
    {
      FirstLinkLeavesStart(s, Along(w, k));
    }
  }

  // ---------------------------------------------------------------- what the outcome means

  /** The answer is the length of a walk that meets its first stop line at the end of `last`. */
  lemma AnswerIsAWalk(s: Search, limit: real, d: real, last: LinkId, near: LinkId, cl: real, cn: real)
    requires StopOutcome(s, limit, d, last, near, cl, cn)
    ensures exists w :: Arrival(s, limit, w, last) && Cost(s, Along(w, last)) == d
  {
    CandidateArrives(s, limit, last, cl);
  }

  lemma CandidateArrives(s: Search, limit: real, l: LinkId, c: real)
    requires Candidate(s, limit, l, c)
    ensures exists w :: Arrival(s, limit, w, l) && Cost(s, Along(w, l)) == c + s.links[l].length
  {
    var w :| Reaches(s, w, l) && Cost(s, w) == c;
    assert Arrival(s, limit, w, l) && Cost(s, Along(w, l)) == c + s.links[l].length;
  }

  /** Any walk that ends at a stop line in range passes its first stop line at least as early. */
  lemma {:induction false} FirstStopIsAnArrival(s: Search, limit: real, w: Walk) returns (p: Walk, l: LinkId)
    requires NonNegative(s.links) && IsWalk(s, w) && w.Along? && EndNode(s, w) in s.blocked && Cost(s, w) <= limit
    ensures Arrival(s, limit, p, l) && Cost(s, Along(p, l)) <= Cost(s, w)
  {
    if IsOpen(s, w.prefix) {
      return w.prefix, w.link;
    }
    var v := ClosedPrefix(s, w.prefix);
    p, l := FirstStopIsAnArrival(s, limit, v);
  }

  lemma {:induction false} ClosedPrefix(s: Search, w: Walk) returns (v: Walk)
    requires NonNegative(s.links) && IsWalk(s, w) && !IsOpen(s, w)
    ensures IsWalk(s, v) && v.Along? && EndNode(s, v) in s.blocked && Cost(s, v) <= Cost(s, w)
    ensures v == w || v < w
  {
    if EndNode(s, w) in s.blocked {
      return w;
    }
    v := ClosedPrefix(s, w.prefix);
  }

  lemma NearestIsMinimal(s: Search, limit: real, d: real, last: LinkId, near: LinkId, cl: real, cn: real)
    requires NonNegative(s.links) && StopOutcome(s, limit, d, last, near, cl, cn)
    ensures IsNearest(s, limit, d) <==> d == cn + s.links[near].length
  {
    if IsNearest(s, limit, d) {
      var w :| Reaches(s, w, near) && Cost(s, w) == cn;
      assert Arrival(s, limit, w, near);
    }
  }

  /** The answer is the nearest stop line exactly when no farther stop link starts short of the nearest one and
      is labelled after it, which makes the search overwrite the better answer with the worse one. */
  lemma NearestUnlessOvershadowed(s: Search, limit: real, d: real, last: LinkId, near: LinkId, cl: real, cn: real)
    requires NonNegative(s.links) && StopOutcome(s, limit, d, last, near, cl, cn)
    ensures IsNearest(s, limit, d) <==> !Overshadowed(s, limit)
  {
    hide NotAfter, IsNearest, StopOutcome;
    if !IsNearest(s, limit, d) {
      NotNearestIsOvershadowed(s, limit, d, last, near, cl, cn);
    }
    if Overshadowed(s, limit) {
      var b, cb, m, cm :| Minimal(s, limit, m, cm) && Straddles(s, limit, m, cm, b, cb)
                          && forall k, c | Minimal(s, limit, k, c) :: NotAfter(s, c, k, cb, b);
      OvershadowingMisses(s, limit, d, last, near, cl, cn, m, cm, b, cb);
    }
  }

  lemma NotNearestIsOvershadowed(s: Search, limit: real, d: real, last: LinkId, near: LinkId, cl: real, cn: real)
    requires NonNegative(s.links) && StopOutcome(s, limit, d, last, near, cl, cn)
    requires !IsNearest(s, limit, d)
    ensures Overshadowed(s, limit)
  {
    hide IsLabel, Arrival, IsNearest;
    NearestIsMinimal(s, limit, d, last, near, cl, cn);
    var b, cb :| Straddles(s, limit, near, cn, b, cb);
    forall k, c | Minimal(s, limit, k, c)
      ensures NotAfter(s, c, k, cb, b)
    {
      assert Candidate(s, limit, near, cn) && Candidate(s, limit, k, c) && Candidate(s, limit, last, cl);
      assert c < d;
      NotAfterIsTransitive(s, c, k, cn, near, cb, b);
    }
  }

  lemma OvershadowingMisses(s: Search, limit: real, d: real, last: LinkId, near: LinkId, cl: real, cn: real,
                            m: LinkId, cm: real, b: LinkId, cb: real)
    requires NonNegative(s.links) && StopOutcome(s, limit, d, last, near, cl, cn)
    requires Minimal(s, limit, m, cm) && Straddles(s, limit, m, cm, b, cb)
    requires forall k, c | Minimal(s, limit, k, c) :: NotAfter(s, c, k, cb, b)
    ensures !IsNearest(s, limit, d)
  {
    hide IsLabel, Arrival, IsNearest, Leads;
    NearestIsMinimal(s, limit, d, last, near, cl, cn);
    assert cm + s.links[m].length == cn + s.links[near].length by {
      assert Candidate(s, limit, m, cm) && Candidate(s, limit, near, cn);
    }
    assert Candidate(s, limit, b, cb) && !Minimal(s, limit, b, cb);
    if d == cn + s.links[near].length {
      NotAfterIsAntisymmetric(s, cb, b, cl, last);
      assert false;
    }
  }

  lemma NotAfterIsAntisymmetric(s: Search, c: real, k: LinkId, c': real, k': LinkId)
    requires NotAfter(s, c, k, c', k') && NotAfter(s, c', k', c, k)
    ensures c == c' && k == k'
  {
    hide Leads;
    LeadsIsAntisymmetric(s, k, k');
  }

  lemma NotAfterIsTotal(s: Search, c: real, k: LinkId, c': real, k': LinkId)
    requires NonNegative(s.links) && IsLabel(s, k, c) && IsLabel(s, k', c')
    ensures NotAfter(s, c, k, c', k') || NotAfter(s, c', k', c, k)
  {
    hide Leads;
    var v :| Reaches(s, v, k) && Cost(s, v) == c;
    var u :| Reaches(s, u, k') && Cost(s, u) == c';
    LeadsIsTotal(s, v, k, u, k');
  }

  /** The outcome determines the answer: the link it comes from, and the distance. */
  lemma AnswerIsUnique(s: Search, limit: real, d: real, last: LinkId, near: LinkId, cl: real, cn: real,
                       d': real, last': LinkId, near': LinkId, cl': real, cn': real)
    requires NonNegative(s.links)
    requires StopOutcome(s, limit, d, last, near, cl, cn) && StopOutcome(s, limit, d', last', near', cl', cn')
    ensures last == last' && d == d'
  {
    hide NotAfter, IsLabel;
    LastIsUnique(s, limit, d, last, near, cl, cn, d', last', near', cl', cn') by {
      hide StopOutcome;
    }
    LabelsAreUnique(s, last, cl, cl');
  }

  lemma LastIsUnique(s: Search, limit: real, d: real, last: LinkId, near: LinkId, cl: real, cn: real,
                     d': real, last': LinkId, near': LinkId, cl': real, cn': real)
    requires NonNegative(s.links)
    requires StopOutcome(s, limit, d, last, near, cl, cn) && StopOutcome(s, limit, d', last', near', cl', cn')
    ensures last == last'
  {
    hide NotAfter, IsLabel, Minimal;
    NotAfterIsTotal(s, cl, last, cl', last');
    if last != last' {
      if NotAfter(s, cl, last, cl', last') {
        FollowedIsNotLast(s, limit, d, last, near, cl, cn);
      } else {
        FollowedIsNotLast(s, limit, d', last', near', cl', cn');
      }
    }
  }

  lemma FollowedIsNotLast(s: Search, limit: real, d: real, last: LinkId, near: LinkId, cl: real, cn: real)
    requires StopOutcome(s, limit, d, last, near, cl, cn)
    ensures !Followed(s, limit, last, cl)
  {
    hide IsLabel, Minimal, Leads;
    if Followed(s, limit, last, cl) {
      var j, cj :| Candidate(s, limit, j, cj) && j != last && NotAfter(s, cl, last, cj, j)
                   && cj < cl + s.links[last].length;
      NotAfterIsAntisymmetric(s, cl, last, cj, j);
      assert false;
    }
  }

  /** A stop line 5 ahead, and one 11 ahead whose link starts 1 ahead. */
  const OVERSHADOWED_LINKS :=
    map["from" := Link("from", "S", "A", 4.0), "near" := Link("near", "A", "P", 5.0),
        "hop" := Link("hop", "A", "B", 1.0),
        "far" := Link("far", "B", "Q", 10.0)]

  /** The search of a query from the end of link "from". */
  function OvershadowedMap(): Search { StopQuery(OVERSHADOWED_LINKS, {"P", "Q"}, "from", 4.0) }

  lemma OvershadowedLabels(k: LinkId, c: real)
    requires Candidate(OvershadowedMap(), 100.0, k, c)
    ensures (k == "near" && c == 0.0) || (k == "far" && c == 1.0)
  {
    var s := OvershadowedMap();
    if k == "near" {
      assert Reaches(s, Here, "near");
      var w :| Reaches(s, w, k) && Cost(s, w) == c;
      CostAtLeastBase(s, w);
    } else {
      assert Reaches(s, Along(Here, "hop"), "far");
      var w :| Reaches(s, w, k) && Cost(s, w) == c;
      CostAtLeastBase(s, w.prefix);
    }
  }

  lemma OvershadowedFarLabel()
    ensures Candidate(OvershadowedMap(), 100.0, "far", 1.0)
  {
    var s := OvershadowedMap();
    assert Reaches(s, Along(Here, "hop"), "far");
    forall w | Reaches(s, w, "far")
      ensures 1.0 <= Cost(s, w)
    {
      CostAtLeastBase(s, w.prefix);
    }
  }

  /** The answer need not be the nearest stop line: here it is 11, and a stop line lies 5 ahead. */
  lemma AnswerNotAlwaysNearest(d: real, last: LinkId, near: LinkId, cl: real, cn: real)
    requires StopOutcome(OvershadowedMap(), 100.0, d, last, near, cl, cn)
    ensures d == 11.0 && Arrival(OvershadowedMap(), 100.0, Here, "near")
    ensures Cost(OvershadowedMap(), Along(Here, "near")) == 5.0
  {
    OvershadowedLabels(last, cl);
    OvershadowedFarLabel();
    assert Reaches(OvershadowedMap(), Here, "near");
  }

  // ---------------------------------------------------------------- a variant of the source

  // What the search would keep if it compared before overwriting: a stop link replaces the answer only when it ends
  // nearer than the best distance so far. The source does not compare.

  ghost predicate Guarded(s: Search, done: map<LinkId, real>, limit: real, found: bool, best: real, last: LinkId) {
    && (forall l | Settled(s, done, limit, l) :: best <= done[l] + s.links[l].length)
    && (if found then Settled(s, done, limit, last) && best == done[last] + s.links[last].length && best < FAR_AWAY
        else best == FAR_AWAY)
  }

  lemma GuardedStart(s: Search, limit: real)
    ensures Guarded(s, map[], limit, false, FAR_AWAY, "")
  {
  }

  /** Labelling a stop link in range with the comparison in place. */
  lemma GuardedSettle(s: Search, done: map<LinkId, real>, limit: real, found: bool, best: real, last: LinkId, l: LinkId,
                      c: real)
    requires Guarded(s, done, limit, found, best, last)
    requires IsStopLink(s, l) && l !in done && c + s.links[l].length <= limit
    ensures var end := c + s.links[l].length;
            if end < best then Guarded(s, done[l := c], limit, true, end, l)
                else Guarded(s, done[l := c], limit, found, best, last)
  {
    var done' := done[l := c];
    assert Settled(s, done', limit, l);
    forall k | k != l
      ensures Settled(s, done', limit, k) <==> Settled(s, done, limit, k)
    {
    }
  }

  lemma GuardedOther(s: Search, done: map<LinkId, real>, limit: real, found: bool, best: real, last: LinkId, l: LinkId,
                     c: real)
    requires Guarded(s, done, limit, found, best, last) && l in s.links && l !in done
    requires c + s.links[l].length > limit || s.links[l].toNode !in s.blocked
    ensures Guarded(s, done[l := c], limit, found, best, last)
  {
    forall k
      ensures Settled(s, done[l := c], limit, k) <==> Settled(s, done, limit, k)
    {
    }
  }

  /** When the queue of the variant runs dry, its answer is the nearest stop line, on every map; without an answer
      the initial best distance is a lower bound. */
  lemma GuardedIsNearest(s: Search, done: map<LinkId, real>, limit: real, cut: real, found: bool, best: real,
                         last: LinkId)
    requires Searching(s, [], done, limit, cut) && best <= cut && Guarded(s, done, limit, found, best, last)
    ensures IsNearest(s, limit, best)
    ensures if found then exists w :: Arrival(s, limit, w, last) && Cost(s, Along(w, last)) == best
            else best == FAR_AWAY
  {
    LengthsOf(s, [], done, limit, cut);
    hide Searching, NotAfter, IsLabel;
    forall w, k | Arrival(s, limit, w, k)
      ensures best <= Cost(s, Along(w, k))
    {
      if Cost(s, w) < cut {
        ArrivalSettled(s, done, limit, cut, w, k);
      }
    }
    if found {
      SettledIsCandidate(s, done, limit, cut, last);
      CandidateArrives(s, limit, last, done[last]);
    }
  }

  /** The variant answers exactly when a stop line in range lies nearer than the initial best distance. */
  lemma GuardedAnswers(s: Search, done: map<LinkId, real>, limit: real, found: bool, best: real, last: LinkId)
    requires Guarded(s, done, limit, found, best, last) && IsNearest(s, limit, best)
    requires found ==> exists w :: Arrival(s, limit, w, last) && Cost(s, Along(w, last)) == best
    ensures found <==> exists w, l :: Arrival(s, limit, w, l) && Cost(s, Along(w, l)) < FAR_AWAY
  {
  }
}
