/** The order in which the priority queue of MGeoLoader's searches hands out its entries, pairs of a cost and a
    link name (map/mgeo_loader.cpp), and the order of the trails that decide between links of equal cost. */
module QueueOrder {
  type LinkId = string

  datatype Entry = Entry(cost: real, link: LinkId)

  /** The lexicographic order of link names, which decides among queue entries of equal cost. */
  predicate Precedes(a: LinkId, b: LinkId)
    decreases |a|
  {
    b != "" && (a == "" || a[0] < b[0] || (a[0] == b[0] && Precedes(a[1..], b[1..])))
  }

  lemma {:induction false} NeverPrecedesItself(a: LinkId)
    ensures !Precedes(a, a)
    decreases |a|
  {
    if a != "" {
      NeverPrecedesItself(a[1..]);
    }
  }

  lemma {:induction false} PrecedesIsTotal(a: LinkId, b: LinkId)
    ensures a == b || Precedes(a, b) || Precedes(b, a)
    ensures !(Precedes(a, b) && Precedes(b, a))
    decreases |a|
  {
    if a != "" && b != "" && a[0] == b[0] {
      PrecedesIsTotal(a[1..], b[1..]);
      assert a == [a[0]] + a[1..] && b == [b[0]] + b[1..];
    }
  }

  lemma {:induction false} PrecedesIsTransitive(a: LinkId, b: LinkId, c: LinkId)
    requires Precedes(a, b) && Precedes(b, c)
    ensures Precedes(a, c)
    decreases |a|
  {
    if a != "" && a[0] == b[0] && b[0] == c[0] {
      PrecedesIsTransitive(a[1..], b[1..], c[1..]);
    }
  }

  /** The weak order is transitive as well. */
  lemma NotBelow(a: LinkId, b: LinkId, c: LinkId)
    requires !Precedes(b, a) && !Precedes(c, b)
    ensures !Precedes(c, a)
  {
    PrecedesIsTotal(a, b);
    PrecedesIsTotal(b, c);
    PrecedesIsTotal(a, c);
    if a != b && b != c {
      PrecedesIsTransitive(a, b, c);
    }
  }

  /** The queue's order of its entries, first by cost and then by name. */
  predicate NotLater(e: Entry, f: Entry) {
    e.cost < f.cost || (e.cost == f.cost && !Precedes(f.link, e.link))
  }

  lemma NotLaterIsTransitive(e: Entry, f: Entry, g: Entry)
    requires NotLater(e, f) && NotLater(f, g)
    ensures NotLater(e, g)
  {
    if e.cost == f.cost == g.cost {
      NotBelow(e.link, f.link, g.link);
    }
  }

  // ---------------------------------------------------------------- trails

  /** The lexicographic order of trails of names. */
  predicate Before(a: seq<LinkId>, b: seq<LinkId>)
    decreases |a|
  {
    b != [] && (a == [] || Precedes(a[0], b[0]) || (a[0] == b[0] && Before(a[1..], b[1..])))
  }

  lemma {:induction false} NeverBeforeItself(a: seq<LinkId>)
    ensures !Before(a, a)
    decreases |a|
  {
    if a != [] {
      NeverPrecedesItself(a[0]);
      NeverBeforeItself(a[1..]);
    }
  }

  lemma {:induction false} BeforeIsTotal(a: seq<LinkId>, b: seq<LinkId>)
    ensures a == b || Before(a, b) || Before(b, a)
    ensures !(Before(a, b) && Before(b, a))
    decreases |a|
  {
    if a != [] && b != [] {
      PrecedesIsTotal(a[0], b[0]);
      NeverPrecedesItself(a[0]);
      BeforeIsTotal(a[1..], b[1..]);
      assert a == [a[0]] + a[1..] && b == [b[0]] + b[1..];
    }
  }

  lemma {:induction false} BeforeIsTransitive(a: seq<LinkId>, b: seq<LinkId>, c: seq<LinkId>)
    requires Before(a, b) && Before(b, c)
    ensures Before(a, c)
    decreases |a|
  {
    if a != [] {
      if Precedes(a[0], b[0]) && Precedes(b[0], c[0]) {
        PrecedesIsTransitive(a[0], b[0], c[0]);
      } else if a[0] == b[0] == c[0] && !Precedes(a[0], b[0]) && !Precedes(b[0], c[0]) {
        BeforeIsTransitive(a[1..], b[1..], c[1..]);
      }
    }
  }

  /** The part of a trail that a new name does not overtake. */
  function Kept(t: seq<LinkId>, l: LinkId): seq<LinkId> {
    if t == [] || Precedes(t[0], l) then [] else [t[0]] + Kept(t[1..], l)
  }

  /** No name of a trail comes before `l`. */
  ghost predicate AllFrom(t: seq<LinkId>, l: LinkId) {
    forall i | 0 <= i < |t| :: !Precedes(t[i], l)
  }

  lemma {:induction false} KeptFrom(t: seq<LinkId>, l: LinkId)
    ensures AllFrom(Kept(t, l) + [l], l)
  {
    NeverPrecedesItself(l);
    if t != [] && !Precedes(t[0], l) {
      KeptFrom(t[1..], l);
      var k := Kept(t[1..], l) + [l];
      assert Kept(t, l) + [l] == [t[0]] + k;
    }
  }

  /** Going on makes a trail later. */
  lemma {:induction false} GoingOnIsLater(t: seq<LinkId>, l: LinkId)
    ensures !Before(Kept(t, l) + [l], t)
    decreases |t|
  {
    var k := Kept(t, l) + [l];
    if t != [] {
      PrecedesIsTotal(t[0], l);
      NeverPrecedesItself(t[0]);
      if !Precedes(t[0], l) {
        GoingOnIsLater(t[1..], l);
        assert k[1..] == Kept(t[1..], l) + [l];
      }
    }
  }

  /** A trail that goes on to `l` from before a trail none of whose names comes before `l` is not after it. */
  lemma {:induction false} GoingOnFromBefore(a: seq<LinkId>, b: seq<LinkId>, l: LinkId)
    requires Before(a, b) && AllFrom(b, l)
    ensures !Before(b, Kept(a, l) + [l])
    decreases |a|
  {
    var k := Kept(a, l) + [l];
    PrecedesIsTotal(b[0], l);
    NeverPrecedesItself(b[0]);
    if a == [] || Precedes(a[0], l) {
      assert k[1..] == [];
    } else {
      assert k[1..] == Kept(a[1..], l) + [l];
      PrecedesIsTotal(a[0], b[0]);
      if a[0] == b[0] {
        GoingOnFromBefore(a[1..], b[1..], l);
      }
    }
  }

  lemma OneNameIsFirst(b: seq<LinkId>, l: LinkId)
    requires b != [] && AllFrom(b, l)
    ensures !Before(b, [l])
  {
    GoingOnFromBefore([], b, l);
  }
}
