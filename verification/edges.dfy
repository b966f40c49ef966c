/** The edge store: an ordered map from (source, target) to weight.

    Keys are ordered first by source and then by target, so the edges that
    leave one node form a contiguous range of the map. `degree` and
    `neighbors` scan that range in ascending target order; here the range is
    the set of targets of a source, enumerated from its least element up.

    The source stops its scan by comparing against the key at
    `lower_bound({n+1, 0})`, which it dereferences even when that bound is
    the end of the map (undefined behaviour for the last source). The model
    is the plain range scan the comparison evidently means. */
module EdgeStore {

  type Key = (nat, nat)
  type Links = map<Key, real>

  /** The targets of the stored edges whose source is `n`. */
  function Targets(links: Links, n: nat): (r: set<nat>)
    ensures forall t :: t in r <==> (n, t) in links
  {
    var r := set k | k in links.Keys && k.0 == n :: k.1;
    assert forall t :: (n, t) in links ==> t in r by {
      forall t | (n, t) in links ensures t in r {
        var k := (n, t);
        assert k in links.Keys && k.0 == n;
      }
    }
    r
  }

  /** `m` is the least element of `s`. */
  predicate IsLeast(m: nat, s: set<nat>)
  {
    m in s && forall x :: x in s ==> m <= x
  }

  lemma {:induction false} LeastExists(s: set<nat>)
    requires s != {}
    ensures exists m :: IsLeast(m, s)
  {
    var y :| y in s;
    var rest := s - {y};
    if rest == {} {
      forall x | x in s ensures y <= x {
        assert x !in rest;
      }
      assert IsLeast(y, s);
    } else {
      LeastExists(rest);
      var m :| IsLeast(m, rest);
      var least := if y < m then y else m;
      forall x | x in s ensures least <= x {
        if x != y { assert x in rest; }
      }
      assert IsLeast(least, s);
    }
  }

  /** The least element of a non-empty set of indices. */
  function Least(s: set<nat>): (m: nat)
    requires s != {}
    ensures m in s
    ensures forall x :: x in s ==> m <= x
  {
    LeastExists(s);
    var m :| IsLeast(m, s);
    m
  }

  /** The elements of `s` in strictly ascending order. */
  function Ascending(s: set<nat>): (r: seq<nat>)
    ensures |r| == |s|
    ensures forall i :: 0 <= i < |r| ==> r[i] in s
    ensures forall i, j :: 0 <= i < j < |r| ==> r[i] < r[j]
    decreases |s|
  {
    if s == {} then []
    else
      var m := Least(s);
      [m] + Ascending(s - {m})
  }

  /** Every element of `s` is listed by `Ascending(s)`. */
  lemma {:induction false} AscendingCovers(s: set<nat>)
    ensures forall x :: x in s ==> x in Ascending(s)
    decreases |s|
  {
    if s != {} {
      var m := Least(s);
      AscendingCovers(s - {m});
      assert Ascending(s) == [m] + Ascending(s - {m});
    }
  }

  /** The (target, weight) pairs of the listed targets of `n`. */
  function Pairs(links: Links, n: nat, ts: seq<nat>): (r: seq<(nat, real)>)
    requires forall i :: 0 <= i < |ts| ==> (n, ts[i]) in links
    ensures |r| == |ts|
    ensures forall i :: 0 <= i < |r| ==> r[i] == (ts[i], links[(n, ts[i])])
  {
    if ts == [] then [] else [(ts[0], links[(n, ts[0])])] + Pairs(links, n, ts[1..])
  }

  /** `neighbors(n)`: the out-edges of `n` as (target, weight), by ascending target. */
  function Neighbors(links: Links, n: nat): (r: seq<(nat, real)>)
    ensures |r| == |Targets(links, n)|
    ensures forall i, j :: 0 <= i < j < |r| ==> r[i].0 < r[j].0
    ensures forall i :: 0 <= i < |r| ==> (n, r[i].0) in links && links[(n, r[i].0)] == r[i].1
    ensures forall t :: (n, t) in links ==> exists i :: 0 <= i < |r| && r[i].0 == t
  {
    var ts := Ascending(Targets(links, n));
    AscendingCovers(Targets(links, n));
    Pairs(links, n, ts)
  }

  /** Sum of the weights of a list of (target, weight) pairs. */
  function WeightSum(ps: seq<(nat, real)>): real
  {
    if ps == [] then 0.0 else ps[0].1 + WeightSum(ps[1..])
  }

  /** One pass over the listed targets of `n`, counting edges and adding weights. */
  function Tally(links: Links, n: nat, ts: seq<nat>): (nat, real)
    requires forall i :: 0 <= i < |ts| ==> (n, ts[i]) in links
  {
    if ts == [] then (0, 0.0)
    else
      var rest := Tally(links, n, ts[1..]);
      (rest.0 + 1, links[(n, ts[0])] + rest.1)
  }

  /** `degree(n)`: (number of out-edges of `n`, sum of their stored weights). */
  function Degree(links: Links, n: nat): (d: (nat, real))
    ensures d.0 == |Targets(links, n)|
  {
    TallyCount(links, n, Ascending(Targets(links, n)));
    Tally(links, n, Ascending(Targets(links, n)))
  }

  lemma {:induction false} TallyCount(links: Links, n: nat, ts: seq<nat>)
    requires forall i :: 0 <= i < |ts| ==> (n, ts[i]) in links
    ensures Tally(links, n, ts).0 == |ts|
  {
    if ts != [] {
      TallyCount(links, n, ts[1..]);
    }
  }

  lemma {:induction false} TallyIsPairSum(links: Links, n: nat, ts: seq<nat>)
    requires forall i :: 0 <= i < |ts| ==> (n, ts[i]) in links
    ensures Tally(links, n, ts) == (|Pairs(links, n, ts)|, WeightSum(Pairs(links, n, ts)))
  {
    if ts != [] {
      TallyIsPairSum(links, n, ts[1..]);
      assert Pairs(links, n, ts)[1..] == Pairs(links, n, ts[1..]);
    }
  }

  /** The degree and the neighbour list of a node always agree: the count is
      the length of the list and the weight is the sum of its weights. */
  lemma DegreeMatchesNeighbors(links: Links, n: nat)
    ensures Degree(links, n) == (|Neighbors(links, n)|, WeightSum(Neighbors(links, n)))
  {
    TallyIsPairSum(links, n, Ascending(Targets(links, n)));
  }

  /** Tally only looks at the weights of the targets it is given. */
  lemma {:induction false} TallyFrame(links: Links, links': Links, n: nat, ts: seq<nat>)
    requires forall i :: 0 <= i < |ts| ==> (n, ts[i]) in links && (n, ts[i]) in links'
    requires forall i :: 0 <= i < |ts| ==> links[(n, ts[i])] == links'[(n, ts[i])]
    ensures Tally(links, n, ts) == Tally(links', n, ts)
  {
    if ts != [] {
      TallyFrame(links, links', n, ts[1..]);
    }
  }

  lemma TallyCons(links: Links, n: nat, m: nat, tail: seq<nat>)
    requires (n, m) in links
    requires forall i :: 0 <= i < |tail| ==> (n, tail[i]) in links
    ensures Tally(links, n, [m] + tail).1 == links[(n, m)] + Tally(links, n, tail).1
  {
    assert ([m] + tail)[1..] == tail;
  }

  /** Taking any target `b` out of the scan of `s` takes exactly its weight
      out of the tallied sum, wherever `b` sits in the order. */
  lemma {:induction false} TallyRemove(links: Links, n: nat, s: set<nat>, b: nat)
    requires b in s
    requires forall t :: t in s ==> (n, t) in links
    ensures Tally(links, n, Ascending(s)).1 == links[(n, b)] + Tally(links, n, Ascending(s - {b})).1
    decreases |s|
  {
    var m := Least(s);
    TallyUnfold(links, n, s, m);
    if m != b {
      TallyRemove(links, n, s - {m}, b);
      assert IsLeast(m, s - {b});
      TallyUnfold(links, n, s - {b}, m);
      assert s - {m} - {b} == s - {b} - {m};
    }
  }

  /** Peeling the least target `m` off the front of the scan of `s`. */
  lemma TallyUnfold(links: Links, n: nat, s: set<nat>, m: nat)
    requires forall t :: t in s ==> (n, t) in links
    requires IsLeast(m, s)
    ensures Tally(links, n, Ascending(s)).1 == links[(n, m)] + Tally(links, n, Ascending(s - {m})).1
  {
    assert Least(s) == m;
    assert Ascending(s) == [m] + Ascending(s - {m});
    TallyCons(links, n, m, Ascending(s - {m}));
  }

  /** Inserting a new edge (a, b) of weight w raises a's degree by exactly
      one edge and w. */
  lemma DegreeAfterInsert(links: Links, a: nat, b: nat, w: real)
    requires (a, b) !in links
    ensures Degree(links[(a, b) := w], a) == (Degree(links, a).0 + 1, Degree(links, a).1 + w)
  {
    var links' := links[(a, b) := w];
    TargetsAfterInsert(links, a, b, w);
    TallyRemove(links', a, Targets(links', a), b);
    TallyAfterInsert(links, a, b, w);
  }

  /** Inserting a new edge (a, b) adds exactly `b` to the targets of `a`. */
  lemma TargetsAfterInsert(links: Links, a: nat, b: nat, w: real)
    requires (a, b) !in links
    ensures b in Targets(links[(a, b) := w], a)
    ensures Targets(links[(a, b) := w], a) - {b} == Targets(links, a)
    ensures |Targets(links[(a, b) := w], a)| == |Targets(links, a)| + 1
  {
    var s := Targets(links, a);
    var s' := Targets(links[(a, b) := w], a);
    assert s' - {b} == s;
    assert b !in s;
    assert s' == s + {b};
  }

  /** The old targets of `a` keep their weights after a new edge (a, b) is
      inserted, so their tally is unchanged. */
  lemma TallyAfterInsert(links: Links, a: nat, b: nat, w: real)
    requires (a, b) !in links
    ensures var ts := Ascending(Targets(links, a));
            Tally(links[(a, b) := w], a, ts) == Tally(links, a, ts)
  {
    var links' := links[(a, b) := w];
    var s := Targets(links, a);
    forall t | t in s ensures (a, t) in links' && links[(a, t)] == links'[(a, t)] {
    }
    TallyFrame(links, links', a, Ascending(s));
  }


  /** Inserting an edge out of `a` leaves the degree of every other node alone. */
  lemma DegreeOtherAfterInsert(links: Links, a: nat, b: nat, w: real, n: nat)
    requires n != a
    ensures Degree(links[(a, b) := w], n) == Degree(links, n)
  {
    var links' := links[(a, b) := w];
    assert Targets(links', n) == Targets(links, n);
    TallyFrame(links, links', n, Ascending(Targets(links, n)));
  }
}
