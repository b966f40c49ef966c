/** Stochastic rewiring: `random_connect` throws away every edge and draws a
    new out-neighbourhood for each source node in turn.

    The random draws are inputs. For every source node there is one Poisson
    out-degree, one candidate order (the shuffled index vector) and one
    batch of strengths as long as that degree. */
module Rewiring {
  import opened Neurons
  import opened EdgeStore
  import opened Net

  datatype Draws = Draws(degrees: seq<nat>, order: seq<seq<nat>>, strengths: seq<seq<real>>)

  /** The draws have the shape `random_connect` produces for `size` neurons:
      one entry per node, every candidate order as long as the ensemble and
      every strength batch as long as that node's degree. */
  predicate Shaped(draws: Draws, size: nat)
  {
    && |draws.degrees| == size
    && |draws.order| == size
    && |draws.strengths| == size
    && (forall i :: 0 <= i < size ==> |draws.order[i]| == size)
    && (forall i :: 0 <= i < size ==> |draws.strengths[i]| == draws.degrees[i])
  }

  /** The outcome of rewiring: the network, the number of edges inserted and,
      for each source node, the targets it gained in insertion order. */
  datatype Rewired = Rewired(net: Network, count: nat, chosen: seq<seq<nat>>)

  predicate Distinct(xs: seq<nat>)
  {
    forall i, j :: 0 <= i < j < |xs| ==> xs[i] != xs[j]
  }

  /** `c` could become a new out-edge of `node`: both are neurons of the
      ensemble, they differ, and `c` is not yet linked from `node`. */
  predicate Fresh(net: Network, node: nat, c: nat)
  {
    node < |net.neurons| && c != node && c < |net.neurons| && (node, c) !in net.links
  }

  /** The candidates that are fresh for `node` in `net`, in candidate order,
      each at its first occurrence only. */
  function OpenOrder(net: Network, node: nat, cands: seq<nat>): seq<nat>
  {
    if cands == [] then []
    else
      var init := cands[..|cands| - 1];
      var c := cands[|cands| - 1];
      OpenOrder(net, node, init) + (if Fresh(net, node, c) && c !in init then [c] else [])
  }

  /** `a` is an initial segment of `b`. */
  predicate Prefix(a: seq<nat>, b: seq<nat>)
  {
    |a| <= |b| && a == b[..|a|]
  }

  /** Peeling the first candidate off: if it is fresh it comes first and is
      no longer fresh for the rest (as if linked, with any weight `w`);
      otherwise it contributes nothing. */
  lemma {:induction false} OpenOrderFront(net: Network, node: nat, c: nat, rest: seq<nat>, w: real)
    ensures OpenOrder(net, node, [c] + rest)
            == if Fresh(net, node, c)
               then [c] + OpenOrder(net.(links := net.links[(node, c) := w]), node, rest)
               else OpenOrder(net, node, rest)
    decreases |rest|
  {
    var net' := net.(links := net.links[(node, c) := w]);
    var all := [c] + rest;
    if rest == [] {
      assert all[..0] == [];
      assert OpenOrder(net, node, all) == OpenOrder(net, node, []) + (if Fresh(net, node, c) then [c] else []);
    } else {
      var init := rest[..|rest| - 1];
      var l := rest[|rest| - 1];
      assert all[..|all| - 1] == [c] + init;
      assert all[|all| - 1] == l;
      var tailAll := if Fresh(net, node, l) && l !in [c] + init then [l] else [];
      assert OpenOrder(net, node, all) == OpenOrder(net, node, [c] + init) + tailAll;
      OpenOrderFront(net, node, c, init, w);
      assert l in [c] + init <==> l == c || l in init;
      if Fresh(net, node, c) {
        assert Fresh(net', node, l) <==> Fresh(net, node, l) && l != c;
        var tail' := if Fresh(net', node, l) && l !in init then [l] else [];
        assert tail' == tailAll;
        assert OpenOrder(net', node, rest) == OpenOrder(net', node, init) + tail';
      } else {
        var tail := if Fresh(net, node, l) && l !in init then [l] else [];
        assert tail == tailAll;
        assert OpenOrder(net, node, rest) == OpenOrder(net, node, init) + tail;
      }
    }
  }

  /** The inner loop for one source node: walk the candidates in order and
      try `add_link(node, candidate, strength[nl])`; a strength is used up
      only by a successful insertion, and the walk stops once all of them
      are used. The second component lists the targets inserted. */
  function ConnectNode(d: Dynamics, net: Network, node: nat, cands: seq<nat>, strength: seq<real>, nl: nat): (r: (Network, seq<nat>))
    requires nl <= |strength|
    ensures r.0.neurons == net.neurons
    ensures nl + |r.1| <= |strength|
    ensures Distinct(r.1)
    ensures forall k :: 0 <= k < |r.1| ==>
              r.1[k] != node && r.1[k] < |net.neurons| && (node, r.1[k]) !in net.links && r.1[k] in cands
    decreases |cands|
  {
    if nl >= |strength| || cands == [] then (net, [])
    else
      var step := AddLink(d, net, node, cands[0], strength[nl]);
      if step.0 then
        var rest := ConnectNode(d, step.1, node, cands[1..], strength, nl + 1);
        (rest.0, [cands[0]] + rest.1)
      else
        ConnectNode(d, step.1, node, cands[1..], strength, nl)
  }

  /** Which targets the walk takes: the first fresh candidates in candidate
      order, as many as it takes. A strength below the threshold is refused
      and, never being used up, ends the walk's gains. */
  lemma {:induction false} ConnectNodeOrder(d: Dynamics, net: Network, node: nat, cands: seq<nat>, strength: seq<real>, nl: nat)
    requires nl <= |strength|
    ensures Prefix(ConnectNode(d, net, node, cands, strength, nl).1, OpenOrder(net, node, cands))
    ensures nl < |strength| && strength[nl] < MinStrength ==> ConnectNode(d, net, node, cands, strength, nl).1 == []
    decreases |cands|
  {
    if nl < |strength| && cands != [] {
      var step := AddLink(d, net, node, cands[0], strength[nl]);
      assert cands == [cands[0]] + cands[1..];
      if step.0 {
        OpenOrderFront(net, node, cands[0], cands[1..], Stored(d, net.neurons, cands[0], strength[nl]));
        ConnectNodeOrder(d, step.1, node, cands[1..], strength, nl + 1);
      } else {
        // Refused: either the candidate is not fresh, and it adds nothing to
        // the open order, or the strength is too weak, and it stays too weak.
        OpenOrderFront(net, node, cands[0], cands[1..], 0.0);
        ConnectNodeOrder(d, step.1, node, cands[1..], strength, nl);
      }
    }
  }

  /** The walk for one node adds exactly the edges from `node` to the
      targets it lists and no others, so the store grows by their number. */
  lemma {:induction false} ConnectNodeKeys(d: Dynamics, net: Network, node: nat, cands: seq<nat>, strength: seq<real>, nl: nat)
    requires nl <= |strength|
    ensures var r := ConnectNode(d, net, node, cands, strength, nl);
            forall key :: key in r.0.links <==> key in net.links || (key.0 == node && key.1 in r.1)
    ensures var r := ConnectNode(d, net, node, cands, strength, nl);
            |r.0.links| == |net.links| + |r.1|
    decreases |cands|
  {
    if nl < |strength| && cands != [] {
      var step := AddLink(d, net, node, cands[0], strength[nl]);
      ConnectNodeKeys(d, step.1, node, cands[1..], strength, if step.0 then nl + 1 else nl);
      if step.0 {
        assert step.1.links == net.links[(node, cands[0]) := Stored(d, net.neurons, cands[0], strength[nl])];
      }
    }
  }

  /** The walk for one node never changes the weight of an edge already stored. */
  lemma {:induction false} ConnectNodeKeeps(d: Dynamics, net: Network, node: nat, cands: seq<nat>, strength: seq<real>, nl: nat)
    requires nl <= |strength|
    ensures var r := ConnectNode(d, net, node, cands, strength, nl);
            forall key :: key in net.links ==> key in r.0.links && r.0.links[key] == net.links[key]
    decreases |cands|
  {
    if nl < |strength| && cands != [] {
      var step := AddLink(d, net, node, cands[0], strength[nl]);
      ConnectNodeKeeps(d, step.1, node, cands[1..], strength, if step.0 then nl + 1 else nl);
    }
  }

  /** The k-th edge the walk inserts carries the weight of strength `nl + k`. */
  lemma {:induction false} ConnectNodeWeight(d: Dynamics, net: Network, node: nat, cands: seq<nat>, strength: seq<real>, nl: nat, k: nat)
    requires nl <= |strength|
    requires k < |ConnectNode(d, net, node, cands, strength, nl).1|
    ensures var r := ConnectNode(d, net, node, cands, strength, nl);
            (node, r.1[k]) in r.0.links && r.0.links[(node, r.1[k])] == Stored(d, net.neurons, r.1[k], strength[nl + k])
    decreases |cands|
  {
    var step := AddLink(d, net, node, cands[0], strength[nl]);
    if step.0 {
      var rest := ConnectNode(d, step.1, node, cands[1..], strength, nl + 1);
      assert ConnectNode(d, net, node, cands, strength, nl) == (rest.0, [cands[0]] + rest.1);
      assert step.1.neurons == net.neurons;
      if k == 0 {
        ConnectNodeKeeps(d, step.1, node, cands[1..], strength, nl + 1);
        assert ([cands[0]] + rest.1)[0] == cands[0];
        assert step.1.links[(node, cands[0])] == Stored(d, net.neurons, cands[0], strength[nl]);
      } else {
        ConnectNodeWeight(d, step.1, node, cands[1..], strength, nl + 1, k - 1);
        assert ([cands[0]] + rest.1)[k] == rest.1[k - 1];
        assert nl + 1 + (k - 1) == nl + k;
      }
    } else {
      assert ConnectNode(d, net, node, cands, strength, nl) == ConnectNode(d, net, node, cands[1..], strength, nl);
      ConnectNodeWeight(d, net, node, cands[1..], strength, nl, k);
    }
  }

  /** The network after the outer loop has handled source nodes `0 .. m-1`,
      starting from the emptied edge store. */
  function Rewire(d: Dynamics, ns: seq<Neuron>, draws: Draws, m: nat): (r: Rewired)
    requires Shaped(draws, |ns|) && m <= |ns|
    ensures r.net.neurons == ns
    ensures |r.chosen| == m
    ensures forall i :: 0 <= i < m ==> |r.chosen[i]| <= draws.degrees[i] && Distinct(r.chosen[i])
    ensures forall i, k :: 0 <= i < m && 0 <= k < |r.chosen[i]| ==> r.chosen[i][k] != i && r.chosen[i][k] < |ns|
    decreases m
  {
    if m == 0 then Rewired(Network(ns, map[]), 0, [])
    else
      var prev := Rewire(d, ns, draws, m - 1);
      var one := ConnectNode(d, prev.net, m - 1, draws.order[m - 1], draws.strengths[m - 1], 0);
      Rewired(one.0, prev.count + |one.1|, prev.chosen + [one.1])
  }

  /** The running count is the number of edges in the store. */
  lemma {:induction false} RewireCount(d: Dynamics, ns: seq<Neuron>, draws: Draws, m: nat)
    requires Shaped(draws, |ns|) && m <= |ns|
    ensures Rewire(d, ns, draws, m).count == |Rewire(d, ns, draws, m).net.links|
    decreases m
  {
    if m > 0 {
      RewireCount(d, ns, draws, m - 1);
      var prev := Rewire(d, ns, draws, m - 1);
      ConnectNodeKeys(d, prev.net, m - 1, draws.order[m - 1], draws.strengths[m - 1], 0);
    }
  }

  /** After the first `m` source nodes, the store holds exactly the edges
      from each of them to the targets it gained. */
  lemma RewireKeys(d: Dynamics, ns: seq<Neuron>, draws: Draws, m: nat)
    requires Shaped(draws, |ns|) && m <= |ns|
    ensures var r := Rewire(d, ns, draws, m);
            forall key :: key in r.net.links <==> key.0 < m && key.1 in r.chosen[key.0]
  {
    forall key: Key
      ensures key in Rewire(d, ns, draws, m).net.links
              <==> key.0 < m && key.1 in Rewire(d, ns, draws, m).chosen[key.0]
    {
      RewireKey(d, ns, draws, m, key);
    }
  }

  /** One edge `key` is in the store after the first `m` source nodes exactly
      when its source is one of them and gained its target. */
  lemma {:induction false} RewireKey(d: Dynamics, ns: seq<Neuron>, draws: Draws, m: nat, key: Key)
    requires Shaped(draws, |ns|) && m <= |ns|
    ensures key in Rewire(d, ns, draws, m).net.links
            <==> key.0 < m && key.1 in Rewire(d, ns, draws, m).chosen[key.0]
    decreases m
  {
    if m > 0 {
      var n := m - 1;
      RewireKey(d, ns, draws, n, key);
      RewireKeyStep(d, ns, draws, n, key);
    }
  }

  /** Node `n`'s walk adds `key` exactly when `key` leaves that node and
      names a target it gained; every other edge stays as it was. */
  lemma RewireKeyStep(d: Dynamics, ns: seq<Neuron>, draws: Draws, n: nat, key: Key)
    requires Shaped(draws, |ns|) && n < |ns|
    requires key in Rewire(d, ns, draws, n).net.links
             <==> key.0 < n && key.1 in Rewire(d, ns, draws, n).chosen[key.0]
    ensures key in Rewire(d, ns, draws, n + 1).net.links
            <==> key.0 < n + 1 && key.1 in Rewire(d, ns, draws, n + 1).chosen[key.0]
  {
    var prev := Rewire(d, ns, draws, n);
    var one := ConnectNode(d, prev.net, n, draws.order[n], draws.strengths[n], 0);
    RewireStep(d, ns, draws, n);
    ConnectNodeKeys(d, prev.net, n, draws.order[n], draws.strengths[n], 0);
    assert key in one.0.links <==> key in prev.net.links || (key.0 == n && key.1 in one.1);
    if key.0 < n {
      assert (prev.chosen + [one.1])[key.0] == prev.chosen[key.0];
    } else if key.0 == n {
      assert (prev.chosen + [one.1])[key.0] == one.1;
    }
  }


  /** One step of the outer loop: node `i` walks its candidates against the
      store the earlier nodes built. */
  lemma RewireStep(d: Dynamics, ns: seq<Neuron>, draws: Draws, i: nat)
    requires Shaped(draws, |ns|) && i < |ns|
    ensures var prev := Rewire(d, ns, draws, i);
            var one := ConnectNode(d, prev.net, i, draws.order[i], draws.strengths[i], 0);
            Rewire(d, ns, draws, i + 1).net == one.0 && Rewire(d, ns, draws, i + 1).chosen == prev.chosen + [one.1]
  {
  }

  /** Handling node `n` leaves the targets of every earlier node as they were. */
  lemma RewireKeepsChosen(d: Dynamics, ns: seq<Neuron>, draws: Draws, n: nat, i: nat)
    requires Shaped(draws, |ns|) && i < n < |ns|
    ensures Rewire(d, ns, draws, n + 1).chosen[i] == Rewire(d, ns, draws, n).chosen[i]
  {
    var prev := Rewire(d, ns, draws, n);
    var one := ConnectNode(d, prev.net, n, draws.order[n], draws.strengths[n], 0);
    RewireStep(d, ns, draws, n);
    assert (prev.chosen + [one.1])[i] == prev.chosen[i];
  }

  /** Once the outer loop has handled node `i`, its targets stay fixed:
      they are the same after any `j` and any later `m` source nodes. */
  lemma {:induction false} RewireChosenStable(d: Dynamics, ns: seq<Neuron>, draws: Draws, j: nat, m: nat, i: nat)
    requires Shaped(draws, |ns|) && i < j <= m <= |ns|
    ensures Rewire(d, ns, draws, m).chosen[i] == Rewire(d, ns, draws, j).chosen[i]
    decreases m - j
  {
    if j < m {
      RewireKeepsChosen(d, ns, draws, j, i);
      RewireChosenStable(d, ns, draws, j + 1, m, i);
      var later, next, now := Rewire(d, ns, draws, m).chosen[i], Rewire(d, ns, draws, j + 1).chosen[i], Rewire(d, ns, draws, j).chosen[i];
      assert later == next && next == now;
    }
  }

  /** Handling node `n` keeps every stored edge with its weight. */
  lemma RewireKeepsEdge(d: Dynamics, ns: seq<Neuron>, draws: Draws, n: nat, key: Key)
    requires Shaped(draws, |ns|) && n < |ns|
    requires key in Rewire(d, ns, draws, n).net.links
    ensures key in Rewire(d, ns, draws, n + 1).net.links
    ensures Rewire(d, ns, draws, n + 1).net.links[key] == Rewire(d, ns, draws, n).net.links[key]
  {
    var prev := Rewire(d, ns, draws, n);
    var one := ConnectNode(d, prev.net, n, draws.order[n], draws.strengths[n], 0);
    RewireStep(d, ns, draws, n);
    ConnectNodeKeeps(d, prev.net, n, draws.order[n], draws.strengths[n], 0);
    KeptWeight(prev.net.links, one.0.links, key, prev.net.links[key]);
  }

  /** An edge stored after `j` source nodes is still stored, with the same
      weight, after any later number `m` of them. */
  lemma {:induction false} RewireEdgeStable(d: Dynamics, ns: seq<Neuron>, draws: Draws, j: nat, m: nat, key: Key)
    requires Shaped(draws, |ns|) && j <= m <= |ns|
    requires key in Rewire(d, ns, draws, j).net.links
    ensures key in Rewire(d, ns, draws, m).net.links
    ensures Rewire(d, ns, draws, m).net.links[key] == Rewire(d, ns, draws, j).net.links[key]
    decreases m - j
  {
    if j < m {
      RewireKeepsEdge(d, ns, draws, j, key);
      RewireEdgeStable(d, ns, draws, j + 1, m, key);
    }
  }


  /** After the first `m` source nodes, the k-th target node `i` gained is
      joined by an edge carrying the weight of the k-th strength of its batch. */
  lemma RewireWeight(d: Dynamics, ns: seq<Neuron>, draws: Draws, m: nat, i: nat, k: nat)
    requires Shaped(draws, |ns|) && m <= |ns|
    requires i < m && k < |Rewire(d, ns, draws, m).chosen[i]|
    ensures var r := Rewire(d, ns, draws, m);
            (i, r.chosen[i][k]) in r.net.links
            && r.net.links[(i, r.chosen[i][k])] == Stored(d, ns, r.chosen[i][k], draws.strengths[i][k])
  {
    var first := Rewire(d, ns, draws, i + 1);
    RewireChosenStable(d, ns, draws, i + 1, m, i);
    RewireWeightLast(d, ns, draws, i, k);
    var t := first.chosen[i][k];
    RewireEdgeStable(d, ns, draws, i + 1, m, (i, t));
    CarriedWeight(first, Rewire(d, ns, draws, m), i, k, Stored(d, ns, t, draws.strengths[i][k]));
  }

  /** An edge to the k-th target of `i` that a later state still holds, with
      the same targets of `i`, is its k-th edge there too. */
  lemma CarriedWeight(first: Rewired, later: Rewired, i: nat, k: nat, w: real)
    requires i < |first.chosen| && i < |later.chosen| && later.chosen[i] == first.chosen[i]
    requires k < |first.chosen[i]|
    requires (i, first.chosen[i][k]) in later.net.links && later.net.links[(i, first.chosen[i][k])] == w
    ensures (i, later.chosen[i][k]) in later.net.links && later.net.links[(i, later.chosen[i][k])] == w
  {
  }

  /** The k-th target node `i` gains carries strength k of its batch. */
  lemma RewireWeightLast(d: Dynamics, ns: seq<Neuron>, draws: Draws, i: nat, k: nat)
    requires Shaped(draws, |ns|) && i < |ns|
    requires k < |Rewire(d, ns, draws, i + 1).chosen[i]|
    ensures var r := Rewire(d, ns, draws, i + 1);
            (i, r.chosen[i][k]) in r.net.links
            && r.net.links[(i, r.chosen[i][k])] == Stored(d, ns, r.chosen[i][k], draws.strengths[i][k])
  {
    var prev := Rewire(d, ns, draws, i);
    var one := ConnectNode(d, prev.net, i, draws.order[i], draws.strengths[i], 0);
    RewireStep(d, ns, draws, i);
    assert (prev.chosen + [one.1])[i] == one.1;
    ConnectNodeWeight(d, prev.net, i, draws.order[i], draws.strengths[i], 0, k);
  }

  lemma KeptWeight(before: Links, after: Links, key: Key, w: real)
    requires key in before && before[key] == w
    requires forall k :: k in before ==> k in after && after[k] == before[k]
    ensures key in after && after[key] == w
  {
  }

  /** The open order only depends on the size of the ensemble and on the
      out-edges of `node`. */
  lemma {:induction false} OpenOrderSame(a: Network, b: Network, node: nat, cands: seq<nat>)
    requires |a.neurons| == |b.neurons|
    requires forall c :: (node, c) in a.links <==> (node, c) in b.links
    ensures OpenOrder(a, node, cands) == OpenOrder(b, node, cands)
    decreases |cands|
  {
    if cands != [] {
      OpenOrderSame(a, b, node, cands[..|cands| - 1]);
      assert Fresh(a, node, cands[|cands| - 1]) == Fresh(b, node, cands[|cands| - 1]);
    }
  }

  /** Node `i` gains the first open candidates of its shuffled order: the
      first occurrences, in that order, of the other neurons of the
      ensemble. Earlier nodes never link from `i`, so nothing else closes a
      candidate. */
  lemma RewireChosen(d: Dynamics, ns: seq<Neuron>, draws: Draws, m: nat, i: nat)
    requires Shaped(draws, |ns|) && i < m <= |ns|
    ensures Prefix(Rewire(d, ns, draws, m).chosen[i], OpenOrder(Network(ns, map[]), i, draws.order[i]))
  {
    RewireChosenStable(d, ns, draws, i + 1, m, i);
    RewireChosenFirst(d, ns, draws, i);
  }

  /** Node `i`'s own walk starts with no out-edges of `i` in the store, so
      the candidates open to it are those open in an empty store. */
  lemma RewireChosenFirst(d: Dynamics, ns: seq<Neuron>, draws: Draws, i: nat)
    requires Shaped(draws, |ns|) && i < |ns|
    ensures Prefix(Rewire(d, ns, draws, i + 1).chosen[i], OpenOrder(Network(ns, map[]), i, draws.order[i]))
  {
    var prev := Rewire(d, ns, draws, i);
    var one := ConnectNode(d, prev.net, i, draws.order[i], draws.strengths[i], 0);
    RewireStep(d, ns, draws, i);
    assert (prev.chosen + [one.1])[i] == one.1;
    ConnectNodeOrder(d, prev.net, i, draws.order[i], draws.strengths[i], 0);
    RewireFresh(d, ns, draws, i, i);
    OpenOrderSame(prev.net, Network(ns, map[]), i, draws.order[i]);
  }


  /** `random_connect`: every old edge is dropped; each source node gains
      at most its drawn degree of new out-edges, the k-th of them weighted
      by the k-th strength of its batch, and those targets are the first
      open candidates of its shuffled order; the count returned is the
      number of edges in the store afterwards. */
  function RandomConnect(d: Dynamics, net: Network, draws: Draws): (r: Rewired)
    requires Shaped(draws, |net.neurons|)
    ensures r.net.neurons == net.neurons
    ensures r.count == |r.net.links|
    ensures |r.chosen| == |net.neurons|
    ensures WellFormed(r.net)
    ensures forall i :: 0 <= i < |net.neurons| ==> |r.chosen[i]| <= draws.degrees[i]
    ensures forall key :: key in r.net.links <==> key.0 < |net.neurons| && key.1 in r.chosen[key.0]
    ensures forall i, k :: 0 <= i < |net.neurons| && 0 <= k < |r.chosen[i]| ==>
              r.chosen[i][k] < |net.neurons|
              && r.net.links[(i, r.chosen[i][k])] == Stored(d, net.neurons, r.chosen[i][k], draws.strengths[i][k])
    ensures forall i :: 0 <= i < |net.neurons| ==>
              Prefix(r.chosen[i], OpenOrder(Network(net.neurons, map[]), i, draws.order[i]))
  {
    var r := Rewire(d, net.neurons, draws, |net.neurons|);
    RewireKeys(d, net.neurons, draws, |net.neurons|);
    RewireCount(d, net.neurons, draws, |net.neurons|);
    forall i | 0 <= i < |net.neurons|
      ensures Prefix(r.chosen[i], OpenOrder(Network(net.neurons, map[]), i, draws.order[i]))
    {
      RewireChosen(d, net.neurons, draws, |net.neurons|, i);
    }
    forall i, k | 0 <= i < |net.neurons| && 0 <= k < |r.chosen[i]|
      ensures (i, r.chosen[i][k]) in r.net.links
              && r.net.links[(i, r.chosen[i][k])] == Stored(d, net.neurons, r.chosen[i][k], draws.strengths[i][k])
    {
      RewireWeight(d, net.neurons, draws, |net.neurons|, i, k);
    }
    assert WellFormed(r.net) by {
      forall key | key in r.net.links
        ensures key.0 != key.1 && key.0 < |net.neurons| && key.1 < |net.neurons|
      {
        var k :| 0 <= k < |r.chosen[key.0]| && r.chosen[key.0][k] == key.1;
      }
    }
    r
  }

  /** The elements of a list of indices. */
  function Elements(xs: seq<nat>): set<nat>
  {
    set x | x in xs
  }

  lemma {:induction false} DistinctElements(xs: seq<nat>)
    requires Distinct(xs)
    ensures |Elements(xs)| == |xs|
  {
    if xs != [] {
      DistinctElements(xs[1..]);
      assert Elements(xs) == Elements(xs[1..]) + {xs[0]};
      assert xs[0] !in Elements(xs[1..]);
    }
  }

  /** The indices below `size`. */
  function Range(size: nat): (r: set<nat>)
    ensures forall x: nat :: x in r <==> x < size
    ensures |r| == size
  {
    if size == 0 then {} else Range(size - 1) + {size - 1}
  }

  /** The indices below `size` other than `skip`. */
  function Others(size: nat, skip: nat): (r: set<nat>)
    requires skip < size
    ensures forall x: nat :: x in r <==> x < size && x != skip
    ensures |r| == size - 1
  {
    Range(size) - {skip}
  }

  lemma SubsetSize(a: set<nat>, b: set<nat>)
    requires a <= b
    ensures |a| <= |b|
  {
    assert b == a + (b - a);
  }

  /** After rewiring, the out-degree of every node is the number of targets
      it gained, and never more than its drawn degree nor more than
      `size - 1` (no self-loops, no repeated target). */
  lemma RandomConnectDegree(d: Dynamics, net: Network, draws: Draws, node: nat)
    requires Shaped(draws, |net.neurons|) && node < |net.neurons|
    ensures var r := RandomConnect(d, net, draws);
            Degree(r.net.links, node).0 == |r.chosen[node]|
    ensures var r := RandomConnect(d, net, draws);
            Degree(r.net.links, node).0 <= draws.degrees[node]
            && Degree(r.net.links, node).0 <= |net.neurons| - 1
  {
    var r := RandomConnect(d, net, draws);
    var xs := r.chosen[node];
    assert Targets(r.net.links, node) == Elements(xs);
    DistinctElements(xs);
    assert Elements(xs) <= Others(|net.neurons|, node);
    SubsetSize(Elements(xs), Others(|net.neurons|, node));
  }

  /** The candidates in the list that are still fresh for `node`. */
  function Open(net: Network, node: nat, cands: seq<nat>): set<nat>
  {
    set c | c in cands && Fresh(net, node, c)
  }

  /** The open order lists each open candidate exactly once. */
  lemma {:induction false} OpenOrderElements(net: Network, node: nat, cands: seq<nat>)
    ensures Elements(OpenOrder(net, node, cands)) == Open(net, node, cands)
    ensures Distinct(OpenOrder(net, node, cands))
    decreases |cands|
  {
    if cands != [] {
      var init := cands[..|cands| - 1];
      var c := cands[|cands| - 1];
      OpenOrderElements(net, node, init);
      assert cands == init + [c];
      assert Open(net, node, cands) == Open(net, node, init) + (if Fresh(net, node, c) then {c} else {});
      var o := OpenOrder(net, node, init);
      if Fresh(net, node, c) && c !in init {
        assert c !in Elements(o);
        assert Elements(o + [c]) == Elements(o) + {c};
      } else {
        assert o + [] == o;
      }
    }
  }

  /** When every strength left is large enough to be accepted, the walk takes
      exactly the first open candidates in candidate order, as many as it has
      strengths left. */
  lemma ConnectNodeExact(d: Dynamics, net: Network, node: nat, cands: seq<nat>, strength: seq<real>, nl: nat)
    requires nl <= |strength| && node < |net.neurons|
    requires forall k :: nl <= k < |strength| ==> strength[k] >= MinStrength
    ensures var o := OpenOrder(net, node, cands);
            |o| == |Open(net, node, cands)|
            && ConnectNode(d, net, node, cands, strength, nl).1 == o[..Min(|strength| - nl, |o|)]
  {
    var o := OpenOrder(net, node, cands);
    OpenOrderElements(net, node, cands);
    DistinctElements(o);
    ConnectNodeOrder(d, net, node, cands, strength, nl);
    ConnectNodeFills(d, net, node, cands, strength, nl);
  }

  /** When every strength left is large enough to be accepted, the walk
      inserts as many edges as it has strengths left or open candidates,
      whichever is fewer. */
  lemma {:induction false} ConnectNodeFills(d: Dynamics, net: Network, node: nat, cands: seq<nat>, strength: seq<real>, nl: nat)
    requires nl <= |strength| && node < |net.neurons|
    requires forall k :: nl <= k < |strength| ==> strength[k] >= MinStrength
    ensures |ConnectNode(d, net, node, cands, strength, nl).1| == Min(|strength| - nl, |Open(net, node, cands)|)
    decreases |cands|
  {
    if cands == [] {
      assert Open(net, node, cands) == {};
    } else if nl < |strength| {
      var step := AddLink(d, net, node, cands[0], strength[nl]);
      if step.0 {
        assert Open(step.1, node, cands[1..]) == Open(net, node, cands) - {cands[0]};
        assert cands[0] in Open(net, node, cands);
        ConnectNodeFills(d, step.1, node, cands[1..], strength, nl + 1);
      } else {
        assert Open(step.1, node, cands[1..]) == Open(net, node, cands);
        ConnectNodeFills(d, step.1, node, cands[1..], strength, nl);
      }
    }
  }

  /** A candidate order covering every index once, as a shuffle produces. */
  predicate Permutation(p: seq<nat>, size: nat)
  {
    |p| == size && Distinct(p) && forall x :: 0 <= x < size ==> x in p
  }

  /** With genuine shuffles and every strength at least the threshold (the
      uniform draws start at 1e-6), node `i` gains exactly
      `min(degrees[i], size - 1)` out-edges. */
  lemma RewireExact(d: Dynamics, ns: seq<Neuron>, draws: Draws, m: nat, i: nat)
    requires Shaped(draws, |ns|) && i < m <= |ns|
    requires forall j :: 0 <= j < |ns| ==> Permutation(draws.order[j], |ns|)
    requires forall j, k :: 0 <= j < |ns| && 0 <= k < |draws.strengths[j]| ==> draws.strengths[j][k] >= MinStrength
    ensures |Rewire(d, ns, draws, m).chosen[i]| == Min(draws.degrees[i], |ns| - 1)
  {
    RewireChosenStable(d, ns, draws, i + 1, m, i);
    RewireExactLast(d, ns, draws, i);
  }

  /** The walk of node `i` starts with every other index open, so it gains
      as many targets as it has strengths, up to `size - 1`. */
  lemma RewireExactLast(d: Dynamics, ns: seq<Neuron>, draws: Draws, i: nat)
    requires Shaped(draws, |ns|) && i < |ns|
    requires Permutation(draws.order[i], |ns|)
    requires forall k :: 0 <= k < |draws.strengths[i]| ==> draws.strengths[i][k] >= MinStrength
    ensures |Rewire(d, ns, draws, i + 1).chosen[i]| == Min(draws.degrees[i], |ns| - 1)
  {
    var prev := Rewire(d, ns, draws, i);
    var p := draws.order[i];
    RewireFresh(d, ns, draws, i, i);
    OpenWhenFresh(prev.net, i, p);
    ConnectNodeFills(d, prev.net, i, p, draws.strengths[i], 0);
    RewireStep(d, ns, draws, i);
  }

  /** A node the outer loop has not reached yet has no out-edges. */
  lemma RewireFresh(d: Dynamics, ns: seq<Neuron>, draws: Draws, m: nat, node: nat)
    requires Shaped(draws, |ns|) && m <= |ns| && m <= node
    ensures forall c :: (node, c) !in Rewire(d, ns, draws, m).net.links
  {
    RewireKeys(d, ns, draws, m);
  }

  /** With no out-edges yet and a full permutation of candidates, every
      other index is open. */
  lemma OpenWhenFresh(net: Network, node: nat, p: seq<nat>)
    requires node < |net.neurons| && Permutation(p, |net.neurons|)
    requires forall c :: (node, c) !in net.links
    ensures Open(net, node, p) == Others(|net.neurons|, node)
  {
    forall c | c in Others(|net.neurons|, node) ensures c in Open(net, node, p) {
      assert c < |net.neurons|;
    }
  }

  lemma RandomConnectExact(d: Dynamics, net: Network, draws: Draws, i: nat)
    requires Shaped(draws, |net.neurons|) && i < |net.neurons|
    requires forall j :: 0 <= j < |net.neurons| ==> Permutation(draws.order[j], |net.neurons|)
    requires forall j, k :: 0 <= j < |net.neurons| && 0 <= k < |draws.strengths[j]| ==> draws.strengths[j][k] >= MinStrength
    ensures |RandomConnect(d, net, draws).chosen[i]| == Min(draws.degrees[i], |net.neurons| - 1)
  {
    RewireExact(d, net.neurons, draws, |net.neurons|, i);
  }

  /** A mean degree of zero draws only zero degrees, and then rewiring leaves
      the store empty and returns zero. */
  lemma ZeroDegreesNoEdges(d: Dynamics, net: Network, draws: Draws)
    requires Shaped(draws, |net.neurons|)
    requires forall i :: 0 <= i < |net.neurons| ==> draws.degrees[i] == 0
    ensures RandomConnect(d, net, draws).count == 0
    ensures RandomConnect(d, net, draws).net.links == map[]
  {
  }
}
