/** One timestep of the network.

    Phase one records every firing neuron and resets it. Phase two runs only
    when there is one input value per neuron: it computes every neuron's
    current from its scaled external input and the weights of its out-edges
    whose far end is firing, then injects each current and advances each
    neuron once. */
module Timestep {
  import opened Neurons
  import opened EdgeStore
  import opened Net

  /** Every edge leaving a neuron of the ensemble ends inside it. Phase two
      looks up the far end of each such edge, so it needs this; edges left
      dangling by a shrinking `resize` break it. */
  predicate InRange(links: Links, size: nat)
  {
    forall k :: k in links && k.0 < size ==> k.1 < size
  }

  /** The ensemble after phase one: firing neurons reset, the rest as they were. */
  function AfterResets(d: Dynamics, ns: seq<Neuron>): seq<Neuron>
  {
    seq(|ns|, i requires 0 <= i < |ns| => if d.firing(ns[i]) then d.reset(ns[i]) else ns[i])
  }

  /** The external input of a neuron: scaled by 0.4 for an inhibitory one. */
  function Modulated(d: Dynamics, nr: Neuron, x: real): real
  {
    if d.inhibitory(nr) then x * 0.4 else x
  }

  /** What one out-edge `p = (target, weight)` adds to the excitatory
      (`inhib` false) or inhibitory (`inhib` true) sum, judged by the state
      of the target in `view`. */
  function Spike(d: Dynamics, view: seq<Neuron>, p: (nat, real), inhib: bool): real
    requires p.0 < |view|
  {
    if d.firing(view[p.0]) && d.inhibitory(view[p.0]) == inhib then p.1 else 0.0
  }

  predicate Within(ps: seq<(nat, real)>, size: nat)
  {
    forall i :: 0 <= i < |ps| ==> ps[i].0 < size
  }

  /** The weights of the edges in `ps` whose target is firing and of the
      requested polarity. */
  function SpikeSum(d: Dynamics, view: seq<Neuron>, ps: seq<(nat, real)>, inhib: bool): real
    requires Within(ps, |view|)
  {
    if ps == [] then 0.0 else Spike(d, view, ps[0], inhib) + SpikeSum(d, view, ps[1..], inhib)
  }

  lemma {:induction false} SpikeSumAppend(d: Dynamics, view: seq<Neuron>, a: seq<(nat, real)>, b: seq<(nat, real)>, inhib: bool)
    requires Within(a, |view|) && Within(b, |view|)
    ensures Within(a + b, |view|)
    ensures SpikeSum(d, view, a + b, inhib) == SpikeSum(d, view, a, inhib) + SpikeSum(d, view, b, inhib)
  {
    if a == [] {
      assert a + b == b;
    } else {
      assert (a + b)[1..] == a[1..] + b;
      SpikeSumAppend(d, view, a[1..], b, inhib);
    }
  }

  /** The out-edges of `n`, all of whose targets lie in the ensemble. */
  lemma NeighborsWithin(links: Links, size: nat, n: nat)
    requires InRange(links, size) && n < size
    ensures Within(Neighbors(links, n), size)
  {
  }

  /** The current `step` feeds neuron `n`: its modulated input plus half its
      excitatory sum minus its inhibitory sum. `mid` is the ensemble the
      input scaling consults and `view` the one the firing test and the
      polarity test consult. */
  function Current(d: Dynamics, links: Links, mid: seq<Neuron>, view: seq<Neuron>, input: seq<real>, n: nat): real
    requires |view| == |mid| && |input| == |mid| && n < |mid|
    requires InRange(links, |mid|)
  {
    NeighborsWithin(links, |mid|, n);
    var vs := Neighbors(links, n);
    Modulated(d, mid[n], input[n]) + 0.5 * SpikeSum(d, view, vs, false) - SpikeSum(d, view, vs, true)
  }

  /** Phase one: the indices of the firing neurons, each reset. */
  method ResetFiring(d: Dynamics, ns: seq<Neuron>) returns (fired: set<nat>, mid: seq<Neuron>)
    ensures forall i: nat :: i in fired <==> i < |ns| && d.firing(ns[i])
    ensures |mid| == |ns|
    ensures forall i :: 0 <= i < |ns| ==> mid[i] == (if d.firing(ns[i]) then d.reset(ns[i]) else ns[i])
  {
    fired := {};
    mid := ns;
    var i := 0;
    while i < |ns|
      invariant i <= |ns| && |mid| == |ns|
      invariant forall j: nat :: j in fired <==> j < i && d.firing(ns[j])
      invariant forall j :: 0 <= j < i ==> mid[j] == (if d.firing(ns[j]) then d.reset(ns[j]) else ns[j])
      invariant forall j :: i <= j < |ns| ==> mid[j] == ns[j]
    {
      if d.firing(mid[i]) {
        fired := fired + {i};
        mid := mid[i := d.reset(mid[i])];
      }
      i := i + 1;
    }
  }

  /** The excitatory and inhibitory sums of one out-edge list, in one pass
      as `step` accumulates them. The source declares both accumulators
      without initialising them, which leaves their starting value
      undefined; here both start from zero. */
  method Sums(d: Dynamics, view: seq<Neuron>, vs: seq<(nat, real)>) returns (ext: real, inh: real)
    requires Within(vs, |view|)
    ensures ext == SpikeSum(d, view, vs, false)
    ensures inh == SpikeSum(d, view, vs, true)
  {
    ext, inh := 0.0, 0.0;
    var m := 0;
    while m < |vs|
      invariant m <= |vs|
      invariant ext == SpikeSum(d, view, vs[..m], false)
      invariant inh == SpikeSum(d, view, vs[..m], true)
    {
      var p := vs[m];
      assert vs[..m + 1] == vs[..m] + [p];
      SpikeSumAppend(d, view, vs[..m], [p], false);
      SpikeSumAppend(d, view, vs[..m], [p], true);
      if d.firing(view[p.0]) {
        if d.inhibitory(view[p.0]) {
          inh := inh + p.1;
        } else {
          ext := ext + p.1;
        }
      }
      m := m + 1;
    }
    assert vs[..m] == vs;
  }

  /** The input-scaling loop of phase two: one modulated input per neuron. */
  method ScaleInputs(d: Dynamics, mid: seq<Neuron>, input: seq<real>) returns (scaled: seq<real>)
    requires |input| == |mid|
    ensures |scaled| == |mid|
    ensures forall k :: 0 <= k < |mid| ==> scaled[k] == Modulated(d, mid[k], input[k])
  {
    scaled := [];
    var j := 0;
    while j < |mid|
      invariant j <= |mid| && |scaled| == j
      invariant forall k :: 0 <= k < j ==> scaled[k] == Modulated(d, mid[k], input[k])
    {
      var x := input[j];
      if d.inhibitory(mid[j]) {
        x := x * 0.4;
      }
      scaled := scaled + [x];
      j := j + 1;
    }
  }

  /** The current loop of phase two: each neuron's scaled input plus half its
      excitatory sum minus its inhibitory sum. */
  method Currents(d: Dynamics, links: Links, mid: seq<Neuron>, view: seq<Neuron>, input: seq<real>, scaled: seq<real>)
    returns (cur: seq<real>)
    requires |view| == |mid| && |input| == |mid| && |scaled| == |mid|
    requires InRange(links, |mid|)
    requires forall k :: 0 <= k < |mid| ==> scaled[k] == Modulated(d, mid[k], input[k])
    ensures |cur| == |mid|
    ensures forall k :: 0 <= k < |mid| ==> cur[k] == Current(d, links, mid, view, input, k)
  {
    cur := [];
    var n := 0;
    while n < |mid|
      invariant n <= |mid| && |cur| == n
      invariant forall k :: 0 <= k < n ==> cur[k] == Current(d, links, mid, view, input, k)
    {
      NeighborsWithin(links, |mid|, n);
      var ext, inh := Sums(d, view, Neighbors(links, n));
      cur := cur + [scaled[n] + 0.5 * ext - inh];
      n := n + 1;
    }
  }

  /** The injection loop of phase two: every neuron takes its own current and
      advances once; the loop reads each neuron only at its own index. */
  method Inject(d: Dynamics, mid: seq<Neuron>, cur: seq<real>) returns (out: seq<Neuron>)
    requires |cur| == |mid|
    ensures |out| == |mid|
    ensures forall k :: 0 <= k < |mid| ==> out[k] == d.advance(d.input(mid[k], cur[k]))
  {
    out := mid;
    var i := 0;
    while i < |mid|
      invariant i <= |mid| && |out| == |mid|
      invariant forall k :: 0 <= k < i ==> out[k] == d.advance(d.input(mid[k], cur[k]))
      invariant forall k :: i <= k < |mid| ==> out[k] == mid[k]
    {
      out := out[i := d.advance(d.input(out[i], cur[i]))];
      i := i + 1;
    }
  }

  /** Phase two: scale the inputs, compute every current, then inject each
      current and advance each neuron once. */
  method Drive(d: Dynamics, links: Links, mid: seq<Neuron>, view: seq<Neuron>, input: seq<real>) returns (out: seq<Neuron>)
    requires |view| == |mid| && |input| == |mid|
    requires InRange(links, |mid|)
    ensures |out| == |mid|
    ensures forall i :: 0 <= i < |mid| ==>
              out[i] == d.advance(d.input(mid[i], Current(d, links, mid, view, input, i)))
  {
    var scaled := ScaleInputs(d, mid, input);
    var cur := Currents(d, links, mid, view, input, scaled);
    out := Inject(d, mid, cur);
  }

  /** `step(input)` as written: phase two consults the neurons after the
      phase-one resets, both for the input scaling and for the firing and
      polarity of each edge's target. */
  method Step(d: Dynamics, net: Network, input: seq<real>) returns (fired: set<nat>, r: Network)
    requires |input| == |net.neurons| ==> InRange(net.links, |net.neurons|)
    ensures forall i: nat :: i in fired <==> i < |net.neurons| && d.firing(net.neurons[i])
    ensures r.links == net.links
    ensures |r.neurons| == |net.neurons|
    ensures |input| != |net.neurons| ==>
              forall i :: 0 <= i < |net.neurons| ==>
                r.neurons[i] == (if d.firing(net.neurons[i]) then d.reset(net.neurons[i]) else net.neurons[i])
    ensures |input| != |net.neurons| && (forall nr :: !d.firing(d.reset(nr))) ==>
              forall i :: i in fired ==> !d.firing(r.neurons[i])
    ensures |input| == |net.neurons| ==>
              forall i :: 0 <= i < |net.neurons| ==>
                var mid := AfterResets(d, net.neurons);
                r.neurons[i] == d.advance(d.input(mid[i], Current(d, net.links, mid, mid, input, i)))
  {
    var mid;
    fired, mid := ResetFiring(d, net.neurons);
    assert mid == AfterResets(d, net.neurons);
    if |input| == |net.neurons| {
      var out := Drive(d, net.links, mid, mid, input);
      r := net.(neurons := out);
    } else {
      r := net.(neurons := mid);
    }
  }

  /** `step(input)` with the firing state fixed at the start of the call:
      the firing and polarity of each edge's target are read from the
      neurons as they were before any reset. */
  method StepSnapshot(d: Dynamics, net: Network, input: seq<real>) returns (fired: set<nat>, r: Network)
    requires |input| == |net.neurons| ==> InRange(net.links, |net.neurons|)
    ensures forall i: nat :: i in fired <==> i < |net.neurons| && d.firing(net.neurons[i])
    ensures r.links == net.links
    ensures |r.neurons| == |net.neurons|
    ensures |input| != |net.neurons| ==>
              forall i :: 0 <= i < |net.neurons| ==>
                r.neurons[i] == (if d.firing(net.neurons[i]) then d.reset(net.neurons[i]) else net.neurons[i])
    ensures |input| == |net.neurons| ==>
              forall i :: 0 <= i < |net.neurons| ==>
                var mid := AfterResets(d, net.neurons);
                r.neurons[i] == d.advance(d.input(mid[i], Current(d, net.links, mid, net.neurons, input, i)))
  {
    var mid;
    fired, mid := ResetFiring(d, net.neurons);
    assert mid == AfterResets(d, net.neurons);
    if |input| == |net.neurons| {
      var out := Drive(d, net.links, mid, net.neurons, input);
      r := net.(neurons := out);
    } else {
      r := net.(neurons := mid);
    }
  }

  /** When no target in `ps` is firing, neither sum picks up any weight. */
  lemma {:induction false} SpikeSumSilent(d: Dynamics, view: seq<Neuron>, ps: seq<(nat, real)>, inhib: bool)
    requires Within(ps, |view|)
    requires forall i :: 0 <= i < |ps| ==> !d.firing(view[ps[i].0])
    ensures SpikeSum(d, view, ps, inhib) == 0.0
  {
    if ps != [] {
      SpikeSumSilent(d, view, ps[1..], inhib);
    }
  }

  /** When every target in `ps` is firing and excitatory, the excitatory sum
      is the whole weight of the list and the inhibitory sum is zero. */
  lemma {:induction false} SpikeSumAllExcitatory(d: Dynamics, view: seq<Neuron>, ps: seq<(nat, real)>)
    requires Within(ps, |view|)
    requires forall i :: 0 <= i < |ps| ==> d.firing(view[ps[i].0]) && !d.inhibitory(view[ps[i].0])
    ensures SpikeSum(d, view, ps, false) == WeightSum(ps)
    ensures SpikeSum(d, view, ps, true) == 0.0
  {
    if ps != [] {
      SpikeSumAllExcitatory(d, view, ps[1..]);
    }
  }

  /** If a reset always ends a spike, the as-written step never sees a firing
      target in phase two: every neuron's current is its modulated input
      alone, whatever the edges and their weights. */
  lemma StepIgnoresSynapses(d: Dynamics, links: Links, ns: seq<Neuron>, input: seq<real>, n: nat)
    requires forall nr :: !d.firing(d.reset(nr))
    requires |input| == |ns| && n < |ns| && InRange(links, |ns|)
    ensures var mid := AfterResets(d, ns);
            Current(d, links, mid, mid, input, n) == Modulated(d, mid[n], input[n])
  {
    var mid := AfterResets(d, ns);
    NeighborsWithin(links, |ns|, n);
    var vs := Neighbors(links, n);
    forall i | 0 <= i < |vs| ensures !d.firing(mid[vs[i].0]) {
      var t := vs[i].0;
      if d.firing(ns[t]) {
        assert mid[t] == d.reset(ns[t]);
      }
    }
    SpikeSumSilent(d, mid, vs, false);
    SpikeSumSilent(d, mid, vs, true);
  }

  /** With the firing state taken before the resets, a neuron all of whose
      out-edges end at firing excitatory neurons receives its modulated
      input plus half of its total out-weight, the weight `degree` reports. */
  lemma SnapshotSeesSpikes(d: Dynamics, links: Links, ns: seq<Neuron>, input: seq<real>, n: nat)
    requires |input| == |ns| && n < |ns| && InRange(links, |ns|)
    requires forall t :: (n, t) in links ==> d.firing(ns[t]) && !d.inhibitory(ns[t])
    ensures var mid := AfterResets(d, ns);
            Current(d, links, mid, ns, input, n) == Modulated(d, mid[n], input[n]) + 0.5 * Degree(links, n).1
  {
    NeighborsWithin(links, |ns|, n);
    var vs := Neighbors(links, n);
    SpikeSumAllExcitatory(d, ns, vs);
    DegreeMatchesNeighbors(links, n);
  }

  /** A concrete neuron model: a spike is a potential of at least 30, a reset
      puts the potential back to -65, "FS" neurons are inhibitory, an input
      adds to the potential and advancing changes nothing. */
  function Example(): Dynamics
  {
    var p := Params(0.02, 0.2, -65.0, 8.0);
    Dynamics(
      Neuron("RS", p, -65.0, -13.0),
      (name: string) => name == "RS" || name == "FS",
      (name: string, noise: real) => p,
      (nr: Neuron) => nr.kind == "FS",
      (nr: Neuron) => nr.potential >= 30.0,
      (nr: Neuron) => nr.(potential := -65.0),
      (nr: Neuron, x: real) => nr.(potential := nr.potential + x),
      (nr: Neuron) => nr)
  }

  /** Two excitatory neurons, an edge 0 -> 1 of weight 10, neuron 1 spiking
      and no external input: as written, neuron 0 receives no current; with
      the firing state taken first it receives 0.5 * 10. */
  lemma ResetHidesSpikeExample()
    ensures var d := Example();
            var ns := [d.blank, d.blank.(potential := 30.0)];
            var links: Links := map[(0, 1) := 10.0];
            var mid := AfterResets(d, ns);
            Current(d, links, mid, mid, [0.0, 0.0], 0) == 0.0
            && Current(d, links, mid, ns, [0.0, 0.0], 0) == 5.0
  {
    var d := Example();
    var ns := [d.blank, d.blank.(potential := 30.0)];
    var links: Links := map[(0, 1) := 10.0];
    var mid := AfterResets(d, ns);
    assert forall nr :: !d.firing(d.reset(nr));
    StepIgnoresSynapses(d, links, ns, [0.0, 0.0], 0);
    assert forall t :: (0, t) in links ==> t == 1;
    SnapshotSeesSpikes(d, links, ns, [0.0, 0.0], 0);
    assert Targets(map[], 0) == {};
    assert Degree(map[], 0) == (0, 0.0);
    DegreeAfterInsert(map[], 0, 1, 10.0);
  }
}
