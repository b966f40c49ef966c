/** The network: an ensemble of neurons and the edge store over their indices,
    with single-edge insertion, positional assignment and the read-back views. */
module Net {
  import opened Neurons
  import opened EdgeStore

  datatype Network = Network(neurons: seq<Neuron>, links: Links)

  /** Strengths below this are refused by `add_link`. */
  const MinStrength: real := 0.000001

  function Min(x: nat, y: nat): nat { if x <= y then x else y }

  /** Every stored edge joins two distinct neurons of the ensemble. */
  predicate WellFormed(net: Network)
  {
    forall k :: k in net.links ==> k.0 != k.1 && k.0 < |net.neurons| && k.1 < |net.neurons|
  }

  /** The weight stored for an edge into `b` of strength `str`: an
      inhibitory target doubles and negates it. The sign follows the
      target, not the source. */
  function Stored(d: Dynamics, ns: seq<Neuron>, b: nat, str: real): real
    requires b < |ns|
  {
    if d.inhibitory(ns[b]) then str * -2.0 else str
  }

  /** `add_link(a, b, str)`: the flag says whether the edge was inserted.
      The strength test is `str < 1e-6`, not its absolute value, so every
      negative strength is refused as well. */
  function AddLink(d: Dynamics, net: Network, a: nat, b: nat, str: real): (r: (bool, Network))
    ensures r.0 <==> a != b && a < |net.neurons| && b < |net.neurons| && str >= MinStrength
                     && (a, b) !in net.links
    ensures !r.0 ==> r.1 == net
    ensures r.1.neurons == net.neurons
    ensures r.0 ==> r.1.links.Keys == net.links.Keys + {(a, b)}
    ensures r.0 ==> r.1.links[(a, b)] == Stored(d, net.neurons, b, str)
    ensures forall k :: k in net.links ==> k in r.1.links && r.1.links[k] == net.links[k]
  {
    if a == b || a >= |net.neurons| || b >= |net.neurons| || str < MinStrength then (false, net)
    else if (a, b) in net.links then (false, net)
    else (true, net.(links := net.links[(a, b) := Stored(d, net.neurons, b, str)]))
  }

  /** Insertion keeps the edge store free of self-loops and dangling ends. */
  lemma AddLinkWellFormed(d: Dynamics, net: Network, a: nat, b: nat, str: real)
    requires WellFormed(net)
    ensures WellFormed(AddLink(d, net, a, b, str).1)
  {
  }

  /** A successful insertion raises the source's degree by one edge and by
      the stored weight, and no other node's degree moves; a refused one
      changes no degree at all. */
  lemma AddLinkDegree(d: Dynamics, net: Network, a: nat, b: nat, str: real, n: nat)
    ensures var r := AddLink(d, net, a, b, str);
            r.0 && n == a ==>
              Degree(r.1.links, n) == (Degree(net.links, n).0 + 1, Degree(net.links, n).1 + Stored(d, net.neurons, b, str))
    ensures var r := AddLink(d, net, a, b, str);
            !r.0 || n != a ==> Degree(r.1.links, n) == Degree(net.links, n)
  {
    var r := AddLink(d, net, a, b, str);
    if r.0 {
      var w := Stored(d, net.neurons, b, str);
      assert r.1.links == net.links[(a, b) := w];
      if n == a {
        DegreeAfterInsert(net.links, a, b, w);
      } else {
        DegreeOtherAfterInsert(net.links, a, b, w, n);
      }
    }
  }

  /** `potentials()`: the potential of every neuron, in ensemble order. */
  method Potentials(net: Network) returns (vals: seq<real>)
    ensures |vals| == |net.neurons|
    ensures forall i :: 0 <= i < |vals| ==> vals[i] == net.neurons[i].potential
  {
    vals := [];
    var nn := 0;
    while nn < |net.neurons|
      invariant nn <= |net.neurons|
      invariant |vals| == nn
      invariant forall i :: 0 <= i < nn ==> vals[i] == net.neurons[i].potential
    {
      vals := vals + [net.neurons[nn].potential];
      nn := nn + 1;
    }
  }

  /** `recoveries()`: the recovery variable of every neuron, in ensemble order. */
  method Recoveries(net: Network) returns (vals: seq<real>)
    ensures |vals| == |net.neurons|
    ensures forall i :: 0 <= i < |vals| ==> vals[i] == net.neurons[i].recovery
  {
    vals := [];
    var nn := 0;
    while nn < |net.neurons|
      invariant nn <= |net.neurons|
      invariant |vals| == nn
      invariant forall i :: 0 <= i < nn ==> vals[i] == net.neurons[i].recovery
    {
      vals := vals + [net.neurons[nn].recovery];
      nn := nn + 1;
    }
  }

  /** `set_types_params(types, par, start)`: neuron `start + k` takes archetype
      `types[k]` and parameters `par[k]` for every `k < |par|`; nothing else
      changes. The source checks no bounds, so the caller must keep the
      range inside the ensemble and supply at least as many names as records. */
  method SetTypesParams(net: Network, types: seq<string>, par: seq<Params>, start: nat) returns (r: Network)
    requires start + |par| <= |net.neurons|
    requires |types| >= |par|
    ensures r.links == net.links
    ensures |r.neurons| == |net.neurons|
    ensures forall k :: 0 <= k < |par| ==>
              r.neurons[start + k] == net.neurons[start + k].(kind := types[k], params := par[k])
    ensures forall i :: 0 <= i < |net.neurons| && !(start <= i < start + |par|) ==> r.neurons[i] == net.neurons[i]
    ensures WellFormed(net) ==> WellFormed(r)
  {
    var ns := net.neurons;
    var k := 0;
    while k < |par|
      invariant k <= |par|
      invariant |ns| == |net.neurons|
      invariant forall j :: 0 <= j < k ==> ns[start + j] == net.neurons[start + j].(kind := types[j], params := par[j])
      invariant forall i :: 0 <= i < |ns| && !(start <= i < start + k) ==> ns[i] == net.neurons[i]
    {
      ns := ns[start + k := ns[start + k].(kind := types[k], params := par[k])];
      k := k + 1;
    }
    r := net.(neurons := ns);
  }

  /** `set_values(poten, start)`: neuron `start + k` takes potential `poten[k]`;
      archetypes, parameters, recoveries and every other neuron are untouched.
      As above, the range must lie inside the ensemble. */
  method SetValues(net: Network, poten: seq<real>, start: nat) returns (r: Network)
    requires start + |poten| <= |net.neurons|
    ensures r.links == net.links
    ensures |r.neurons| == |net.neurons|
    ensures forall k :: 0 <= k < |poten| ==> r.neurons[start + k] == net.neurons[start + k].(potential := poten[k])
    ensures forall i :: 0 <= i < |net.neurons| && !(start <= i < start + |poten|) ==> r.neurons[i] == net.neurons[i]
    ensures WellFormed(net) ==> WellFormed(r)
  {
    var ns := net.neurons;
    var k := 0;
    while k < |poten|
      invariant k <= |poten|
      invariant |ns| == |net.neurons|
      invariant forall j :: 0 <= j < k ==> ns[start + j] == net.neurons[start + j].(potential := poten[j])
      invariant forall i :: 0 <= i < |ns| && !(start <= i < start + k) ==> ns[i] == net.neurons[i]
    {
      ns := ns[start + k := ns[start + k].(potential := poten[k])];
      k := k + 1;
    }
    r := net.(neurons := ns);
  }
}
