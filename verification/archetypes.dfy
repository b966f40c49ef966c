/** Archetype assignment: growing the ensemble and giving runs of neurons an
    archetype from a name -> count table, each with its own noise draw. */
module Archetypes {
  import opened Neurons
  import opened EdgeStore
  import opened Net

  /** A `std::map<std::string, size_t>` as the sequence of its entries in
      iteration order, which is ascending key order. */
  type Counts = seq<(string, nat)>

  /** Lexicographic order on names, character by character. */
  predicate NameBefore(x: string, y: string)
  {
    if |x| == 0 then |y| > 0
    else if |y| == 0 then false
    else if x[0] != y[0] then x[0] < y[0]
    else NameBefore(x[1..], y[1..])
  }

  /** The entries are in the order a map with distinct keys iterates them. */
  predicate InKeyOrder(types: Counts)
  {
    forall i, j :: 0 <= i < j < |types| ==> NameBefore(types[i].0, types[j].0)
  }

  /** The archetype that offset `k` of the target range receives: walking the
      entries in order, each recognised name claims the next `count` offsets
      and an unrecognised one claims none; offsets past them all get "RS". */
  function ArchetypeAt(d: Dynamics, types: Counts, k: nat): string
  {
    if types == [] then "RS"
    else if d.typeExists(types[0].0) then
      if k < types[0].1 then types[0].0 else ArchetypeAt(d, types[1..], k - types[0].1)
    else ArchetypeAt(d, types[1..], k)
  }

  /** The number of offsets the recognised names claim between them. */
  function Claimed(d: Dynamics, types: Counts): nat
  {
    if types == [] then 0
    else (if d.typeExists(types[0].0) then types[0].1 else 0) + Claimed(d, types[1..])
  }

  /** An offset inside the claimed prefix gets a recognised name taken from
      the table; an offset past it gets "RS". */
  lemma {:induction false} ArchetypeAtClaimed(d: Dynamics, types: Counts, k: nat)
    ensures k < Claimed(d, types) ==>
              d.typeExists(ArchetypeAt(d, types, k))
              && exists i :: 0 <= i < |types| && types[i].0 == ArchetypeAt(d, types, k)
    ensures k >= Claimed(d, types) ==> ArchetypeAt(d, types, k) == "RS"
  {
    if types != [] {
      if d.typeExists(types[0].0) {
        if k >= types[0].1 {
          ArchetypeAtClaimed(d, types[1..], k - types[0].1);
          if k < Claimed(d, types) {
            var i :| 0 <= i < |types[1..]| && types[1..][i].0 == ArchetypeAt(d, types, k);
            assert types[i + 1].0 == ArchetypeAt(d, types, k);
          }
        }
      } else {
        ArchetypeAtClaimed(d, types[1..], k);
        if k < Claimed(d, types) {
          var i :| 0 <= i < |types[1..]| && types[1..][i].0 == ArchetypeAt(d, types, k);
          assert types[i + 1].0 == ArchetypeAt(d, types, k);
        }
      }
    }
  }

  /** Removing an entry whose name is not a known archetype changes no
      offset's archetype. */
  lemma {:induction false} UnknownNameIsSkipped(d: Dynamics, types: Counts, i: nat, k: nat)
    requires i < |types| && !d.typeExists(types[i].0)
    ensures ArchetypeAt(d, types, k) == ArchetypeAt(d, types[..i] + types[i + 1..], k)
  {
    if i == 0 {
      assert types[..0] + types[1..] == types[1..];
    } else {
      var rest := types[1..];
      assert (types[..i] + types[i + 1..])[1..] == rest[..i - 1] + rest[i..];
      assert (types[..i] + types[i + 1..])[0] == types[0];
      if d.typeExists(types[0].0) {
        if k >= types[0].1 {
          UnknownNameIsSkipped(d, rest, i - 1, k - types[0].1);
        }
      } else {
        UnknownNameIsSkipped(d, rest, i - 1, k);
      }
    }
  }

  /** Offsets `lo .. hi-1` of the range starting at `start` take archetype
      `name` with their own noise value. */
  function Fill(d: Dynamics, ns: seq<Neuron>, start: nat, noise: seq<real>, lo: nat, hi: nat, name: string): (r: seq<Neuron>)
    requires start <= |ns| && |noise| == |ns| - start
    ensures |r| == |ns|
    ensures forall i :: 0 <= i < |ns| && !(start + lo <= i < start + hi) ==> r[i] == ns[i]
    ensures forall j :: lo <= j < hi && start + j < |ns| ==> r[start + j] == WithDefaults(d, ns[start + j], name, noise[j])
  {
    seq(|ns|, i requires 0 <= i < |ns| =>
      if start + lo <= i < start + hi then WithDefaults(d, ns[i], name, noise[i - start]) else ns[i])
  }

  /** The loop over the table entries. `k` is the next offset to assign and
      `kmax` the running total of recognised counts; the inner loop stops at
      the end of the range, so `k` is `kmax` capped at the range length. */
  function AssignRuns(d: Dynamics, ns: seq<Neuron>, start: nat, noise: seq<real>, types: Counts, k: nat, kmax: nat): (r: (seq<Neuron>, nat))
    requires start <= |ns| && |noise| == |ns| - start
    requires k == Min(kmax, |ns| - start)
    ensures |r.0| == |ns|
    ensures k <= r.1 <= |ns| - start
    ensures forall i :: 0 <= i < |ns| && !(start + k <= i < start + r.1) ==> r.0[i] == ns[i]
    ensures forall j :: k <= j < r.1 ==>
              r.0[start + j] == WithDefaults(d, ns[start + j], ArchetypeAt(d, types, j - k), noise[j])
    ensures forall o: nat :: r.1 <= k + o < |ns| - start ==> ArchetypeAt(d, types, o) == "RS"
    decreases |types|
  {
    if types == [] then (ns, k)
    else if d.typeExists(types[0].0) then
      var kmax' := kmax + types[0].1;
      var hi := Min(kmax', |ns| - start);
      AssignRuns(d, Fill(d, ns, start, noise, k, hi, types[0].0), start, noise, types[1..], hi, kmax')
    else
      AssignRuns(d, ns, start, noise, types[1..], k, kmax)
  }

  /** `set_default_params(types, start)` with the `size() - start` uniform
      draws passed in as `noise`: offset `k` of the range from `start` gets
      the archetype the table assigns it and noise value `noise[k]`;
      neurons below `start` and the edges are untouched. */
  function SetDefaultParams(d: Dynamics, net: Network, types: Counts, start: nat, noise: seq<real>): (r: Network)
    requires InKeyOrder(types)
    requires start <= |net.neurons| && |noise| == |net.neurons| - start
    ensures r.links == net.links
    ensures |r.neurons| == |net.neurons|
    ensures forall i :: 0 <= i < start ==> r.neurons[i] == net.neurons[i]
    ensures forall k :: 0 <= k < |net.neurons| - start ==>
              r.neurons[start + k] == WithDefaults(d, net.neurons[start + k], ArchetypeAt(d, types, k), noise[k])
  {
    var runs := AssignRuns(d, net.neurons, start, noise, types, 0, 0);
    net.(neurons := Fill(d, runs.0, start, noise, runs.1, |net.neurons| - start, "RS"))
  }

  /** The C++ conversion of a double to `size_t`: truncation toward zero,
      defined only when the truncated value is representable. */
  function ToSize(x: real): (r: nat)
    requires x > -1.0
    ensures x < 1.0 ==> r == 0
    ensures x >= 0.0 ==> r as real <= x < r as real + 1.0
  {
    if x < 0.0 then 0 else x.Floor
  }

  /** The product `resize` converts to a count is representable. */
  predicate FsDefined(inhib: real, added: nat)
  {
    inhib * added as real + 0.5 > -1.0
  }

  /** The number of "FS" neurons `resize` asks for among `added` new ones. */
  function FsCount(inhib: real, added: nat): nat
    requires FsDefined(inhib, added)
  {
    ToSize(inhib * added as real + 0.5)
  }

  /** `resize(n, inhib)` with the `n - old` uniform draws passed in as
      `noise`. The ensemble is resized before `n` is compared with the old
      size, so it is cut or extended to exactly `n` neurons; when
      it grows, the first `FsCount` new neurons become "FS" (if that
      archetype exists) and the rest "RS", each with its own draw. The edge
      store is left alone, even when cutting strands some of its edges. */
  function Resize(d: Dynamics, net: Network, n: nat, inhib: real, noise: seq<real>): (r: Network)
    requires |noise| == (if n > |net.neurons| then n - |net.neurons| else 0)
    requires n > |net.neurons| ==> FsDefined(inhib, n - |net.neurons|)
    ensures |r.neurons| == n
    ensures r.links == net.links
    ensures forall i :: 0 <= i < n && i < |net.neurons| ==> r.neurons[i] == net.neurons[i]
    ensures n > |net.neurons| ==>
              forall k :: 0 <= k < n - |net.neurons| ==>
                r.neurons[|net.neurons| + k]
                  == WithDefaults(d, d.blank,
                                  if k < FsCount(inhib, n - |net.neurons|) && d.typeExists("FS") then "FS" else "RS",
                                  noise[k])
  {
    if n <= |net.neurons| then net.(neurons := net.neurons[..n])
    else Grow(d, net, n, FsCount(inhib, n - |net.neurons|), noise)
  }

  /** The growing branch of `resize`: `n - old` default neurons are appended
      and `set_default_params` runs over them with the one-entry table
      {"FS": fs}, so the first `fs` of them become "FS" if that archetype
      exists and the rest "RS". */
  function Grow(d: Dynamics, net: Network, n: nat, fs: nat, noise: seq<real>): (r: Network)
    requires n > |net.neurons| && |noise| == n - |net.neurons|
    ensures |r.neurons| == n
    ensures r.links == net.links
    ensures forall i :: 0 <= i < |net.neurons| ==> r.neurons[i] == net.neurons[i]
    ensures forall k :: 0 <= k < n - |net.neurons| ==>
              r.neurons[|net.neurons| + k]
                == WithDefaults(d, d.blank, if k < fs && d.typeExists("FS") then "FS" else "RS", noise[k])
  {
    var prev := |net.neurons|;
    var grown := net.(neurons := net.neurons + seq(n - prev, _ => d.blank));
    SingleEntry(d, "FS", fs);
    SetDefaultParams(d, grown, [("FS", fs)], prev, noise)
  }

  /** A table with one entry gives its name to the first `count` offsets when
      the name is recognised, and "RS" to every other offset. */
  lemma SingleEntry(d: Dynamics, name: string, count: nat)
    ensures forall k: nat :: ArchetypeAt(d, [(name, count)], k)
                              == if k < count && d.typeExists(name) then name else "RS"
  {
    assert [(name, count)][1..] == [];
  }

  /** The number of neurons of archetype `name`. */
  function CountKind(ns: seq<Neuron>, name: string): nat
  {
    if ns == [] then 0 else (if ns[0].kind == name then 1 else 0) + CountKind(ns[1..], name)
  }

  lemma {:induction false} CountPrefixKind(ns: seq<Neuron>, name: string, m: nat)
    requires forall i :: 0 <= i < |ns| ==> (ns[i].kind == name <==> i < m)
    ensures CountKind(ns, name) == Min(m, |ns|)
  {
    if ns != [] {
      CountPrefixKind(ns[1..], name, if m == 0 then 0 else m - 1);
    }
  }

  /** Growing an empty ensemble to `n` neurons makes every neuron "FS" or
      "RS", and exactly `min(FsCount, n)` of them "FS" when that archetype
      exists (none otherwise). */
  lemma ResizeFromEmpty(d: Dynamics, net: Network, n: nat, inhib: real, noise: seq<real>)
    requires net.neurons == [] && |noise| == n
    requires n > 0 ==> FsDefined(inhib, n)
    ensures var r := Resize(d, net, n, inhib, noise);
            forall i :: 0 <= i < n ==> r.neurons[i].kind == "FS" || r.neurons[i].kind == "RS"
    ensures n > 0 ==>
              CountKind(Resize(d, net, n, inhib, noise).neurons, "FS")
                == if d.typeExists("FS") then Min(FsCount(inhib, n), n) else 0
  {
    var r := Resize(d, net, n, inhib, noise);
    if n > 0 {
      var m := if d.typeExists("FS") then FsCount(inhib, n) else 0;
      forall i | 0 <= i < n
        ensures r.neurons[i].kind == (if i < m then "FS" else "RS")
      {
        KindAfterGrowth(d, net, n, inhib, noise, i);
      }
      CountPrefixKind(r.neurons, "FS", m);
    }
  }

  lemma KindAfterGrowth(d: Dynamics, net: Network, n: nat, inhib: real, noise: seq<real>, i: nat)
    requires net.neurons == [] && |noise| == n && i < n
    requires FsDefined(inhib, n)
    ensures Resize(d, net, n, inhib, noise).neurons[i].kind
              == if i < FsCount(inhib, n) && d.typeExists("FS") then "FS" else "RS"
  {
    var r := Resize(d, net, n, inhib, noise);
    GrownNeuron(d, net, n, inhib, noise, r, i);
  }

  /** Neuron `i` of a network grown from empty is new neuron `i`. */
  lemma GrownNeuron(d: Dynamics, net: Network, n: nat, inhib: real, noise: seq<real>, r: Network, i: nat)
    requires net.neurons == [] && |noise| == n && i < n
    requires FsDefined(inhib, n)
    requires r == Resize(d, net, n, inhib, noise)
    ensures r.neurons[i] == WithDefaults(d, d.blank, if i < FsCount(inhib, n) && d.typeExists("FS") then "FS" else "RS", noise[i])
  {
    var prev := |net.neurons|;
    assert prev == 0 && n - prev == n;
    assert r.neurons[prev + i] == WithDefaults(d, d.blank,
      if i < FsCount(inhib, n - prev) && d.typeExists("FS") then "FS" else "RS", noise[i]);
  }
}
