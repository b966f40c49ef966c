# NeuronNet network engine, modelled in Dafny

This project models the network engine of NeuronNet (`src/network.cpp`). The
engine is a discrete-time simulator of spiking neurons joined by a sparse,
directed, weighted graph. It is built from six modules:

- `Neurons` (`neurons.dfy`): the neuron record the network reads and writes:
  archetype name, Izhikevich parameters, potential and recovery. It also
  holds `Dynamics`, the neuron capabilities the network uses but does not
  define. These are the archetype table, the default parameters per
  archetype, `is_inhibitory`, `firing`, `reset`, `input` and the neuron's own
  `step`. They are uninterpreted functions, so the properties hold whatever
  those behaviours are. Two neuron operations are fixed rather than left
  open: the neuron's own `set_default_params(name, noise)` sets only the
  archetype name and the perturbed default parameters (potential and
  recovery are untouched), and the setters `set_type`, `set_params` and
  `potential(v)` are plain writes of one field.
- `EdgeStore` (`edges.dfy`): the ordered edge map keyed by (source, target).
  It defines `neighbors` and `degree` as a scan of one source's key range in
  ascending target order.
- `Net` (`network.dfy`): the network (ensemble plus edge store) with
  `add_link`, `set_types_params`, `set_values`, `potentials` and
  `recoveries`.
- `Archetypes` (`archetypes.dfy`): `set_default_params`, which walks a
  name -> count table in key order and assigns runs of archetypes, and
  `resize`.
- `Rewiring` (`rewiring.dfy`): `random_connect`.
- `Timestep` (`timestep.dfy`): `step`, the firing/reset phase and the
  current-aggregation phase.

Randomness enters as explicit inputs:

- Each noise sequence holds one uniform draw per neuron being initialised.
- `Draws` holds, for each source node, its Poisson out-degree, its shuffled
  candidate order and its batch of strengths.

Weights and currents are `real`.

Where the code does something surprising or unsafe, the model follows the
code:

- `resize(n, …)` with `n` below the current size truncates the ensemble,
  because `neurons.resize(n)` runs before the size comparison
  (src/network.cpp:6-7). It is not a no-op. Edges into or out of the removed
  neurons stay in the store.
- `add_link` refuses every strength below 1e-6, negative strengths included.
  The code tests `str < 1e-6`, not the absolute value (src/network.cpp:39).
- `degree` and `neighbors` stop their scan by dereferencing
  `lower_bound({n+1, 0})`, which may be the end of the map
  (src/network.cpp:70, 83). They are modelled as the plain range scan that
  comparison means.
- `step` declares its two accumulators without initialising them
  (src/network.cpp:129-130). They are modelled as starting at zero.
- The current of neuron `n` is gathered from the edges stored with `n` as
  their first component, that is, from `n`'s out-edges.

## Model

| member | source | states |
|---|---|---|
| `EdgeStore.Neighbors` | src/network.cpp:78-87 | lists exactly one pair (t, w) for each stored edge (n, t), with w its stored weight, in strictly ascending t; the list length equals the number of targets of n |
| `EdgeStore.Degree` | src/network.cpp:65-75 | the edge count is the number of distinct targets stored for source n |
| `EdgeStore.DegreeMatchesNeighbors` | src/network.cpp:65-87 | degree(n) is (length of neighbors(n), sum of its weights) for every store and node |
| `EdgeStore.DegreeAfterInsert` | src/network.cpp:65-75 | inserting a new edge (a, b) of weight w raises a's degree by exactly one edge and w, wherever b falls in the scan order |
| `EdgeStore.DegreeOtherAfterInsert` | src/network.cpp:65-75 | inserting an edge out of a leaves every other node's degree unchanged |
| `Net.AddLink` | src/network.cpp:38-44 | succeeds iff a != b, both indices are in range, str >= 1e-6 and (a, b) is absent; on refusal the network is unchanged; on success exactly the key (a, b) is added, with weight -2 str when the target b is inhibitory and str otherwise; old entries and the neurons are untouched |
| `Net.AddLinkWellFormed` | src/network.cpp:38-40 | insertion never creates a self-loop or an edge with an end outside the ensemble |
| `Net.AddLinkDegree` | src/network.cpp:38-44 | a successful add_link raises the source's degree by one edge and by the stored weight; every other degree, and every degree after a refusal, is unchanged |
| `Net.Potentials` | src/network.cpp:90-95 | returns every neuron's potential, one per neuron, in ensemble order |
| `Net.Recoveries` | src/network.cpp:97-102 | returns every neuron's recovery value, one per neuron, in ensemble order |
| `Net.SetTypesParams` | src/network.cpp:24-31 | neuron start+k takes name types[k] and parameters par[k] for k < len(par); every other neuron and the edges are unchanged; requires start+len(par) <= size and len(types) >= len(par) |
| `Net.SetValues` | src/network.cpp:33-36 | neuron start+k takes potential poten[k], keeping its other fields; every other neuron and the edges are unchanged; requires start+len(poten) <= size |
| `Archetypes.AssignRuns` | src/network.cpp:17-20 | the loop over the table assigns offsets k .. k'-1 their archetype and noise[j], touches nothing else, and leaves only offsets that the table assigns "RS" past k' |
| `Archetypes.SetDefaultParams` | src/network.cpp:12-22 | offset k of the range from start gets the archetype the table assigns it and noise value noise[k]; indices below start and the edges are untouched |
| `Archetypes.ArchetypeAtClaimed` | src/network.cpp:17-21 | an offset inside the counts claimed by recognised names gets a recognised name from the table; every later offset gets "RS" |
| `Archetypes.UnknownNameIsSkipped` | src/network.cpp:17-20 | deleting an unrecognised name from the table changes no offset's archetype: it neither advances kmax nor assigns an index |
| `Archetypes.ToSize` | src/network.cpp:8 | the double to size_t conversion truncates: the result is the integer part of a non-negative value, and 0 for a value in (-1, 1) |
| `Archetypes.Resize` | src/network.cpp:4-10 | the ensemble has exactly n neurons; old neurons below n and the edges are unchanged; when growing, new neuron k is a default neuron given "FS" when k < nfs and "FS" exists, "RS" otherwise, with noise[k] |
| `Archetypes.Grow` | src/network.cpp:6-9 | growing to n neurons keeps the old neurons and the edges and makes new neuron k a default neuron of archetype "FS" when k < fs and "FS" exists, "RS" otherwise, with noise[k] |
| `Archetypes.SingleEntry` | src/network.cpp:9-21 | the one-entry table {"FS": nfs} that resize passes assigns "FS" to the first nfs offsets when that archetype exists and "RS" to every other offset |
| `Archetypes.ResizeFromEmpty` | src/network.cpp:4-10 | resizing an empty ensemble to n makes every neuron FS or RS, and exactly min(nfs, n) of them FS when that archetype exists, none otherwise |
| `Rewiring.ConnectNode` | src/network.cpp:57-59 | one node's walk uses no more strengths than it has; the targets it gains are distinct, differ from the node, lie in range, were not linked before and come from the candidate list |
| `Rewiring.ConnectNodeKeys` | src/network.cpp:57-60 | the walk adds exactly the edges from the node to the targets it gained, so the store grows by their number |
| `Rewiring.ConnectNodeKeeps` | src/network.cpp:58-59 | the walk never changes an edge that was already stored |
| `Rewiring.ConnectNodeWeight` | src/network.cpp:55-59 | the k-th target gained is stored with the weight of strength nl+k: strengths are used up only by successful insertions |
| `Rewiring.ConnectNodeFills` | src/network.cpp:57-59 | when every remaining strength is at least 1e-6, the walk inserts min(remaining strengths, open candidates) edges |
| `Rewiring.ConnectNodeOrder` | src/network.cpp:58-59 | the targets the walk gains are an initial segment of the candidates that are open before the walk, in candidate order, first occurrences only; a strength below 1e-6 is never used up, so once reached the walk gains nothing more |
| `Rewiring.OpenOrderElements` | src/network.cpp:58-59 | the open candidates in candidate order name each candidate that is in range, not the node and not yet linked from it, exactly once |
| `Rewiring.ConnectNodeExact` | src/network.cpp:55-59 | when every remaining strength is at least 1e-6, the walk gains exactly the first min(remaining strengths, open candidates) open candidates, in candidate order |
| `Rewiring.Rewire` | src/network.cpp:53-61 | after the first m source nodes, node i gained at most degrees[i] distinct in-range targets other than itself |
| `Rewiring.RewireCount` | src/network.cpp:50-60 | the running sum of per-node insertions equals the number of edges in the store |
| `Rewiring.RewireKeys` | src/network.cpp:47-61 | after the first m source nodes, the store holds exactly the edges from each of them to the targets it gained, starting from a cleared store |
| `Rewiring.RewireKey` | src/network.cpp:47-61 | a single edge (a, b) is stored after the first m source nodes iff a < m and b is among the targets a gained |
| `Rewiring.RewireWeight` | src/network.cpp:53-61 | after the first m source nodes, the k-th target node i gained carries the weight of strength k of i's batch |
| `Rewiring.RewireChosenStable` | src/network.cpp:53-60 | the targets a node gains in its own iteration are still its targets after every later iteration |
| `Rewiring.RewireEdgeStable` | src/network.cpp:53-60 | an edge inserted in one iteration of the outer loop is kept with its weight by every later iteration |
| `Rewiring.RewireChosen` | src/network.cpp:51-59 | the targets node i gains are an initial segment of its shuffled order restricted to first occurrences of the other neurons of the ensemble: earlier nodes never close a candidate of i |
| `Rewiring.RandomConnect` | src/network.cpp:46-63 | all old edges are gone; the result counts the edges stored; the store is exactly each node's gained targets, none a self-loop or out of range; node i gains at most degrees[i], its k-th edge carries strength k, and its targets are the first open candidates of its shuffled order (an initial segment of the first occurrences of the other neurons, in that order) |
| `Rewiring.RandomConnectDegree` | src/network.cpp:46-63 | after rewiring, degree(node) counts the node's gained targets and is at most min(degrees[node], size - 1) |
| `Rewiring.RewireExact` | src/network.cpp:53-61 | with true permutations as candidate orders and strengths of at least 1e-6, node i gains exactly min(degrees[i], size - 1) targets |
| `Rewiring.RewireExactLast` | src/network.cpp:54-59 | a node whose shuffled order is a permutation and whose strengths are all at least 1e-6 gains min(degrees[i], size - 1) targets in its own iteration |
| `Rewiring.RandomConnectExact` | src/network.cpp:46-63 | the same exact out-degree holds for the whole random_connect |
| `Rewiring.ZeroDegreesNoEdges` | src/network.cpp:46-63 | when every drawn degree is zero, random_connect returns 0 and leaves the store empty |
| `Timestep.ResetFiring` | src/network.cpp:107-113 | the returned set holds exactly the indices firing on entry; each of those neurons is reset and every other neuron is unchanged |
| `Timestep.Sums` | src/network.cpp:127-140 | the single pass over neighbors(n) yields the sum of weights of firing excitatory targets and the sum of weights of firing inhibitory targets |
| `Timestep.ScaleInputs` | src/network.cpp:117-124 | one scaled input per neuron: 0.4 times its input when it is inhibitory, its input otherwise |
| `Timestep.Currents` | src/network.cpp:126-141 | neuron n's current is its scaled input plus half the weight of its out-edges to firing excitatory targets minus the weight of those to firing inhibitory targets |
| `Timestep.Inject` | src/network.cpp:143-146 | every neuron takes its own current and is advanced exactly once; no neuron's update depends on another's |
| `Timestep.Drive` | src/network.cpp:115-147 | every neuron receives its modulated input plus half its excitatory sum minus its inhibitory sum, and is advanced exactly once |
| `Timestep.Step` | src/network.cpp:105-149 | returns exactly the set firing on entry; the edges are unchanged; with a mismatched input length only the resets happen, so reset neurons stop firing if a reset ends a spike; otherwise each neuron gets the current computed from the post-reset ensemble and is advanced once |
| `Timestep.StepIgnoresSynapses` | src/network.cpp:131-139 | if a reset always ends a spike, the as-written step gives every neuron only its modulated input, whatever the edges and weights |
| `Timestep.ResetHidesSpikeExample` | src/network.cpp:107-139 | a two-neuron network where the as-written current of neuron 0 is 0 and the snapshot current is 5 |
| `Timestep.StepSnapshot` | src/network.cpp:105-149 | like Step, but the firing and polarity of each edge's target are read from the ensemble as it was on entry |
| `Timestep.SnapshotSeesSpikes` | src/network.cpp:127-140 | with the entry snapshot, a neuron whose out-edges all end at firing excitatory neurons receives its modulated input plus half its total out-weight as degree reports it |

## Left out

- `src/random.cpp`: the Mersenne Twister engine and its uniform, normal and Poisson distributions are not modelled. Their draws are inputs: noise sequences, `Draws.degrees`, `Draws.strengths`.
- `shuffle` (declared in `random.h`, which is not part of this model): each node's shuffled candidate order is the input `Draws.order`. `Rewiring.RewireExact` assumes each order is a permutation.
- Neuron internals: `firing`, `reset`, the neuron `step`, `input`, `is_inhibitory`, `type_exists`, the archetype parameter tables and `formatted_*`. The neuron class is not part of this model, so these are the uninterpreted fields of `Dynamics`.
- The neuron's own `set_default_params(name, noise)` is modelled as setting the archetype and the perturbed default parameters. Whatever else it does to a neuron's state is not modelled.
- The report writers `print_params`, `print_head` and `print_traj` (src/network.cpp:172-223): stream formatting and I/O.
- The commented-out block at src/network.cpp:150-170: it is not compiled.
- IEEE double rounding: weights, currents and the product `inhib*(n-old)+.5` are exact reals.
- `Archetypes.ToSize`: requires the value to exceed -1, so conversions at or below -1 (undefined in C++) are excluded. Values beyond the range of `size_t`, also undefined in C++, are not excluded: they convert to their unbounded integer part.
- `Archetypes.SetDefaultParams`: requires `start <= size()`. In the source, a larger `start` makes `size()-start` wrap around in `size_t` (src/network.cpp:14), and allocating the noise vector of that length (line 15) throws `std::length_error` before any neuron changes. That error path is not modelled. The only caller, `resize`, passes `start = old <= n`.
- Integer widths: `size_t` indices and the `int` degrees are unbounded naturals. Overflow of `start+k` and negative Poisson draws cannot arise in the model.
- `Timestep.Step`, `Timestep.StepSnapshot`: require that every edge leaving a neuron of the ensemble ends inside it when the input length matches. The source indexes the far end of each edge without a check, and edges left dangling by a shrinking `resize` would be read out of bounds.

## Findings

| source | as written | input that shows it | evidently intended | confidence | as-written member | corrected member |
|---|---|---|---|---|---|---|
| src/network.cpp:131-132 | phase two asks `firing()` and `is_inhibitory()` of each target after phase one has already reset every firing neuron, so when a reset ends a spike no target is ever seen firing and the synaptic sums are always zero | two "RS" neurons, an edge 0 -> 1 of weight 10, neuron 1 at potential 30 (firing), inputs [0, 0], with a reset that returns the potential to -65: neuron 0 receives 0 instead of 0.5 * 10 = 5 | the firing state of every neuron is taken at the start of the step, before any reset, and phase two reads that snapshot | not executed; depends on the neuron's reset ending its spike, and the neuron class is not part of this model | `Timestep.Step`, `Timestep.StepIgnoresSynapses`, `Timestep.ResetHidesSpikeExample` | `Timestep.StepSnapshot`, `Timestep.SnapshotSeesSpikes` |
