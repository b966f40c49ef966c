/** The neuron as the network engine sees it.

    The neuron class itself is not part of this model. The network only
    reads and writes an archetype name, a parameter record and the two state
    values it reports (potential and recovery); everything else it asks of a
    neuron (is it firing, is it inhibitory, reset it, feed it a current,
    advance it) is an uninterpreted capability, passed in as a `Dynamics`
    value, so the properties hold whatever those behaviours are. Two neuron
    operations are fixed rather than left open: the neuron's own
    `set_default_params` (`WithDefaults`) writes only the archetype name and
    the perturbed default parameters, and the setters are plain writes of
    one field. */
module Neurons {

  /** Izhikevich parameters a, b, c, d: the columns of the parameter report. */
  datatype Params = Params(a: real, b: real, c: real, d: real)

  /** One neuron: its archetype name ("RS", "FS", ...), its parameters and
      the two state variables the network can read back. */
  datatype Neuron = Neuron(kind: string, params: Params, potential: real, recovery: real)

  /** The neuron capabilities the network consumes without defining them. */
  datatype Dynamics = Dynamics(
    blank: Neuron,                       // a default-constructed neuron
    typeExists: string -> bool,          // is this a known archetype name?
    defaults: (string, real) -> Params,  // archetype defaults perturbed by one noise value
    inhibitory: Neuron -> bool,
    firing: Neuron -> bool,
    reset: Neuron -> Neuron,             // back to the post-spike baseline
    input: (Neuron, real) -> Neuron,     // inject a current
    advance: Neuron -> Neuron)           // one step of the internal dynamics

  /** The neuron's own `set_default_params(name, noise)`: it takes the named
      archetype and that archetype's parameters perturbed by `noise`. */
  function WithDefaults(d: Dynamics, nr: Neuron, name: string, noise: real): Neuron
  {
    nr.(kind := name, params := d.defaults(name, noise))
  }
}
