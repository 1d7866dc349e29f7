/** Types shared by the modules. */
module Common {

  datatype Option<+T> = None | Some(value: T)

  // One individual of a population: its decision vector and its fitness vector.
  datatype Individual = Individual(x: seq<real>, f: seq<real>)

  type Population = seq<Individual>

  type WorkerId = string
  type IslandId = string

  // The package that travels between island, controller and worker.
  datatype Work = Work(algo: string, pop: Population, preferredWorkerId: WorkerId, cycleCount: nat)
}
