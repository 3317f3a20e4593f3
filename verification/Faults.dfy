/**
 Where a run is cut: every durable step works, is denied by the storage gate, fails without effect, or never returns
 because the process dies.
 */
module Faults {

  datatype Outcome = Done | Denied | Fails | Crash

  predicate Clean(ahead: seq<Outcome>) {
    forall i :: 0 <= i < |ahead| ==> ahead[i] == Done
  }

  /** The outcomes of the steps to come; past its end every step works. */
  class Script {
    var ahead: seq<Outcome>

    constructor (outcomes: seq<Outcome>)
      ensures ahead == outcomes
    {
      ahead := outcomes;
    }

    method Next() returns (o: Outcome)
      modifies this
      ensures o == if old(ahead) == [] then Done else old(ahead)[0]
      ensures ahead == if old(ahead) == [] then [] else old(ahead)[1..]
      ensures old(Clean(ahead)) ==> Clean(ahead) && o == Done
    {
      o := Done;
      if ahead != [] {
        o := ahead[0];
        ahead := ahead[1..];
      }
    }
  }
}
