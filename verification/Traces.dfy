/** Histories of state machines: the turns taken and the states that they lead through. */
module Traces {

  ghost predicate IsTrace<S, T>(act: (S, T) -> S, turns: seq<T>, states: seq<S>) {
    && |states| == |turns| + 1
    && forall i {:trigger turns[i]} :: 0 <= i < |turns| ==> states[i + 1] == act(states[i], turns[i])
  }

  /** One more turn. */
  lemma ExtendTrace<S, T>(act: (S, T) -> S, turns: seq<T>, states: seq<S>, t: T)
    requires IsTrace(act, turns, states)
    ensures IsTrace(act, turns + [t], states + [act(states[|turns|], t)])
  {
  }

  /** A trace without its last turn is a trace. */
  lemma ShortenTrace<S, T>(act: (S, T) -> S, turns: seq<T>, states: seq<S>)
    requires IsTrace(act, turns, states) && turns != []
    ensures var n := |turns| - 1;
      IsTrace(act, turns[..n], states[..n + 1]) && states[n + 1] == act(states[n], turns[n])
  {
    assert turns[|turns| - 1] == turns[|turns| - 1];
  }
}
