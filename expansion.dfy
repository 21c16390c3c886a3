/**
 * The expanded-node set that every variant keeps for its tree view (`this.expandedNodes`,
 * a JavaScript `Set`): `toggleNode(id)` deletes the id when present and adds it otherwise.
 */
module Expansion {

  /** The set after `toggleNode(id)`: the id's membership is flipped and nothing else moves. */
  function Toggled<T(!new)>(s: set<T>, id: T): (r: set<T>)
    ensures id in r <==> id !in s
    ensures forall x :: x != id ==> (x in r <==> x in s)
  {
    if id in s then s - {id} else s + {id}
  }

  /** Toggling the same id twice restores the set. */
  lemma ToggleTwice<T(!new)>(s: set<T>, id: T)
    ensures Toggled(Toggled(s, id), id) == s
  {
  }
}
