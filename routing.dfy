/**
 * Keyword routing as both question routers do it: a fixed list of routes, each a set of
 * keywords, is tried in order and the first route with a keyword inside the text wins.
 */
module Routing {
  import opened Strings

  /** Some keyword of `keys` occurs in `text`. */
  predicate Mentions(text: string, keys: seq<string>)
  {
    exists k :: k in keys && Contains(text, k)
  }

  /** The target of the first route that `text` mentions, `default` when none does. */
  function FirstRoute<A>(text: string, routes: seq<(seq<string>, A)>, default: A): (r: A)
    ensures (forall i :: 0 <= i < |routes| ==> !Mentions(text, routes[i].0)) ==> r == default
    ensures forall i :: (0 <= i < |routes| && Mentions(text, routes[i].0) &&
      (forall j :: 0 <= j < i ==> !Mentions(text, routes[j].0))) ==> r == routes[i].1
  {
    if routes == [] then default
    else if Mentions(text, routes[0].0) then routes[0].1
    else
      var r := FirstRoute(text, routes[1..], default);
      assert forall i :: 1 <= i < |routes| ==> routes[i] == routes[1..][i - 1];
      r
  }

  /** The first route is taken when the text mentions it; otherwise the search goes on with the rest. */
  lemma FirstRouteHead<A>(text: string, routes: seq<(seq<string>, A)>, default: A)
    requires routes != []
    ensures FirstRoute(text, routes, default) ==
      if Mentions(text, routes[0].0) then routes[0].1 else FirstRoute(text, routes[1..], default)
  {
  }

  lemma MentionsOne(text: string, a: string)
    ensures Mentions(text, [a]) <==> Contains(text, a)
  {
    if Contains(text, a) {
      assert a in [a];
    }
  }

  lemma MentionsTwo(text: string, a: string, b: string)
    ensures Mentions(text, [a, b]) <==> Contains(text, a) || Contains(text, b)
  {
    if Contains(text, a) {
      assert a in [a, b];
    }
    if Contains(text, b) {
      assert b in [a, b];
    }
  }
}
