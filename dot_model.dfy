/**
 * The product tree the Python service keeps in `current_product_tree` (dot/main.py): the JSON
 * the browser posts, a list of node objects and a list of edge objects. Any key of a node may
 * be missing; a missing key (or a JSON null) is `None`.
 */
module DotModel {
  import opened Wrappers
  import opened FlatModel

  /** A string-valued key of a node object: `None` when the key is absent. */
  type Field = Option<string>

  datatype DotNode = DotNode(id: Field, title: Field, nodeType: Field, description: Field, status: Field,
                             priority: Field, team: Field, owner: Field, effort: Field)

  /** Edges are the browser's `{from, to, type}` records; the service reads only `from` and `to`. */
  datatype DotTree = DotTree(nodes: seq<DotNode>, edges: seq<FlatEdge>)

  /** Python truthiness of a string value: present and not empty. */
  predicate Truthy(v: Field)
  {
    v.Some? && v.value != ""
  }

  /** Every node has an `id` key, so `node['id']` does not raise `KeyError`. */
  predicate AllIds(nodes: seq<DotNode>)
  {
    forall n :: n in nodes ==> n.id.Some?
  }

  function NodeIds(nodes: seq<DotNode>): set<Option<string>>
  {
    set n | n in nodes :: n.id
  }

  /** The `from` values of the edges. */
  function Froms(edges: seq<FlatEdge>): set<Option<string>>
  {
    set e | e in edges :: e.from
  }

  /** The `to` values of the edges. */
  function Tos(edges: seq<FlatEdge>): set<Option<string>>
  {
    set e | e in edges :: e.to
  }

  /** `m.get(x, [])` on a dict of id lists. */
  function ListAt(m: map<Option<string>, seq<Option<string>>>, x: Option<string>): seq<Option<string>>
  {
    if x in m then m[x] else []
  }

  /** The edges as a graph, for the walk and cycle predicates stated on flat trees. */
  function Graph(edges: seq<FlatEdge>): FlatTree
  {
    FlatTree([], edges)
  }
}
