/**
 * Which graph elements the subgraph view lets through: the visibility tests,
 * the filter step the rewrite inserts, and the guarded id lookups.
 */
module Visibility {
  import opened Wrappers

  /** A graph element flowing through a traversal. */
  datatype Element<V, E> = VertexElement(vertex: V) | EdgeElement(edge: E)

  /** The two criteria the subgraph view is built from. */
  datatype Subgraph<!V, !E> = Subgraph(vertexCriterion: V -> bool, edgeCriterion: E -> bool)

  /**
   * What `edge.inV()` and `edge.outV()` yield for an edge in the graph it is
   * read from: `Some` when the traversal has a next vertex.
   */
  datatype EndpointView<V, !E> = EndpointView(inV: E -> Option<V>, outV: E -> Option<V>)

  /** The underlying graph's incidence: the in- and out-vertex of every edge. */
  datatype Incidence<V, !E> = Incidence(inVertex: E -> V, outVertex: E -> V)

  predicate TestVertex<V, E>(sg: Subgraph<V, E>, v: V) {
    sg.vertexCriterion(v)
  }

  predicate TestEdge<V, E>(sg: Subgraph<V, E>, view: EndpointView<V, E>, e: E) {
    sg.edgeCriterion(e) && view.inV(e).Some? && view.outV(e).Some?
  }

  predicate TestElement<V, E>(sg: Subgraph<V, E>, view: EndpointView<V, E>, x: Element<V, E>) {
    match x
    case VertexElement(v) => TestVertex(sg, v)
    case EdgeElement(e) => TestEdge(sg, view, e)
  }

  /** Endpoints as seen from inside the subgraph: hidden vertices yield nothing. */
  function SubgraphEndpoints<V, E>(sg: Subgraph<V, E>, inc: Incidence<V, E>): EndpointView<V, E> {
    EndpointView(
      e => if sg.vertexCriterion(inc.inVertex(e)) then Some(inc.inVertex(e)) else None,
      e => if sg.vertexCriterion(inc.outVertex(e)) then Some(inc.outVertex(e)) else None)
  }

  /** Endpoints as seen from the unfiltered graph: every edge has both. */
  function BaseEndpoints<V, E>(inc: Incidence<V, E>): EndpointView<V, E> {
    EndpointView(e => Some(inc.inVertex(e)), e => Some(inc.outVertex(e)))
  }

  /**
   * Read inside the subgraph, an edge is visible exactly when it passes the
   * edge criterion and both incident vertices pass the vertex criterion.
   */
  lemma EdgeVisibleIffEndpointsVisible<V, E>(sg: Subgraph<V, E>, inc: Incidence<V, E>, e: E)
    ensures TestEdge(sg, SubgraphEndpoints(sg, inc), e)
        <==> sg.edgeCriterion(e) && TestVertex(sg, inc.inVertex(e)) && TestVertex(sg, inc.outVertex(e))
  {
  }

  /**
   * Read from the unfiltered graph, the endpoint checks always succeed and an
   * edge is visible exactly when it passes the edge criterion.
   */
  lemma BaseEdgeVisibleIffEdgeCriterion<V, E>(sg: Subgraph<V, E>, inc: Incidence<V, E>, e: E)
    ensures TestEdge(sg, BaseEndpoints(inc), e) <==> sg.edgeCriterion(e)
  {
  }

  /**
   * The filter step inserted by the rewrite, run over a stream of elements:
   * only elements passing `TestElement` come out.
   */
  function SubgraphFilter<V(==), E(==)>(sg: Subgraph<V, E>, view: EndpointView<V, E>, ts: seq<Element<V, E>>)
    : (r: seq<Element<V, E>>)
    ensures |r| <= |ts|
    ensures forall i :: 0 <= i < |r| ==> TestElement(sg, view, r[i])
  {
    if ts == [] then []
    else (if TestElement(sg, view, ts[0]) then [ts[0]] else []) + SubgraphFilter(sg, view, ts[1..])
  }

  /**
   * The filter keeps exactly the elements that pass `TestElement`, each as
   * often as it arrived, and drops every other one.
   */
  lemma {:induction false} FilterCounts<V(!new), E(!new)>(
    sg: Subgraph<V, E>, view: EndpointView<V, E>, ts: seq<Element<V, E>>, x: Element<V, E>)
    ensures multiset(SubgraphFilter(sg, view, ts))[x] == if TestElement(sg, view, x) then multiset(ts)[x] else 0
  {
    if ts != [] {
      assert ts == [ts[0]] + ts[1..];
      FilterCounts(sg, view, ts[1..], x);
    }
  }

  /** Filtering a concatenated stream filters each part in place: order is kept. */
  lemma {:induction false} FilterAppend<V(!new), E(!new)>(
    sg: Subgraph<V, E>, view: EndpointView<V, E>, a: seq<Element<V, E>>, b: seq<Element<V, E>>)
    ensures SubgraphFilter(sg, view, a + b) == SubgraphFilter(sg, view, a) + SubgraphFilter(sg, view, b)
  {
    if a != [] {
      assert (a + b)[1..] == a[1..] + b;
      FilterAppend(sg, view, a[1..], b);
    } else {
      assert a + b == b;
    }
  }

  /** A stream of visible elements passes the filter unchanged. */
  lemma {:induction false} FilterKeepsVisible<V(!new), E(!new)>(
    sg: Subgraph<V, E>, view: EndpointView<V, E>, ts: seq<Element<V, E>>)
    requires forall i :: 0 <= i < |ts| ==> TestElement(sg, view, ts[i])
    ensures SubgraphFilter(sg, view, ts) == ts
  {
    if ts != [] {
      FilterKeepsVisible(sg, view, ts[1..]);
    }
  }

  /**
   * A second filter step right after the first changes nothing: re-applying
   * the rewrite duplicates the step but not its effect on the stream.
   */
  lemma FilterTwice<V(!new), E(!new)>(sg: Subgraph<V, E>, view: EndpointView<V, E>, ts: seq<Element<V, E>>)
    ensures SubgraphFilter(sg, view, SubgraphFilter(sg, view, ts)) == SubgraphFilter(sg, view, ts)
  {
    FilterKeepsVisible(sg, view, SubgraphFilter(sg, view, ts));
  }

  /** The condition the graph signals when an element is absent or hidden. */
  datatype GraphException = ElementNotFound | OtherException(message: string)

  /** An element handed out by the strategy-wrapped graph `graph`. */
  datatype StrategyWrapped<T, G> = StrategyWrapped(base: T, graph: G)

  /**
   * Vertex lookup by id through the subgraph view: `find` is the underlying
   * graph's lookup, whose failure passes through; a found vertex that fails
   * the vertex test is reported as not found.
   */
  function LookupVertex<Id, V, E, G>(
    sg: Subgraph<V, E>, ctx: G, find: Id -> Result<V, GraphException>, id: Id)
    : (r: Result<StrategyWrapped<V, G>, GraphException>)
    ensures r.Success? <==> find(id).Success? && TestVertex(sg, find(id).value)
    ensures r.Success? ==> r.value.base == find(id).value && r.value.graph == ctx
    ensures find(id).Failure? ==> r.Failure? && r.error == find(id).error
    ensures find(id).Success? && r.Failure? ==> r.error == ElementNotFound
  {
    match find(id)
    case Failure(err) => Failure(err)
    case Success(v) =>
      if !TestVertex(sg, v) then Failure(ElementNotFound) else Success(StrategyWrapped(v, ctx))
  }

  /**
   * Edge lookup by id through the subgraph view; `view` answers the endpoint
   * checks for the edge the underlying lookup returned.
   */
  function LookupEdge<Id, V, E, G>(
    sg: Subgraph<V, E>, view: EndpointView<V, E>, ctx: G, find: Id -> Result<E, GraphException>, id: Id)
    : (r: Result<StrategyWrapped<E, G>, GraphException>)
    ensures r.Success? <==> find(id).Success? && TestEdge(sg, view, find(id).value)
    ensures r.Success? ==> r.value.base == find(id).value && r.value.graph == ctx
    ensures find(id).Failure? ==> r.Failure? && r.error == find(id).error
    ensures find(id).Success? && r.Failure? ==> r.error == ElementNotFound
  {
    match find(id)
    case Failure(err) => Failure(err)
    case Success(e) =>
      if !TestEdge(sg, view, e) then Failure(ElementNotFound) else Success(StrategyWrapped(e, ctx))
  }

  /**
   * The id path and the traversal path agree: a vertex lookup succeeds exactly
   * when the filter step would let the found vertex through.
   */
  lemma VertexLookupAgreesWithFilter<Id, V(!new), E(!new), G>(
    sg: Subgraph<V, E>, view: EndpointView<V, E>, ctx: G, find: Id -> Result<V, GraphException>, id: Id)
    requires find(id).Success?
    ensures LookupVertex(sg, ctx, find, id).Success?
        <==> SubgraphFilter(sg, view, [VertexElement(find(id).value)]) == [VertexElement(find(id).value)]
  {
  }

  /** The same agreement for edge lookups. */
  lemma EdgeLookupAgreesWithFilter<Id, V(!new), E(!new), G>(
    sg: Subgraph<V, E>, view: EndpointView<V, E>, ctx: G, find: Id -> Result<E, GraphException>, id: Id)
    requires find(id).Success?
    ensures LookupEdge(sg, view, ctx, find, id).Success?
        <==> SubgraphFilter(sg, view, [EdgeElement(find(id).value)]) == [EdgeElement(find(id).value)]
  {
  }
}
