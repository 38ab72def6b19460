# Subgraph strategy: a Dafny model

This project models the subgraph view of a Gremlin graph, `SubgraphStrategy`.
A subgraph view is given a vertex criterion and an edge criterion. It hides every element that fails them, on two access paths:

- **Traversals.** When the view wraps a traversal it registers a traversal strategy. That strategy rewrites the step pipeline: after every step that brings elements in from the graph (a `GraphStep`, a `VertexStep` or an `EdgeVertexStep`, subclasses included), it inserts a `SubgraphFilterStep`. The filter step keeps an element only if it passes the element test.
- **Id lookups.** Vertex and edge lookups by id go through the same tests. A hidden element is reported as `elementNotFound`. A visible one is returned wrapped in the strategy graph.

Modules:

- `Wrappers` (wrappers.dfy): `Option` and `Result`.
- `Steps` (steps.dfy): step kinds, positional insertion, and strategy registration on a traversal.
- `Interleaving` (interleave.dfy): the declarative rewrite. A filter is interleaved after every element-introducing step. The lemmas here state its properties: length, placement, coverage, order, and inverse.
- `Rewrite` (rewrite.dfy): the imperative rewrite as the code performs it. It collects positions in ascending order, reverses them, and inserts at `pos + 1` from the highest position down. It is proved equal to the declarative rewrite.
- `Visibility` (visibility.dfy): the vertex, edge and element tests, the filter step over a stream of elements, and the guarded id lookups.

The two criteria are opaque function parameters. Whether `edge.inV()` / `edge.outV()` yield a vertex is an abstract input, `EndpointView`. Two concrete views are given:

- `SubgraphEndpoints`: endpoints read inside the subgraph, where hidden vertices yield nothing.
- `BaseEndpoints`: endpoints read from the unfiltered graph.

With the first view, an edge is visible exactly when it passes the edge criterion and both its endpoints pass the vertex criterion. That is the intent the source's comment states. With the second view, only the edge criterion matters.

The subgraph rewrite is not idempotent, because the code checks for no marker step. The model follows the code instead: Running the rewrite on its own output adds a second filter after every element-introducing step. `Interleaving.SecondFilter` proves where it goes. `Interleaving.ReapplyAddsFilters` proves that the output grows again by the number of element-introducing steps, and is unchanged only when there are none. `Visibility.FilterTwice` proves that this duplicate filter does not change the stream.

## Model

| member | source | states |
|---|---|---|
| Steps.IntroducesElements | gremlin-core/src/main/java/com/tinkerpop/gremlin/structure/strategy/SubgraphStrategy.java:113-118 | defined exactly as the Java test: a step is matched iff it is a GraphStep, VertexStep or EdgeVertexStep, subclasses included |
| Steps.InsertStep | gremlin-core/src/main/java/com/tinkerpop/gremlin/structure/strategy/SubgraphStrategy.java:123 | inserting a step at `index` puts it there, keeps the prefix, and shifts every later step one place right |
| Steps.ApplyStrategyToTraversal | gremlin-core/src/main/java/com/tinkerpop/gremlin/structure/strategy/SubgraphStrategy.java:39-43 | wrapping a traversal registers the subgraph traversal strategy, keeps the strategies already registered, and leaves the steps untouched |
| Interleaving.Interleave | gremlin-core/src/main/java/com/tinkerpop/gremlin/structure/strategy/SubgraphStrategy.java:113-124 | the rewritten pipeline is longer than the original by exactly the number of GraphStep/VertexStep/EdgeVertexStep steps |
| Interleaving.StripInterleave | gremlin-core/src/main/java/com/tinkerpop/gremlin/structure/strategy/SubgraphStrategy.java:116-124 | deleting the filter that follows each element-introducing step gives back exactly the original step sequence |
| Interleaving.PosMonotone | gremlin-core/src/main/java/com/tinkerpop/gremlin/structure/strategy/SubgraphStrategy.java:116-124 | original steps keep their relative order in the result, and an element-introducing step leaves one extra slot (its filter) before the next original step |
| Interleaving.InterleavePlacement | gremlin-core/src/main/java/com/tinkerpop/gremlin/structure/strategy/SubgraphStrategy.java:112-124 | every original step reappears at its mapped position, and an element-introducing one is followed there by a SubgraphFilterStep |
| Interleaving.InterleaveCovers | gremlin-core/src/main/java/com/tinkerpop/gremlin/structure/strategy/SubgraphStrategy.java:118-123 | every position of the result is either an original step or the filter placed right after an element-introducing original step |
| Interleaving.FilterAfterEveryElementStep | gremlin-core/src/main/java/com/tinkerpop/gremlin/structure/strategy/SubgraphStrategy.java:112-124 | every GraphStep, VertexStep or EdgeVertexStep in the result is immediately followed by a SubgraphFilterStep |
| Interleaving.InsertedFilterFollowsElementStep | gremlin-core/src/main/java/com/tinkerpop/gremlin/structure/strategy/SubgraphStrategy.java:118-123 | a result position that no original step maps to holds a SubgraphFilterStep whose predecessor is an element-introducing step: no filter is inserted anywhere else |
| Interleaving.InterleaveSkip | gremlin-core/src/main/java/com/tinkerpop/gremlin/structure/strategy/SubgraphStrategy.java:116-124 | a stretch with no element-introducing step passes through the rewrite unchanged |
| Interleaving.InterleaveKeepsElementCount | gremlin-core/src/main/java/com/tinkerpop/gremlin/structure/strategy/SubgraphStrategy.java:122-124 | the rewrite inserts only filters, so the number of element-introducing steps is unchanged |
| Interleaving.InterleaveUnchangedIff | gremlin-core/src/main/java/com/tinkerpop/gremlin/structure/strategy/SubgraphStrategy.java:116-124 | the rewrite leaves a pipeline unchanged exactly when it contains no GraphStep, VertexStep or EdgeVertexStep |
| Interleaving.ReapplyAddsFilters | gremlin-core/src/main/java/com/tinkerpop/gremlin/structure/strategy/SubgraphStrategy.java:111-125 | running the rewrite twice adds the filters twice; the second run changes nothing only when there is no element-introducing step |
| Interleaving.PosStep | gremlin-core/src/main/java/com/tinkerpop/gremlin/structure/strategy/SubgraphStrategy.java:122-124 | consecutive original steps land one slot apart in the result, or two when the first introduces elements |
| Interleaving.SecondFilter | gremlin-core/src/main/java/com/tinkerpop/gremlin/structure/strategy/SubgraphStrategy.java:111-125 | with no marker check, a second run places another filter right after the filter that already follows each element-introducing step |
| Rewrite.ElementStepPositions | gremlin-core/src/main/java/com/tinkerpop/gremlin/structure/strategy/SubgraphStrategy.java:113-119 | the recorded positions are strictly ascending, each names a GraphStep/VertexStep/EdgeVertexStep, and every such step is recorded |
| Rewrite.Reverse | gremlin-core/src/main/java/com/tinkerpop/gremlin/structure/strategy/SubgraphStrategy.java:121 | the reversed list has the same length and reads the original back to front |
| Rewrite.ReversePositions | gremlin-core/src/main/java/com/tinkerpop/gremlin/structure/strategy/SubgraphStrategy.java:121 | the reversed position list is strictly descending and still names exactly the element-introducing steps |
| Rewrite.AdvancePending | gremlin-core/src/main/java/com/tinkerpop/gremlin/structure/strategy/SubgraphStrategy.java:121-124 | when processing from the highest position down, no element step lies between the next pending position and the last processed one, so no pending index has been shifted |
| Rewrite.InsertBeforeRewrittenSuffix | gremlin-core/src/main/java/com/tinkerpop/gremlin/structure/strategy/SubgraphStrategy.java:122-124 | inserting at `pos + 1` in front of an already rewritten suffix extends the rewritten suffix by one element step and its filter |
| Rewrite.Apply | gremlin-core/src/main/java/com/tinkerpop/gremlin/structure/strategy/SubgraphStrategy.java:111-125 | the imperative descending-index insertion yields exactly the declarative interleaving |
| Visibility.TestVertex | gremlin-core/src/main/java/com/tinkerpop/gremlin/structure/strategy/SubgraphStrategy.java:70-72 | defined exactly as the Java expression: a vertex is visible iff it passes the vertex criterion |
| Visibility.TestEdge | gremlin-core/src/main/java/com/tinkerpop/gremlin/structure/strategy/SubgraphStrategy.java:74-77 | defined exactly as the Java expression: an edge is visible iff it passes the edge criterion and both `inV()` and `outV()` yield a vertex |
| Visibility.TestElement | gremlin-core/src/main/java/com/tinkerpop/gremlin/structure/strategy/SubgraphStrategy.java:79-83 | defined exactly as the Java expression: a vertex is judged by the vertex test, an edge by the edge test |
| Visibility.EdgeVisibleIffEndpointsVisible | gremlin-core/src/main/java/com/tinkerpop/gremlin/structure/strategy/SubgraphStrategy.java:74-77 | read inside the subgraph, an edge is visible iff it passes the edge criterion and both incident vertices pass the vertex criterion |
| Visibility.BaseEdgeVisibleIffEdgeCriterion | gremlin-core/src/main/java/com/tinkerpop/gremlin/structure/strategy/SubgraphStrategy.java:74-77 | read from the unfiltered graph, the endpoint checks always succeed and the edge criterion alone decides |
| Visibility.SubgraphFilter | gremlin-core/src/main/java/com/tinkerpop/gremlin/structure/strategy/SubgraphStrategy.java:128-133 | the filter step never lengthens the stream, and everything it emits passes the element test |
| Visibility.FilterCounts | gremlin-core/src/main/java/com/tinkerpop/gremlin/structure/strategy/SubgraphStrategy.java:131-133 | the filter keeps each element that passes the element test exactly as often as it arrived, and drops every other element |
| Visibility.FilterAppend | gremlin-core/src/main/java/com/tinkerpop/gremlin/structure/strategy/SubgraphStrategy.java:128-133 | filtering a concatenation filters each part in place, so the order of surviving elements is kept |
| Visibility.FilterKeepsVisible | gremlin-core/src/main/java/com/tinkerpop/gremlin/structure/strategy/SubgraphStrategy.java:131-133 | a stream of visible elements passes through unchanged |
| Visibility.FilterTwice | gremlin-core/src/main/java/com/tinkerpop/gremlin/structure/strategy/SubgraphStrategy.java:128-133 | a second filter step right after the first changes nothing |
| Visibility.LookupVertex | gremlin-core/src/main/java/com/tinkerpop/gremlin/structure/strategy/SubgraphStrategy.java:45-55 | a vertex lookup succeeds iff the underlying lookup finds a vertex passing the vertex test; it then returns that vertex wrapped in the strategy graph; a hidden vertex gives elementNotFound, and an underlying failure passes through |
| Visibility.LookupEdge | gremlin-core/src/main/java/com/tinkerpop/gremlin/structure/strategy/SubgraphStrategy.java:57-68 | an edge lookup succeeds iff the underlying lookup finds an edge passing the edge test; it then returns that edge wrapped; a hidden edge gives elementNotFound, and an underlying failure passes through |
| Visibility.VertexLookupAgreesWithFilter | gremlin-core/src/main/java/com/tinkerpop/gremlin/structure/strategy/SubgraphStrategy.java:46-83 | a found vertex is returned by id exactly when the filter step would let it through |
| Visibility.EdgeLookupAgreesWithFilter | gremlin-core/src/main/java/com/tinkerpop/gremlin/structure/strategy/SubgraphStrategy.java:58-83 | when both paths read endpoints through the same view, a found edge is returned by id exactly when the filter step would let it through |

## Left out

- Mutation in place: the Java rewrite mutates the traversal's step list. The model takes the step list as a value and returns the rewritten one. `Collections.reverse` is modelled as a pure function.
- Step objects are reduced to a kind tag plus a class name. Labels, owning traversal and the filter step's reference to its traversal are not modelled.
- The filter step works on a stream of elements. Traverser bulk, paths and side effects are not modelled, and neither is pull-based execution.
- `StrategyWrappedVertex`/`StrategyWrappedEdge` are reduced to a pair of the underlying element and the context graph. `Strategy.Context` is reduced to an opaque value.
- The underlying lookup `f.apply(id)` is a function parameter returning a value or a graph exception.
- How `edge.inV()`/`edge.outV()` are themselves filtered is not modelled. Endpoint presence is an abstract input (`EndpointView`), with the two views described above. The modelled code does not decide which view the id lookup path sees: `getGrapheStrategy` tests the raw edge returned by the underlying lookup (SubgraphStrategy.java lines 60-62). Under `BaseEndpoints`, `LookupEdge` can return an edge whose in- or out-vertex fails the vertex criterion.
- Registration: how the registry orders and applies strategies is not modelled, only that the subgraph traversal strategy is registered.
- The commented-out add-vertex and add-edge strategies (SubgraphStrategy.java lines 85-102) are not modelled, and neither are the `toString` methods; they hold no logic.
- The pattern-matching engine, the Hadoop reducer and the Spark test provider are not part of this model.
