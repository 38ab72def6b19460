/**
 * The step pipeline of a traversal, reduced to what the subgraph rewrite
 * inspects: the class of each step, and the two operations it performs on the
 * pipeline (positional insertion and strategy registration).
 */
module Steps {

  /**
   * The kind of one step. The tag is assumed to record the family that
   * `Class.isAssignableFrom` would place the step's class in, so a subclass
   * (say a backend-specific graph step) carries the tag of the family it
   * extends; `cls` names the concrete class. A step is identified by its
   * position in the pipeline, not by its value.
   */
  datatype StepKind =
    | GraphStep(cls: string)
    | VertexStep(cls: string)
    | EdgeVertexStep(cls: string)
    | SubgraphFilterStep
    | OtherStep(cls: string)

  /** A step that brings graph elements into the pipeline: a graph scan, an
      adjacency expansion, or an edge-to-endpoint move. */
  predicate IntroducesElements(k: StepKind) {
    k.GraphStep? || k.VertexStep? || k.EdgeVertexStep?
  }

  /** Number of element-introducing steps in a pipeline. */
  function CountElementSteps(s: seq<StepKind>): nat {
    if s == [] then 0
    else (if IntroducesElements(s[0]) then 1 else 0) + CountElementSteps(s[1..])
  }

  /**
   * The observable effect of inserting `step` at position `index` of a step
   * list: every step at or after `index` moves one place to the right.
   */
  function InsertStep(s: seq<StepKind>, step: StepKind, index: nat): (r: seq<StepKind>)
    requires index <= |s|
    ensures |r| == |s| + 1
    ensures r[index] == step
    ensures forall i :: 0 <= i < index ==> r[i] == s[i]
    ensures forall i :: index <= i < |s| ==> r[i + 1] == s[i]
  {
    s[..index] + [step] + s[index..]
  }

  /** Strategies a traversal can carry; only the subgraph one is modelled. */
  datatype TraversalStrategy = SubgraphTraversalStrategy | OtherStrategy(name: string)

  /** A traversal: its steps and the strategies registered to rewrite them. */
  datatype Traversal = Traversal(steps: seq<StepKind>, strategies: seq<TraversalStrategy>)

  /**
   * Wrapping a traversal in the subgraph view only registers the rewrite; the
   * steps themselves are untouched until the strategies are applied.
   */
  function ApplyStrategyToTraversal(t: Traversal): (r: Traversal)
    ensures r.steps == t.steps
    ensures SubgraphTraversalStrategy in r.strategies
    ensures forall x :: x in t.strategies ==> x in r.strategies
    ensures |r.strategies| == |t.strategies| + 1
  {
    Traversal(t.steps, t.strategies + [SubgraphTraversalStrategy])
  }
}
