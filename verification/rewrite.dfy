/**
 * The imperative rewrite performed by the subgraph traversal strategy: record
 * the positions of element-introducing steps, reverse them, and insert a
 * filter after each, highest position first.
 */
module Rewrite {
  import opened Steps
  import opened Interleaving

  /** The positions of all element-introducing steps, in ascending order. */
  method ElementStepPositions(s: seq<StepKind>) returns (positions: seq<nat>)
    ensures forall j :: 0 <= j < |positions| ==> positions[j] < |s| && IntroducesElements(s[positions[j]])
    ensures forall i :: 0 <= i < |s| && IntroducesElements(s[i]) ==> i in positions
    ensures forall a, b :: 0 <= a < b < |positions| ==> positions[a] < positions[b]
  {
    positions := [];
    var ix := 0;
    while ix < |s|
      invariant ix <= |s|
      invariant forall j :: 0 <= j < |positions| ==> positions[j] < ix && IntroducesElements(s[positions[j]])
      invariant forall i :: 0 <= i < ix && IntroducesElements(s[i]) ==> i in positions
      invariant forall a, b :: 0 <= a < b < |positions| ==> positions[a] < positions[b]
    {
      if IntroducesElements(s[ix]) {
        positions := positions + [ix];
      }
      ix := ix + 1;
    }
  }

  /** The same list read back to front. */
  function Reverse(xs: seq<nat>): (r: seq<nat>)
    ensures |r| == |xs|
    ensures forall j :: 0 <= j < |xs| ==> r[j] == xs[|xs| - 1 - j]
  {
    if xs == [] then [] else Reverse(xs[1..]) + [xs[0]]
  }

  /**
   * Inserting the filter right after a pending element step `s[q]` extends the
   * already rewritten suffix, provided no element step lies between `q` and `t`.
   */
  lemma InsertBeforeRewrittenSuffix(s: seq<StepKind>, q: nat, t: nat)
    requires q < t <= |s|
    requires IntroducesElements(s[q])
    requires forall i :: q < i < t ==> !IntroducesElements(s[i])
    ensures InsertStep(s[..t] + Interleave(s[t..]), SubgraphFilterStep, q + 1)
         == s[..q] + Interleave(s[q..])
  {
    var r := s[..t] + Interleave(s[t..]);
    InterleaveSkip(s, q + 1, t);
    InterleaveAtElementStep(s, q);
    assert r[..q + 1] == s[..q] + [s[q]];
    assert r[q + 1..] == s[q + 1..t] + Interleave(s[t..]);
  }

  /** Every entry of `d` is the position of an element-introducing step of `s`. */
  predicate AllElementPositions(s: seq<StepKind>, d: seq<nat>) {
    forall j :: 0 <= j < |d| ==> d[j] < |s| && IntroducesElements(s[d[j]])
  }

  predicate StrictlyDescending(d: seq<nat>) {
    forall a, b :: 0 <= a < b < |d| ==> d[a] > d[b]
  }

  /** Reversing the ascending position list gives a descending one with the same entries. */
  lemma ReversePositions(s: seq<StepKind>, positions: seq<nat>)
    requires AllElementPositions(s, positions)
    requires forall i :: 0 <= i < |s| && IntroducesElements(s[i]) ==> i in positions
    requires forall a, b :: 0 <= a < b < |positions| ==> positions[a] < positions[b]
    ensures AllElementPositions(s, Reverse(positions))
    ensures StrictlyDescending(Reverse(positions))
    ensures forall i :: 0 <= i < |s| && IntroducesElements(s[i]) ==> i in Reverse(positions)
  {
    var d := Reverse(positions);
    forall i | 0 <= i < |s| && IntroducesElements(s[i])
      ensures i in d
    {
      var j :| 0 <= j < |positions| && positions[j] == i;
      assert d[|positions| - 1 - j] == i;
    }
    forall a, b | 0 <= a < b < |d|
      ensures d[a] > d[b]
    {
      assert d[a] == positions[|positions| - 1 - a];
      assert d[b] == positions[|positions| - 1 - b];
    }
    forall j | 0 <= j < |d|
      ensures d[j] < |s| && IntroducesElements(s[d[j]])
    {
      assert d[j] == positions[|positions| - 1 - j];
    }
  }

  /**
   * The insertion loop's bookkeeping: while the positions `d[k..]` are still
   * pending below `t`, the next one `d[k]` has no element step between it and
   * `t`, and the positions left after it are exactly those below `d[k]`.
   */
  lemma AdvancePending(s: seq<StepKind>, d: seq<nat>, k: nat, t: nat)
    requires StrictlyDescending(d)
    requires k < |d| && t <= |s|
    requires forall j :: k <= j < |d| ==> d[j] < t
    requires forall i :: 0 <= i < t && IntroducesElements(s[i]) ==> i in d[k..]
    ensures forall i :: d[k] < i < t ==> !IntroducesElements(s[i])
    ensures forall i :: 0 <= i < d[k] && IntroducesElements(s[i]) ==> i in d[k + 1..]
    ensures forall j :: k + 1 <= j < |d| ==> d[j] < d[k]
  {
  }

  /**
   * The subgraph traversal strategy applied to a step list: the result is the
   * declarative interleaving, so every property proved about `Interleave`
   * holds of it.
   */
  method Apply(steps: seq<StepKind>) returns (r: seq<StepKind>)
    ensures r == Interleave(steps)
  {
    var positions := ElementStepPositions(steps);
    var descending := Reverse(positions);
    ReversePositions(steps, positions);
    r := steps;
    ghost var t: nat := |steps|;
    var k := 0;
    while k < |descending|
      invariant k <= |descending|
      invariant t <= |steps|
      invariant r == steps[..t] + Interleave(steps[t..])
      invariant forall j :: k <= j < |descending| ==> descending[j] < t
      invariant forall i :: 0 <= i < t && IntroducesElements(steps[i]) ==> i in descending[k..]
    {
      var pos := descending[k];
      AdvancePending(steps, descending, k, t);
      InsertBeforeRewrittenSuffix(steps, pos, t);
      r := InsertStep(r, SubgraphFilterStep, pos + 1);
      t := pos;
      k := k + 1;
    }
    InterleaveSkip(steps, 0, t);
    assert steps[0..] == steps;
  }
}
