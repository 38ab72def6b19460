/**
 * The declarative meaning of the subgraph rewrite: a filter step placed
 * immediately after every element-introducing step, and nothing else changed.
 */
module Interleaving {
  import opened Steps

  /** The rewritten pipeline, defined step by step from the front. */
  function Interleave(s: seq<StepKind>): (r: seq<StepKind>)
    ensures |r| == |s| + CountElementSteps(s)
  {
    if s == [] then []
    else [s[0]] + (if IntroducesElements(s[0]) then [SubgraphFilterStep] else []) + Interleave(s[1..])
  }

  /** Where original step `i` lands in the rewritten pipeline. */
  function Pos(s: seq<StepKind>, i: nat): nat
    requires i <= |s|
  {
    if i == 0 then 0
    else Pos(s[1..], i - 1) + 1 + (if IntroducesElements(s[0]) then 1 else 0)
  }

  /**
   * Removes every filter step that immediately follows an element-introducing
   * step: the inverse of the rewrite.
   */
  function Strip(r: seq<StepKind>): seq<StepKind> {
    if r == [] then []
    else if IntroducesElements(r[0]) && |r| > 1 && r[1] == SubgraphFilterStep then [r[0]] + Strip(r[2..])
    else [r[0]] + Strip(r[1..])
  }

  /** Deleting the inserted filters gives back the original pipeline. */
  lemma {:induction false} StripInterleave(s: seq<StepKind>)
    ensures Strip(Interleave(s)) == s
  {
    if s != [] {
      var r := Interleave(s);
      StripInterleave(s[1..]);
      if IntroducesElements(s[0]) {
        assert r == [s[0], SubgraphFilterStep] + Interleave(s[1..]);
        assert r[2..] == Interleave(s[1..]);
      } else {
        assert r == [s[0]] + Interleave(s[1..]);
        assert r[1..] == Interleave(s[1..]);
      }
    }
  }

  /** Positions of original steps are strictly increasing: relative order is kept. */
  lemma {:induction false} PosMonotone(s: seq<StepKind>, i: nat, j: nat)
    requires i < j <= |s|
    ensures Pos(s, i) < Pos(s, j)
    ensures IntroducesElements(s[i]) ==> Pos(s, i) + 1 < Pos(s, j)
    decreases i
  {
    if i > 0 {
      PosMonotone(s[1..], i - 1, j - 1);
    }
  }

  /**
   * Every original step reappears at its position, and an element-introducing
   * step is followed there by a filter step.
   */
  lemma {:induction false} InterleavePlacement(s: seq<StepKind>, i: nat)
    requires i < |s|
    ensures Pos(s, i) < |Interleave(s)|
    ensures Interleave(s)[Pos(s, i)] == s[i]
    ensures IntroducesElements(s[i]) ==>
      Pos(s, i) + 1 < |Interleave(s)| && Interleave(s)[Pos(s, i) + 1] == SubgraphFilterStep
    decreases i
  {
    var h := if IntroducesElements(s[0]) then 2 else 1;
    assert Interleave(s) == Interleave(s)[..h] + Interleave(s[1..]);
    if i > 0 {
      InterleavePlacement(s[1..], i - 1);
    }
  }

  /**
   * Every position of the rewritten pipeline is either an original step or the
   * filter inserted right after an element-introducing original step.
   */
  lemma {:induction false} InterleaveCovers(s: seq<StepKind>, j: nat)
    requires j < |Interleave(s)|
    ensures exists i :: 0 <= i < |s| && (j == Pos(s, i) || (IntroducesElements(s[i]) && j == Pos(s, i) + 1))
  {
    var h := if IntroducesElements(s[0]) then 2 else 1;
    if j >= h {
      assert Interleave(s)[h..] == Interleave(s[1..]);
      InterleaveCovers(s[1..], j - h);
      var i' :| 0 <= i' < |s[1..]| &&
        (j - h == Pos(s[1..], i') || (IntroducesElements(s[1..][i']) && j - h == Pos(s[1..], i') + 1));
      assert Pos(s, i' + 1) == Pos(s[1..], i') + h;
      assert s[i' + 1] == s[1..][i'];
    } else {
      assert Pos(s, 0) == 0;
    }
  }

  /** Every element-introducing step of the result is immediately followed by a filter. */
  lemma FilterAfterEveryElementStep(s: seq<StepKind>, j: nat)
    requires j < |Interleave(s)| && IntroducesElements(Interleave(s)[j])
    ensures j + 1 < |Interleave(s)| && Interleave(s)[j + 1] == SubgraphFilterStep
  {
    InterleaveCovers(s, j);
    var i :| 0 <= i < |s| && (j == Pos(s, i) || (IntroducesElements(s[i]) && j == Pos(s, i) + 1));
    InterleavePlacement(s, i);
  }

  /**
   * A filter step of the result that was not already in the original pipeline
   * sits right after an element-introducing step: no filter is inserted
   * anywhere else.
   */
  lemma InsertedFilterFollowsElementStep(s: seq<StepKind>, j: nat)
    requires j < |Interleave(s)|
    requires forall i :: 0 <= i < |s| ==> Pos(s, i) != j
    ensures Interleave(s)[j] == SubgraphFilterStep
    ensures 0 < j && IntroducesElements(Interleave(s)[j - 1])
  {
    InterleaveCovers(s, j);
    var i :| 0 <= i < |s| && (j == Pos(s, i) || (IntroducesElements(s[i]) && j == Pos(s, i) + 1));
    InterleavePlacement(s, i);
  }

  /**
   * If `s[a..b]` holds no element-introducing step, the rewrite passes that
   * stretch through unchanged.
   */
  lemma {:induction false} InterleaveSkip(s: seq<StepKind>, a: nat, b: nat)
    requires a <= b <= |s|
    requires forall i :: a <= i < b ==> !IntroducesElements(s[i])
    ensures Interleave(s[a..]) == s[a..b] + Interleave(s[b..])
    decreases b - a
  {
    if a < b {
      InterleaveSkip(s, a + 1, b);
      assert s[a..][1..] == s[a + 1..];
      assert s[a..b] == [s[a]] + s[a + 1..b];
    }
  }

  /** Unfolds the rewrite once at an element-introducing step `s[q]`. */
  lemma InterleaveAtElementStep(s: seq<StepKind>, q: nat)
    requires q < |s| && IntroducesElements(s[q])
    ensures Interleave(s[q..]) == [s[q], SubgraphFilterStep] + Interleave(s[q + 1..])
  {
  }

  /** The rewrite adds no element-introducing step: it only inserts filters. */
  lemma {:induction false} InterleaveKeepsElementCount(s: seq<StepKind>)
    ensures CountElementSteps(Interleave(s)) == CountElementSteps(s)
  {
    if s != [] {
      InterleaveKeepsElementCount(s[1..]);
      var r := Interleave(s);
      if IntroducesElements(s[0]) {
        assert r[1..] == [SubgraphFilterStep] + Interleave(s[1..]);
        assert r[1..][1..] == Interleave(s[1..]);
      } else {
        assert r[1..] == Interleave(s[1..]);
      }
    }
  }

  /** The rewrite leaves a pipeline unchanged exactly when it has no element-introducing step. */
  lemma {:induction false} InterleaveUnchangedIff(s: seq<StepKind>)
    ensures Interleave(s) == s <==> CountElementSteps(s) == 0
  {
    if s != [] && CountElementSteps(s) == 0 {
      InterleaveUnchangedIff(s[1..]);
    }
  }

  /**
   * The rewrite carries no marker, so running it on its own output inserts a
   * second filter after every element-introducing step: it is idempotent only
   * on pipelines without such steps.
   */
  lemma {:induction false} ReapplyAddsFilters(s: seq<StepKind>)
    ensures |Interleave(Interleave(s))| == |s| + 2 * CountElementSteps(s)
    ensures Interleave(Interleave(s)) == Interleave(s) <==> CountElementSteps(s) == 0
  {
    InterleaveKeepsElementCount(s);
    InterleaveUnchangedIff(Interleave(s));
  }

  /** Consecutive original steps are one slot apart, two after an element-introducing step. */
  lemma {:induction false} PosStep(s: seq<StepKind>, i: nat)
    requires i < |s|
    ensures Pos(s, i + 1) == Pos(s, i) + 1 + (if IntroducesElements(s[i]) then 1 else 0)
    decreases i
  {
    if i > 0 {
      PosStep(s[1..], i - 1);
    }
  }

  /**
   * Running the rewrite on its own output places a second filter right after
   * the first one that follows each element-introducing step.
   */
  lemma SecondFilter(s: seq<StepKind>, i: nat)
    requires i < |s| && IntroducesElements(s[i])
    ensures var r := Interleave(s); var p := Pos(s, i);
      p + 1 < |r| &&
      Pos(r, p) + 2 < |Interleave(r)| &&
      Interleave(r)[Pos(r, p)] == s[i] &&
      Interleave(r)[Pos(r, p) + 1] == SubgraphFilterStep &&
      Interleave(r)[Pos(r, p) + 2] == SubgraphFilterStep
  {
    var r := Interleave(s);
    var p := Pos(s, i);
    InterleavePlacement(s, i);
    InterleavePlacement(r, p);
    InterleavePlacement(r, p + 1);
    PosStep(r, p);
  }
}
