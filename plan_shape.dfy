/**
 * PlanShape: what buildPlan's plans are, stated in the order of versions
 * rather than in the code's strcmp tests.
 */
module PlanShape {
  import opened Versions
  import opened Planning

  /**
   * An upgrade plan: every step runs `up` into its own version, starting
   * from the previous step's version, and the first step from the sentinel.
   */
  predicate UpChain(p: seq<Step>)
  {
    forall i :: 0 <= i < |p| ==>
      && p[i].dir == Up
      && p[i].to == V(p[i].version)
      && p[i].from == (if i == 0 then Null else V(p[i - 1].version))
  }

  /** A downgrade plan: every step runs `down` out of its own version. */
  predicate DownSteps(p: seq<Step>)
  {
    forall i :: 0 <= i < |p| ==> p[i].dir == Down && p[i].from == V(p[i].version)
  }

  /**
   * An upgrade plan lists exactly the registry versions above `from` and up
   * to `to`, in ascending order, chained from the sentinel.
   */
  lemma UpPlanShape(reg: seq<string>, from: Version, to: Version)
    requires Ascending(reg) && Below(from, to)
    ensures UpChain(Plan(reg, from, to))
    ensures forall v :: v in Visited(Plan(reg, from, to)) <==> v in reg && Below(from, V(v)) && !Below(to, V(v))
    ensures Ascending(Visited(Plan(reg, from, to)))
  {
    BelowTotal(from, to);
    var p := UpFold(reg, from, to).0;
    assert Plan(reg, from, to) == p;
    UpFoldChain(reg, from, to);
    UpFoldMembers(reg, from, to);
    UpFoldAscending(reg, from, to);
    assert to.V?;
  }

  /**
   * A downgrade plan lists exactly the registry versions up to `from` and
   * above `to`, in descending order, each step ending at the registry version
   * just below the one it reverts.
   */
  lemma DownPlanShape(reg: seq<string>, from: Version, to: Version)
    requires Ascending(reg) && Below(to, from)
    ensures DownSteps(Plan(reg, from, to))
    ensures forall v :: v in Visited(Plan(reg, from, to)) <==> v in reg && !Below(from, V(v)) && Below(to, V(v))
    ensures Descending(Visited(Plan(reg, from, to)))
    ensures EndsBelow(Plan(reg, from, to), reg)
  {
    BelowTotal(from, to);
    var p := DownFold(reg, from, to).0;
    assert Plan(reg, from, to) == p;
    DownFoldSteps(reg, from, to);
    DownFoldMembers(reg, from, to);
    DownFoldDescending(reg, from, to);
    DownFoldTargets(reg, from, to);
    assert from.V?;
  }

  /** Between the sentinel and registered versions, the plan is empty exactly when the two versions are equal. */
  lemma PlanEmptyIff(reg: seq<string>, from: Version, to: Version)
    requires Ascending(reg)
    requires from == Null || from.s in reg
    requires to == Null || to.s in reg
    ensures Plan(reg, from, to) == [] <==> from == to
  {
    if from != to {
      BelowTotal(from, to);
      if Below(from, to) {
        UpPlanShape(reg, from, to);
        assert to.s in Visited(Plan(reg, from, to));
      } else {
        DownPlanShape(reg, from, to);
        assert from.s in Visited(Plan(reg, from, to));
      }
    }
  }

  /** An upgrade to a registered version ends at that version. */
  lemma UpPlanEndsAtTarget(reg: seq<string>, from: Version, to: Version)
    requires Ascending(reg) && Below(from, to) && to.V? && to.s in reg
    ensures |Plan(reg, from, to)| > 0
    ensures Plan(reg, from, to)[|Plan(reg, from, to)| - 1].to == to
  {
    UpPlanShape(reg, from, to);
    var p := Plan(reg, from, to);
    var vs := Visited(p);
    BelowTotal(to, to);
    assert to.s in vs;
    var last := |p| - 1;
    var i :| 0 <= i < |vs| && vs[i] == to.s;
    assert vs[last] in vs;
    AscendingIndex(vs, i, last);
    assert i == last;
  }

  /** A registry entry above the version just below entry `m` is at index `m` or later. */
  lemma AboveIndex(reg: seq<string>, to: Version, m: nat, j: nat)
    requires Ascending(reg) && m < |reg| && j < |reg|
    requires PrevOf(reg, m) == to && Below(to, V(reg[j]))
    ensures m <= j
  {
    if m > 0 {
      AscendingIndex(reg, m - 1, j);
    }
  }

  /**
   * The lowest version in a descending list of the registry versions between
   * `to` (excluded) and `from` (included) is the registry entry just above `to`.
   */
  lemma LowestReverted(reg: seq<string>, vs: seq<string>, from: Version, to: Version, m: nat)
    requires Ascending(reg) && Descending(vs) && from.V? && from.s in reg
    requires forall v :: v in vs <==> v in reg && !Below(from, V(v)) && Below(to, V(v))
    requires m < |reg| && PrevOf(reg, m) == to
    requires Below(to, from)
    ensures |vs| > 0 && vs[|vs| - 1] == reg[m]
  {
    var f :| 0 <= f < |reg| && reg[f] == from.s;
    AboveIndex(reg, to, m, f);
    assert reg[m] in vs by {
      AscendingIndex(reg, f, m);
    }
    var i :| 0 <= i < |vs| && vs[i] == reg[m];
    var last := |vs| - 1;
    assert vs[last] in vs;
    var j :| 0 <= j < |reg| && reg[j] == vs[last];
    AboveIndex(reg, to, m, j);
    DescendingIndex(vs, i, last);
    AscendingIndex(reg, j, m);
  }

  /**
   * A downgrade from a registered version to the sentinel or to a registered
   * version ends at that version.
   */
  lemma DownPlanEndsAtTarget(reg: seq<string>, from: Version, to: Version)
    requires Ascending(reg) && Below(to, from) && from.s in reg
    requires to == Null || to.s in reg
    ensures |Plan(reg, from, to)| > 0
    ensures Plan(reg, from, to)[|Plan(reg, from, to)| - 1].to == to
  {
    DownPlanShape(reg, from, to);
    var p := Plan(reg, from, to);
    var m: nat := 0;
    if to.V? {
      var t :| 0 <= t < |reg| && reg[t] == to.s;
      var f :| 0 <= f < |reg| && reg[f] == from.s;
      AscendingIndex(reg, t, f);
      m := t + 1;
    }
    LowestReverted(reg, Visited(p), from, to, m);
    assert p[|p| - 1].version == reg[m];
  }

  /** Downgrading a registered version to the one just below it is a single step. */
  lemma DownOneStep(reg: seq<string>, j: nat)
    requires Ascending(reg) && j < |reg|
    ensures Plan(reg, V(reg[j]), PrevOf(reg, j)) == [Step(reg[j], Down, V(reg[j]), PrevOf(reg, j))]
  {
    var from, to := V(reg[j]), PrevOf(reg, j);
    DownPlanShape(reg, from, to);
    var p := Plan(reg, from, to);
    var vs := Visited(p);
    BelowTotal(from, from);
    assert reg[j] in vs;
    forall i | 0 <= i < |vs|
      ensures vs[i] == reg[j]
    {
      var k :| 0 <= k < |reg| && reg[k] == vs[i];
      AscendingIndex(reg, k, j);
      if j > 0 {
        AscendingIndex(reg, j - 1, k);
      }
    }
    DescendingIndex(vs, 0, |vs| - 1);
    assert p[0].to == PrevOf(reg, j);
  }
}
