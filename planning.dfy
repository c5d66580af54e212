/**
 * Planning: buildPlan. Given the current and the target version and the
 * ascending registry, it lists the steps (one migration each, up or down)
 * that lead from one to the other.
 */
module Planning {
  import opened Versions

  datatype Method = Up | Down

  /** One entry of a plan: which migration to run, in which direction, and the ledger transition it records. */
  datatype Step = Step(version: string, dir: Method, from: Version, to: Version)

  /** The versions a plan visits, in plan order. */
  function Visited(plan: seq<Step>): (vs: seq<string>)
    ensures |vs| == |plan|
    ensures forall i :: 0 <= i < |plan| ==> vs[i] == plan[i].version
  {
    seq(|plan|, i requires 0 <= i < |plan| => plan[i].version)
  }

  lemma VisitedSnoc(p: seq<Step>, s: Step)
    ensures Visited(p + [s]) == Visited(p) + [s.version]
  {
  }

  lemma VisitedCons(s: Step, p: seq<Step>)
    ensures Visited([s] + p) == [s.version] + Visited(p)
  {
  }

  // The code's own skip tests, on the strings it compares.

  /** Upgrade: skip registry versions at or below `from` (unless `from` is the sentinel) and above `to`. */
  predicate UpSkips(from: Version, to: Version, v: string)
  {
    (from != Null && Strcmp(Text(from), v) >= 0) || Strcmp(Text(to), v) < 0
  }

  /** Downgrade: skip registry versions above `from`. */
  predicate DownSkipsAbove(from: Version, v: string)
  {
    Strcmp(Text(from), v) < 0
  }

  /** Downgrade: versions at or below `to` (unless `to` is the sentinel) only move the cursor. */
  predicate DownKeeps(to: Version, v: string)
  {
    to != Null && Strcmp(Text(to), v) >= 0
  }

  /**
   * The upgrade walk over a registry prefix: the plan built so far and the
   * `prevVersion` cursor. Each kept version is pushed at the end.
   */
  function UpFold(reg: seq<string>, from: Version, to: Version): (seq<Step>, Version)
    decreases |reg|
  {
    if reg == [] then ([], Null)
    else
      var r := UpFold(reg[..|reg| - 1], from, to);
      var v := reg[|reg| - 1];
      if UpSkips(from, to, v) then r
      else (r.0 + [Step(v, Up, r.1, V(v))], V(v))
  }

  /**
   * The downgrade walk over a registry prefix: the plan built so far and the
   * `nextVersion` cursor. Each reverted version is put at the front.
   */
  function DownFold(reg: seq<string>, from: Version, to: Version): (seq<Step>, Version)
    decreases |reg|
  {
    if reg == [] then ([], Null)
    else
      var r := DownFold(reg[..|reg| - 1], from, to);
      var v := reg[|reg| - 1];
      if DownSkipsAbove(from, v) then r
      else if DownKeeps(to, v) then (r.0, V(v))
      else ([Step(v, Down, V(v), r.1)] + r.0, V(v))
  }

  /** The plan buildPlan returns. */
  function Plan(reg: seq<string>, from: Version, to: Version): seq<Step>
  {
    if from == to then []
    else if Direction(from, to) > 0 then UpFold(reg, from, to).0
    else DownFold(reg, from, to).0
  }

  /**
   * buildPlan: one pass over the registry, pushing steps at the end for an
   * upgrade and unshifting them at the front for a downgrade.
   */
  method BuildPlan(reg: seq<string>, from: Version, to: Version) returns (plan: seq<Step>)
    ensures plan == Plan(reg, from, to)
  {
    plan := [];
    if from == to {
      return;
    }
    var direction := Direction(from, to);
    if direction > 0 {
      var prev := Null;
      var i := 0;
      while i < |reg|
        invariant 0 <= i <= |reg|
        invariant (plan, prev) == UpFold(reg[..i], from, to)
      {
        var v := reg[i];
        assert reg[..i + 1][..i] == reg[..i];
        if !UpSkips(from, to, v) {
          plan := plan + [Step(v, Up, prev, V(v))];
          prev := V(v);
        }
        i := i + 1;
      }
      assert reg[..|reg|] == reg;
    } else {
      var next := Null;
      var i := 0;
      while i < |reg|
        invariant 0 <= i <= |reg|
        invariant (plan, next) == DownFold(reg[..i], from, to)
      {
        var v := reg[i];
        assert reg[..i + 1][..i] == reg[..i];
        if DownSkipsAbove(from, v) {
        } else if DownKeeps(to, v) {
          next := V(v);
        } else {
          plan := [Step(v, Down, V(v), next)] + plan;
          next := V(v);
        }
        i := i + 1;
      }
      assert reg[..|reg|] == reg;
    }
  }

  // ---------------------------------------------------------------------
  // What the walks produce.

  /** Every element of an ascending registry's prefix is below its last element. */
  lemma PrefixBelowLast(reg: seq<string>, x: string)
    requires Ascending(reg) && |reg| > 0
    requires x in reg[..|reg| - 1]
    ensures Strcmp(x, reg[|reg| - 1]) < 0
  {
    var j :| 0 <= j < |reg| - 1 && reg[..|reg| - 1][j] == x;
  }

  lemma AscendingPrefix(reg: seq<string>, n: nat)
    requires Ascending(reg) && n <= |reg|
    ensures Ascending(reg[..n])
  {
    forall i, j | 0 <= i < j < n
      ensures Strcmp(reg[..n][i], reg[..n][j]) < 0
    {
    }
  }

  /**
   * Each upgrade step records the transition from the version of the step
   * before it (the sentinel for the first one) to its own version.
   */
  lemma {:induction false} UpFoldChain(reg: seq<string>, from: Version, to: Version)
    ensures UpFold(reg, from, to).1 ==
      (if UpFold(reg, from, to).0 == [] then Null else V(UpFold(reg, from, to).0[|UpFold(reg, from, to).0| - 1].version))
    ensures forall i :: 0 <= i < |UpFold(reg, from, to).0| ==>
      UpFold(reg, from, to).0[i].dir == Up && UpFold(reg, from, to).0[i].to == V(UpFold(reg, from, to).0[i].version)
    ensures |UpFold(reg, from, to).0| > 0 ==> UpFold(reg, from, to).0[0].from == Null
    ensures forall i :: 0 < i < |UpFold(reg, from, to).0| ==>
      UpFold(reg, from, to).0[i].from == V(UpFold(reg, from, to).0[i - 1].version)
    decreases |reg|
  {
    if reg != [] {
      UpFoldChain(reg[..|reg| - 1], from, to);
    }
  }

  /** The upgrade walk keeps exactly the registry versions its skip tests let through. */
  lemma {:induction false} UpFoldMembers(reg: seq<string>, from: Version, to: Version)
    ensures forall v :: v in Visited(UpFold(reg, from, to).0) <==> v in reg && !UpSkips(from, to, v)
    decreases |reg|
  {
    if reg != [] {
      var front := reg[..|reg| - 1];
      UpFoldMembers(front, from, to);
      var p0 := UpFold(front, from, to).0;
      var v := reg[|reg| - 1];
      assert reg == front + [v];
      if !UpSkips(from, to, v) {
        var p := UpFold(reg, from, to).0;
        assert Visited(p) == Visited(p0) + [v];
      }
    }
  }

  /** Over an ascending registry the upgrade walk lists its versions in ascending order. */
  lemma {:induction false} UpFoldAscending(reg: seq<string>, from: Version, to: Version)
    requires Ascending(reg)
    ensures Ascending(Visited(UpFold(reg, from, to).0))
    decreases |reg|
  {
    if reg != [] {
      var n := |reg|;
      var front := reg[..n - 1];
      AscendingPrefix(reg, n - 1);
      UpFoldAscending(front, from, to);
      UpFoldMembers(front, from, to);
      var vs0 := Visited(UpFold(front, from, to).0);
      var v := reg[n - 1];
      if !UpSkips(from, to, v) {
        forall x | x in vs0
          ensures Strcmp(x, v) < 0
        {
          PrefixBelowLast(reg, x);
        }
        AscendingSnoc(vs0, v);
        VisitedSnoc(UpFold(front, from, to).0, Step(v, Up, UpFold(front, from, to).1, V(v)));
      }
    }
  }

  /** Each downgrade step reverts its own version. */
  lemma {:induction false} DownFoldSteps(reg: seq<string>, from: Version, to: Version)
    ensures forall i :: 0 <= i < |DownFold(reg, from, to).0| ==>
      DownFold(reg, from, to).0[i].dir == Down && DownFold(reg, from, to).0[i].from == V(DownFold(reg, from, to).0[i].version)
    decreases |reg|
  {
    if reg != [] {
      var front := reg[..|reg| - 1];
      DownFoldSteps(front, from, to);
      var p0 := DownFold(front, from, to).0;
      assert forall i :: 0 <= i < |p0| ==> p0[i].dir == Down && p0[i].from == V(p0[i].version);
      var v := reg[|reg| - 1];
      if !DownSkipsAbove(from, v) && !DownKeeps(to, v) {
        var p := DownFold(reg, from, to).0;
        assert p == [Step(v, Down, V(v), DownFold(front, from, to).1)] + p0;
        assert forall i :: 0 < i < |p| ==> p[i] == p0[i - 1];
      }
    }
  }

  /** The downgrade walk keeps exactly the registry versions its skip tests let through. */
  lemma {:induction false} DownFoldMembers(reg: seq<string>, from: Version, to: Version)
    ensures forall v :: v in Visited(DownFold(reg, from, to).0) <==>
      v in reg && !DownSkipsAbove(from, v) && !DownKeeps(to, v)
    decreases |reg|
  {
    if reg != [] {
      var front := reg[..|reg| - 1];
      DownFoldMembers(front, from, to);
      var p0 := DownFold(front, from, to).0;
      var v := reg[|reg| - 1];
      assert reg == front + [v];
      if !DownSkipsAbove(from, v) && !DownKeeps(to, v) {
        var p := DownFold(reg, from, to).0;
        assert Visited(p) == [v] + Visited(p0);
      }
    }
  }

  /** Over an ascending registry the downgrade walk lists its versions in descending order. */
  lemma {:induction false} DownFoldDescending(reg: seq<string>, from: Version, to: Version)
    requires Ascending(reg)
    ensures Descending(Visited(DownFold(reg, from, to).0))
    decreases |reg|
  {
    if reg != [] {
      var n := |reg|;
      var front := reg[..n - 1];
      AscendingPrefix(reg, n - 1);
      DownFoldDescending(front, from, to);
      DownFoldMembers(front, from, to);
      var vs0 := Visited(DownFold(front, from, to).0);
      var v := reg[n - 1];
      if !DownSkipsAbove(from, v) && !DownKeeps(to, v) {
        forall x | x in vs0
          ensures Strcmp(x, v) < 0
        {
          PrefixBelowLast(reg, x);
        }
        DescendingCons(v, vs0);
        VisitedCons(Step(v, Down, V(v), DownFold(front, from, to).1), DownFold(front, from, to).0);
      }
    }
  }

  /**
   * Over an ascending registry, once the walk has passed a version at or
   * below `from`, the `nextVersion` cursor is that version.
   */
  lemma DownCursor(reg: seq<string>, from: Version, to: Version)
    requires Ascending(reg) && |reg| > 1
    requires !DownSkipsAbove(from, reg[|reg| - 1])
    ensures DownFold(reg[..|reg| - 1], from, to).1 == V(reg[|reg| - 2])
  {
    var n := |reg|;
    var w, v := reg[n - 2], reg[n - 1];
    AscendingIndex(reg, n - 2, n - 1);
    if DownSkipsAbove(from, w) {
      StrcmpFlip(Text(from), v);
      StrcmpTransitive(Text(from), w, v);
    }
    var front := reg[..n - 1];
    assert front[..|front| - 1] == reg[..n - 2];
    assert front[|front| - 1] == w;
  }

  /** Each step of `p` that reverts registry entry j ends at the entry just below it. */
  predicate EndsBelow(p: seq<Step>, reg: seq<string>)
  {
    forall i, j :: 0 <= i < |p| && 0 <= j < |reg| && p[i].version == reg[j] ==> p[i].to == PrevOf(reg, j)
  }

  /** Steps whose versions lie in a prefix of an ascending registry keep their targets in the whole registry. */
  lemma EndsBelowExtend(p: seq<Step>, front: seq<string>, reg: seq<string>)
    requires Ascending(reg) && |reg| > 0 && front == reg[..|reg| - 1]
    requires EndsBelow(p, front)
    requires forall x :: x in Visited(p) ==> x in front
    ensures EndsBelow(p, reg)
  {
    forall i, j | 0 <= i < |p| && 0 <= j < |reg| && p[i].version == reg[j]
      ensures p[i].to == PrevOf(reg, j)
    {
      assert p[i].version in Visited(p);
      var j' :| 0 <= j' < |front| && front[j'] == p[i].version;
      AscendingIndex(reg, j, j');
      assert p[i].version == front[j];
    }
  }

  /** Reverting the newest registry entry, ending at the entry below it, keeps the targets right. */
  lemma EndsBelowPrepend(p: seq<Step>, reg: seq<string>, next: Version)
    requires Ascending(reg) && |reg| > 0 && EndsBelow(p, reg)
    requires next == PrevOf(reg, |reg| - 1)
    ensures EndsBelow([Step(reg[|reg| - 1], Down, V(reg[|reg| - 1]), next)] + p, reg)
  {
    var q := [Step(reg[|reg| - 1], Down, V(reg[|reg| - 1]), next)] + p;
    forall i, j | 0 <= i < |q| && 0 <= j < |reg| && q[i].version == reg[j]
      ensures q[i].to == PrevOf(reg, j)
    {
      if i == 0 {
        AscendingIndex(reg, j, |reg| - 1);
      } else {
        assert q[i] == p[i - 1];
      }
    }
  }

  /**
   * Over an ascending registry, the step that reverts registry entry j ends
   * at the entry just below it (the sentinel for the lowest).
   */
  lemma {:induction false} DownFoldTargets(reg: seq<string>, from: Version, to: Version)
    requires Ascending(reg)
    ensures EndsBelow(DownFold(reg, from, to).0, reg)
    decreases |reg|
  {
    if reg != [] {
      var n := |reg|;
      var front := reg[..n - 1];
      AscendingPrefix(reg, n - 1);
      DownFoldTargets(front, from, to);
      DownFoldMembers(front, from, to);
      var p0 := DownFold(front, from, to).0;
      EndsBelowExtend(p0, front, reg);
      var v := reg[n - 1];
      var next0 := DownFold(front, from, to).1;
      if !DownSkipsAbove(from, v) && !DownKeeps(to, v) {
        if n > 1 {
          DownCursor(reg, from, to);
        }
        EndsBelowPrepend(p0, reg, next0);
        assert DownFold(reg, from, to).0 == [Step(v, Down, V(v), next0)] + p0;
      } else {
        assert DownFold(reg, from, to).0 == p0;
      }
    }
  }
}
