/**
 * Targets: how the `up`, `down`, `to` and `mark` commands pick the version
 * they move the database to, before handing it to buildPlan or to the
 * version ledger.
 */
module Targets {
  import opened Wrappers
  import opened Errors
  import opened Versions
  import opened Planning
  import opened PlanShape

  /** doUp: the highest registry version, or the sentinel for an empty registry. */
  function LastVersion(reg: seq<string>): (last: Version)
    ensures last == Null <==> reg == []
    ensures last.V? ==> last.s in reg
  {
    if reg == [] then Null else V(reg[|reg| - 1])
  }

  /** No registry version lies above the one doUp takes as latest. */
  lemma LastVersionIsLatest(reg: seq<string>)
    requires Ascending(reg)
    ensures forall v :: v in reg ==> !Below(LastVersion(reg), V(v))
  {
    forall v | v in reg
      ensures !Below(LastVersion(reg), V(v))
    {
      var k :| 0 <= k < |reg| && reg[k] == v;
      AscendingIndex(reg, |reg| - 1, k);
    }
  }

  /**
   * doUp's guard, on the strings the code compares: nothing to upgrade when
   * the database is at the latest version, when the latest version is
   * 'null', or when the database is above the latest version; otherwise the
   * latest version is the target.
   */
  function UpTarget(reg: seq<string>, current: Version): (r: Option<Version>)
    ensures Text(current) == Text(LastVersion(reg)) || reg == [] ==> r.None?
    ensures r.Some? ==> r.value == LastVersion(reg) && r.value.V? && Text(current) != r.value.s
    ensures r.Some? && Text(current) != NULL_TEXT ==> Strcmp(Text(current), r.value.s) < 0
  {
    var last := LastVersion(reg);
    if Text(current) == Text(last) || Text(last) == NULL_TEXT
      || (Text(current) != NULL_TEXT && Strcmp(Text(current), Text(last)) > 0) then None
    else Some(last)
  }

  /**
   * From the sentinel or a registered version, doUp has work exactly when
   * the database is not at the latest version, and its plan then applies
   * every registry version above the current one.
   */
  lemma UpTargetPlansRest(reg: seq<string>, current: Version)
    requires Ascending(reg) && NULL_TEXT !in reg
    requires current == Null || current.s in reg
    ensures UpTarget(reg, current).None? <==> current == LastVersion(reg)
    ensures UpTarget(reg, current).Some? ==>
      forall v :: v in Visited(Plan(reg, current, UpTarget(reg, current).value)) <==> v in reg && Below(current, V(v))
  {
    var last := LastVersion(reg);
    LastVersionIsLatest(reg);
    if current != last {
      if current.V? {
        BelowTotal(current, last);
        StrcmpFlip(current.s, last.s);
      }
      assert Below(current, last);
      UpPlanShape(reg, current, last);
    }
  }

  /** The list doDown scans: the sentinel followed by the registry. */
  function Candidates(reg: seq<string>): (c: seq<Version>)
    ensures |c| == |reg| + 1 && c[0] == Null
    ensures forall j :: 0 <= j < |reg| ==> c[j + 1] == V(reg[j])
  {
    [Null] + seq(|reg|, k requires 0 <= k < |reg| => V(reg[k]))
  }

  /** Over an ascending registry the scanned list has no repeats, and its registry entries are the registry. */
  lemma CandidatesDistinct(reg: seq<string>)
    requires Ascending(reg)
    ensures forall a, b :: 0 <= a < b < |Candidates(reg)| ==> Candidates(reg)[a] != Candidates(reg)[b]
    ensures forall v :: v in Candidates(reg) && v.V? ==> v.s in reg
  {
    var c := Candidates(reg);
    forall a, b | 0 <= a < b < |c|
      ensures c[a] != c[b]
    {
      if a > 0 {
        AscendingIndex(reg, a - 1, b - 1);
      }
    }
    forall v | v in c && v.V?
      ensures v.s in reg
    {
      var k :| 0 <= k < |c| && c[k] == v;
      assert reg[k - 1] == v.s;
    }
  }

  /**
   * doDown: nothing to downgrade from the sentinel; otherwise the entry just
   * before the current version in the sentinel followed by the registry, and
   * "cannot to find previous version" when the current version is not there.
   */
  method DownTarget(reg: seq<string>, current: Version) returns (r: Result<Option<Version>, Error>)
    requires Ascending(reg)
    ensures current == Null ==> r == Success(None)
    ensures current.V? && current.s !in reg ==> r == Failure(NoPreviousVersion)
    ensures forall j :: 0 <= j < |reg| && current == V(reg[j]) ==> r == Success(Some(PrevOf(reg, j)))
  {
    if current == Null {
      return Success(None);
    }
    var candidates := Candidates(reg);
    CandidatesDistinct(reg);
    var previousVersion: Option<Version> := None;
    var previousValue: Option<Version> := None;
    var i := 0;
    while i < |candidates|
      invariant 0 <= i <= |candidates|
      invariant previousValue == if i == 0 then None else Some(candidates[i - 1])
      invariant previousVersion == None <==> current !in candidates[..i]
      invariant forall k :: 0 < k < i && candidates[k] == current ==> previousVersion == Some(candidates[k - 1])
    {
      if candidates[i] == current {
        previousVersion := previousValue;
      }
      previousValue := Some(candidates[i]);
      i := i + 1;
    }
    assert candidates[..i] == candidates;
    if previousVersion == None {
      return Failure(NoPreviousVersion);
    }
    r := Success(previousVersion);
    forall j | 0 <= j < |reg| && current == V(reg[j])
      ensures r == Success(Some(PrevOf(reg, j)))
    {
      assert candidates[j + 1] == current && 0 < j + 1 < i;
    }
  }

  /** The version aliases `init`, `null` and `dev` accepted by `to` and `mark`. */
  function ResolveAlias(arg: string): (v: Version)
    ensures arg == NULL_CODE <==> v == Null
    ensures arg == INIT_CODE ==> v == V(INIT)
    ensures arg == DEV_CODE ==> v == V(DEV)
    ensures arg != INIT_CODE && arg != NULL_CODE && arg != DEV_CODE ==> v == V(arg)
  {
    if arg == INIT_CODE then V(INIT)
    else if arg == NULL_CODE then Null
    else if arg == DEV_CODE then V(DEV)
    else V(arg)
  }

  /**
   * doTo: nothing to migrate when the resolved version is the current one
   * (tested first), "selected version is unknown" when it is neither the
   * sentinel nor registered, and otherwise that version is the target.
   */
  function ToTarget(reg: seq<string>, current: Version, arg: string): (r: Result<Option<Version>, Error>)
    ensures r == Success(None) <==> current == ResolveAlias(arg)
    ensures r == Failure(SelectedVersionUnknown) <==> current != ResolveAlias(arg) && !Known(reg, ResolveAlias(arg))
    ensures r.Success? && r.value.Some? ==> r.value.value == ResolveAlias(arg) && r.value.value != current && Known(reg, r.value.value)
  {
    var version := ResolveAlias(arg);
    if current == version then Success(None)
    else if !Known(reg, version) then Failure(SelectedVersionUnknown)
    else Success(Some(version))
  }

  /** A plan that is not empty and whose last step ends at `v`. */
  predicate Arrives(plan: seq<Step>, v: Version)
  {
    |plan| > 0 && plan[|plan| - 1].to == v
  }

  /** A plan to the target doTo accepts is not empty and its last step ends at that target. */
  lemma ToTargetPlanArrives(reg: seq<string>, current: Version, target: Version)
    requires Ascending(reg) && Known(reg, current)
    requires exists arg :: ToTarget(reg, current, arg) == Success(Some(target))
    ensures Arrives(Plan(reg, current, target), target)
  {
    var arg :| ToTarget(reg, current, arg) == Success(Some(target));
    BelowTotal(current, target);
    if Below(current, target) {
      UpPlanEndsAtTarget(reg, current, target);
    } else {
      DownPlanEndsAtTarget(reg, current, target);
    }
  }

  /** doMark: the resolved version when it is the sentinel or registered, "selected version is unknown" otherwise. */
  function MarkTarget(reg: seq<string>, arg: string): (r: Result<Version, Error>)
    ensures r.Success? <==> Known(reg, ResolveAlias(arg))
    ensures r.Success? ==> r.value == ResolveAlias(arg)
    ensures r.Failure? ==> r.error == SelectedVersionUnknown
  {
    var version := ResolveAlias(arg);
    if !Known(reg, version) then Failure(SelectedVersionUnknown) else Success(version)
  }
}
