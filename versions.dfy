/**
 * Versions: the runner's version identifiers, PHP's strcmp over them, and the
 * order the runner means by its special-casing of the 'null' sentinel.
 */
module Versions {

  /** The fixed-width version of the baseline migration. */
  const INIT: string := "000000T000000"
  /** The fixed-width version of the development-only migration. */
  const DEV: string := "991231T235959"
  /** How the "nothing installed" sentinel is spelled in the code and in the history table. */
  const NULL_TEXT: string := "null"

  /** The command-line aliases for the three sentinels. */
  const INIT_CODE: string := "init"
  const NULL_CODE: string := "null"
  const DEV_CODE: string := "dev"

  /** A version is either the 'null' sentinel or a registry version string. */
  datatype Version = Null | V(s: string)

  /** The string the code handles for a version. */
  function Text(v: Version): (t: string)
    ensures v.V? ==> t == v.s
    ensures v.Null? ==> t == NULL_TEXT
  {
    match v
    case Null => NULL_TEXT
    case V(s) => s
  }

  /**
   * The version a stored or listed string stands for: the code tells the
   * sentinel apart from versions only by its spelling.
   */
  function Parse(s: string): (v: Version)
    ensures Text(v) == s
    ensures s != NULL_TEXT ==> v == V(s)
  {
    if s == NULL_TEXT then Null else V(s)
  }

  /**
   * PHP's strcmp, reduced to its sign: byte-wise comparison, a proper prefix
   * sorting first.
   */
  function Strcmp(a: string, b: string): (r: int)
    ensures -1 <= r <= 1
    ensures r == 0 <==> a == b
    decreases |a|
  {
    if |a| == 0 then (if |b| == 0 then 0 else -1)
    else if |b| == 0 then 1
    else if a[0] < b[0] then -1
    else if a[0] > b[0] then 1
    else
      var r := Strcmp(a[1..], b[1..]);
      assert a == [a[0]] + a[1..] && b == [b[0]] + b[1..];
      r
  }

  /** Swapping the arguments of strcmp flips its sign. */
  lemma {:induction false} StrcmpFlip(a: string, b: string)
    ensures Strcmp(b, a) == -Strcmp(a, b)
    decreases |a|
  {
    if |a| > 0 && |b| > 0 && a[0] == b[0] {
      StrcmpFlip(a[1..], b[1..]);
    }
  }

  /** strcmp orders strings transitively. */
  lemma {:induction false} StrcmpTransitive(a: string, b: string, c: string)
    requires Strcmp(a, b) < 0 && Strcmp(b, c) < 0
    ensures Strcmp(a, c) < 0
    decreases |a|
  {
    if |a| > 0 && |b| > 0 && |c| > 0 && a[0] == b[0] && b[0] == c[0] {
      StrcmpTransitive(a[1..], b[1..], c[1..]);
    }
  }

  /**
   * The literal 'null' sorts above every version that starts with a digit,
   * which is why the code never compares it with strcmp.
   */
  lemma NullTextSortsAbove(s: string)
    requires |s| > 0 && '0' <= s[0] <= '9'
    ensures Strcmp(NULL_TEXT, s) > 0
  {
  }

  /**
   * The order the runner means: the sentinel below every registry version,
   * registry versions by strcmp.
   */
  predicate Below(x: Version, y: Version)
  {
    match (x, y)
    case (Null, V(_)) => true
    case (V(a), V(b)) => Strcmp(a, b) < 0
    case _ => false
  }

  /** Below is a strict total order. */
  lemma BelowTotal(x: Version, y: Version)
    ensures !(Below(x, y) && Below(y, x))
    ensures x != y ==> Below(x, y) || Below(y, x)
    ensures !Below(x, x)
  {
    if x.V? && y.V? {
      StrcmpFlip(x.s, y.s);
    }
  }

  lemma BelowTransitive(x: Version, y: Version, z: Version)
    requires Below(x, y) && Below(y, z)
    ensures Below(x, z)
  {
    if x.V? {
      StrcmpTransitive(x.s, y.s, z.s);
    }
  }

  /**
   * The direction buildPlan works out for two different versions: up when
   * `from` is the sentinel, down when `to` is, and otherwise the sign of
   * strcmp(to, from). Positive exactly when `from` is below `to`.
   */
  function Direction(from: Version, to: Version): (d: int)
    ensures from != to ==> (d > 0 <==> Below(from, to))
    ensures from != to ==> (d < 0 <==> Below(to, from))
    ensures from != to ==> d != 0
  {
    if from == Null then 1
    else if to == Null then -1
    else
      StrcmpFlip(to.s, from.s);
      Strcmp(to.s, from.s)
  }

  /** A registry in the order scandir lists it: strictly ascending by strcmp. */
  predicate Ascending(reg: seq<string>)
  {
    forall i, j :: 0 <= i < j < |reg| ==> Strcmp(reg[i], reg[j]) < 0
  }

  /** Strictly descending by strcmp. */
  predicate Descending(vs: seq<string>)
  {
    forall i, k :: 0 <= i < k < |vs| ==> Strcmp(vs[k], vs[i]) < 0
  }

  /** Appending a string above every element keeps a sequence ascending. */
  lemma AscendingSnoc(vs: seq<string>, v: string)
    requires Ascending(vs) && forall x :: x in vs ==> Strcmp(x, v) < 0
    ensures Ascending(vs + [v])
  {
    forall i, k | 0 <= i < k < |vs| + 1
      ensures Strcmp((vs + [v])[i], (vs + [v])[k]) < 0
    {
      if k == |vs| {
        assert vs[i] in vs;
      }
    }
  }

  /** Prepending a string above every element keeps a sequence descending. */
  lemma DescendingCons(v: string, vs: seq<string>)
    requires Descending(vs) && forall x :: x in vs ==> Strcmp(x, v) < 0
    ensures Descending([v] + vs)
  {
    forall i, k | 0 <= i < k < |vs| + 1
      ensures Strcmp(([v] + vs)[k], ([v] + vs)[i]) < 0
    {
      if i == 0 {
        assert vs[k - 1] in vs;
      } else {
        assert ([v] + vs)[k] == vs[k - 1] && ([v] + vs)[i] == vs[i - 1];
      }
    }
  }

  /** In a descending sequence, index order and reversed strcmp order agree. */
  lemma DescendingIndex(vs: seq<string>, i: nat, k: nat)
    requires Descending(vs) && i < |vs| && k < |vs|
    ensures Strcmp(vs[k], vs[i]) < 0 <==> i < k
    ensures vs[i] == vs[k] <==> i == k
  {
    if k < i {
      StrcmpFlip(vs[i], vs[k]);
    }
  }

  /** Whether a version is the sentinel or in the registry (the code's `isset` on the migration table). */
  predicate Known(reg: seq<string>, v: Version)
  {
    v == Null || v.s in reg
  }

  /** The version just below registry entry `j`: the previous entry, or the sentinel. */
  function PrevOf(reg: seq<string>, j: nat): (p: Version)
    requires j < |reg|
    ensures Ascending(reg) ==> Below(p, V(reg[j]))
  {
    if j == 0 then Null else V(reg[j - 1])
  }

  /** In an ascending registry, index order and strcmp order agree. */
  lemma AscendingIndex(reg: seq<string>, i: nat, j: nat)
    requires Ascending(reg) && i < |reg| && j < |reg|
    ensures Strcmp(reg[i], reg[j]) < 0 <==> i < j
    ensures reg[i] == reg[j] <==> i == j
  {
    if j < i {
      StrcmpFlip(reg[j], reg[i]);
    }
  }
}
