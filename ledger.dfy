/**
 * Ledger: the runner's own two tables, the version row and the history, and
 * the parts a migration has installed, as the state of one class.
 */
module Ledger {
  import opened Wrappers
  import opened Errors
  import opened Versions
  import opened Planning

  /** How many transactions updateVersion and updateHistory try before giving up. */
  const LEDGER_TRIES: nat := 3
  /** The width of the version column, `char(13)`: shorter values read back blank-padded. */
  const VERSION_WIDTH: nat := 13

  /** One row of the history table. */
  datatype Transition = Transition(from: Version, to: Version)

  /** One part script that ran and committed. */
  datatype Applied = Applied(version: string, part: int, dir: Method)

  /** Whether attempt `a` (counting from 0) of a retry loop commits; attempts past the sequence fail. */
  predicate Ok(tries: seq<bool>, a: nat)
  {
    a < |tries| && tries[a]
  }

  /** Whether one of the first `n` attempts commits. */
  predicate SucceedsWithin(tries: seq<bool>, n: nat)
  {
    exists a :: 0 <= a < n && Ok(tries, a)
  }

  /** The version table after updateVersion: empty for the sentinel, else the one version. */
  function StoredForm(v: Version): (row: Option<string>)
    ensures row.None? <==> v == Null
    ensures v.V? ==> row == Some(v.s)
  {
    match v
    case Null => None
    case V(s) => Some(s)
  }

  /** The version row once updateVersion has run: rewritten if a try commits, else as it was. */
  function AfterUpdateVersion(row: Option<string>, v: Version, tries: seq<bool>): Option<string>
  {
    if SucceedsWithin(tries, LEDGER_TRIES) then StoredForm(v) else row
  }

  /** The history once updateHistory has run: one more row if a try commits, else as it was. */
  function AfterUpdateHistory(history: seq<Transition>, from: Version, to: Version, tries: seq<bool>): seq<Transition>
  {
    if SucceedsWithin(tries, LEDGER_TRIES) then history + [Transition(from, to)] else history
  }

  /**
   * getCurrentVersion: the sentinel when the version table is missing or
   * empty, the stored version when the registry has it, and "current
   * version is unknown" otherwise. The version is returned as the string it
   * is, so a registry entry spelled 'null' reads as the sentinel.
   */
  function ReadVersion(reg: seq<string>, row: Option<string>): (r: Result<Version, Error>)
    ensures row.None? ==> r == Success(Null)
    ensures row.Some? ==> (r.Success? <==> row.value in reg)
    ensures row.Some? && r.Success? ==> Text(r.value) == row.value
    ensures r.Success? ==> Known(reg, r.value)
    ensures r.Failure? ==> r.error == CurrentVersionUnknown
  {
    match row
    case None => Success(Null)
    case Some(s) => if s in reg then Success(Parse(s)) else Failure(CurrentVersionUnknown)
  }

  /**
   * A known version that updateVersion wrote is what getCurrentVersion reads
   * back, when it fills the version column exactly.
   */
  lemma RecordedVersionReadsBack(reg: seq<string>, row: Option<string>, v: Version, tries: seq<bool>)
    requires Known(reg, v) && SucceedsWithin(tries, LEDGER_TRIES)
    requires v.V? ==> |v.s| == VERSION_WIDTH
    ensures ReadVersion(reg, AfterUpdateVersion(row, v, tries)) == Success(v)
  {
    assert AfterUpdateVersion(row, v, tries) == StoredForm(v);
    if v.V? {
      assert v.s != NULL_TEXT by {
        assert |NULL_TEXT| == 4;
      }
    }
  }

  /** updateHistory only appends: the old rows stay, in order, and at most one row is added, always the given one. */
  lemma HistoryOnlyAppends(history: seq<Transition>, from: Version, to: Version, tries: seq<bool>)
    ensures var h := AfterUpdateHistory(history, from, to, tries);
      |history| <= |h| <= |history| + 1 && h[..|history|] == history &&
      (|h| > |history| ==> h[|history|] == Transition(from, to))
  {
  }

  /** The database as the runner sees it. */
  class Database {
    /** The number of installed parts of the running migration: what its state.sql answers. */
    var installed: int
    /** The row of the version table; None when the table is missing or empty. */
    var versionRow: Option<string>
    /** The rows of the history table, oldest first. */
    var history: seq<Transition>
    /** The part scripts that ran and committed, oldest first. */
    var log: seq<Applied>

    constructor (installed: int, versionRow: Option<string>, history: seq<Transition>)
      ensures this.installed == installed && this.versionRow == versionRow && this.history == history
      ensures log == []
    {
      this.installed := installed;
      this.versionRow := versionRow;
      this.history := history;
      log := [];
    }

    /**
     * One committed part script: an `up` part installs one more part, a
     * `down` part removes one.
     */
    method Apply(version: string, part: int, dir: Method)
      modifies this
      ensures installed == (if dir == Up then old(installed) + 1 else old(installed) - 1)
      ensures log == old(log) + [Applied(version, part, dir)]
      ensures versionRow == old(versionRow) && history == old(history)
    {
      if dir == Up {
        installed := installed + 1;
      } else {
        installed := installed - 1;
      }
      log := log + [Applied(version, part, dir)];
    }

    /**
     * updateVersion: up to three transactions, each deleting the row and,
     * unless the version is the sentinel, inserting the new one; after three
     * failures it gives up without an error.
     */
    method UpdateVersion(version: Version, tries: seq<bool>)
      modifies this
      ensures versionRow == AfterUpdateVersion(old(versionRow), version, tries)
      ensures installed == old(installed) && history == old(history) && log == old(log)
    {
      var i := 1;
      while i <= LEDGER_TRIES
        invariant 1 <= i <= LEDGER_TRIES + 1
        invariant forall a :: 0 <= a < i - 1 ==> !Ok(tries, a)
        invariant versionRow == old(versionRow)
        invariant installed == old(installed) && history == old(history) && log == old(log)
      {
        if Ok(tries, i - 1) {
          versionRow := None;
          if version != Null {
            versionRow := Some(version.s);
          }
          return;
        }
        i := i + 1;
      }
    }

    /**
     * updateHistory: up to three attempts to insert the row (from, to);
     * after three failures it gives up without an error.
     */
    method UpdateHistory(from: Version, to: Version, tries: seq<bool>)
      modifies this
      ensures history == AfterUpdateHistory(old(history), from, to, tries)
      ensures installed == old(installed) && versionRow == old(versionRow) && log == old(log)
    {
      var i := 1;
      while i <= LEDGER_TRIES
        invariant 1 <= i <= LEDGER_TRIES + 1
        invariant forall a :: 0 <= a < i - 1 ==> !Ok(tries, a)
        invariant history == old(history)
        invariant installed == old(installed) && versionRow == old(versionRow) && log == old(log)
      {
        if Ok(tries, i - 1) {
          history := history + [Transition(from, to)];
          return;
        }
        i := i + 1;
      }
    }
  }
}
