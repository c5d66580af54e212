/**
 * Executor: running one step of a plan against the database. A multi-part
 * migration is driven by its state probe, one part per attempt; the
 * baseline migration is a single script retried a fixed number of times.
 */
module Executor {
  import opened Wrappers
  import opened Errors
  import opened Versions
  import opened Planning
  import opened Targets
  import opened Ledger
  import opened Registry

  /** How many times migrateInitTask tries the baseline script. */
  const INIT_ATTEMPTS: nat := 5
  /** migrateTask tries this many times more than the migration has parts. */
  const EXTRA_ATTEMPTS: nat := 3

  /** One column value of the probe's answer, as is_numeric and (int) see it. */
  datatype Cell = Numeric(n: int) | NonNumeric

  function Script(p: Part, dir: Method): string
  {
    if dir == Up then p.up else p.down
  }

  /** Whether file_get_contents gives a non-empty script: the file exists and is not empty. */
  predicate Loads(files: map<string, nat>, name: string)
  {
    name in files && files[name] > 0
  }

  /**
   * getState: "invalid state sql" when the probe script does not load,
   * "invalid state result rows" unless it answers exactly one row, "invalid
   * state" unless that row's first value is numeric, "unknown state" for -1,
   * and otherwise that value.
   */
  function GetState(stateLoads: bool, rows: seq<seq<Cell>>): (r: Result<int, Error>)
    ensures r.Success? <==> stateLoads && |rows| == 1 && |rows[0]| > 0 && rows[0][0].Numeric? && rows[0][0].n != -1
    ensures r.Success? ==> r.value == rows[0][0].n
    ensures !stateLoads ==> r == Failure(InvalidStateSql)
    ensures stateLoads && |rows| != 1 ==> r == Failure(InvalidStateRows)
    ensures stateLoads && |rows| == 1 && (|rows[0]| == 0 || rows[0][0].NonNumeric?) ==> r == Failure(InvalidState)
    ensures r == Failure(UnknownState) <==> stateLoads && |rows| == 1 && |rows[0]| > 0 && rows[0][0] == Numeric(-1)
  {
    if !stateLoads then Failure(InvalidStateSql)
    else if |rows| != 1 then Failure(InvalidStateRows)
    else if |rows[0]| == 0 || rows[0][0].NonNumeric? then Failure(InvalidState)
    else if rows[0][0].n == -1 then Failure(UnknownState)
    else Success(rows[0][0].n)
  }

  /** The probe of a database whose state script answers the number of installed parts. */
  function Probe(db: Database, files: map<string, nat>): Result<int, Error>
    reads db
  {
    GetState(Loads(files, STATE_FILE), [[Numeric(db.installed)]])
  }

  /** The highest of a non-empty set of part numbers. */
  ghost function MaxOf(keys: set<int>): (m: int)
    requires exists k :: k in keys
    ensures m in keys
    ensures forall k :: k in keys ==> k <= m
  {
    var x :| x in keys;
    var rest := keys - {x};
    assert forall k :: k in keys ==> k == x || k in rest;
    if exists y :: y in rest then
      var m := MaxOf(rest);
      if x < m then m else x
    else
      x
  }

  /**
   * `max(array_keys($parts))` as PHP 7 evaluates it: the highest part
   * number, or `false` for a migration without parts.
   */
  datatype MaxState = Max(n: int) | NoMax

  /** The highest part number of a part table, or NoMax when it has none. */
  ghost function MaxStateOf(parts: map<int, Part>): (m: MaxState)
    ensures m.Max? <==> exists n :: n in parts
    ensures m.Max? ==> m.n in parts && forall n :: n in parts ==> n <= m.n
  {
    if exists n :: n in parts then Max(MaxOf(parts.Keys)) else NoMax
  }

  /**
   * `$state < 0 || $state > $maxState`. Against `false` PHP 7 compares
   * booleans, so every state other than 0 is above it.
   */
  predicate OutOfRange(state: int, maxState: MaxState)
  {
    state < 0 || (if maxState.Max? then state > maxState.n else state != 0)
  }

  /** The state in which a run in direction `dir` is finished (`===` never equates a state with `false`). */
  predicate Terminal(dir: Method, state: int, maxState: MaxState)
  {
    if dir == Up then maxState == Max(state) else state == 0
  }

  /** The state in which a run in direction `dir` is expected to start. */
  predicate InitState(dir: Method, state: int, maxState: MaxState)
  {
    if dir == Up then state == 0 else maxState == Max(state)
  }

  /** The part that runs next from `state`: the one above it going up, the one at it going down. */
  function NextPart(dir: Method, state: int): int
  {
    if dir == Up then state + 1 else state
  }

  /** The state after `p` parts ran from state `k`. */
  function Moved(dir: Method, k: int, p: nat): int
  {
    if dir == Up then k + p else k - p
  }

  /** How many parts a run from state `k` has to apply. */
  function Distance(dir: Method, k: int, maxState: int): int
  {
    if dir == Up then maxState - k else k
  }

  /** The scripts a run from state `k` commits, in order, once `p` of them have run. */
  function Trace(version: string, dir: Method, k: int, p: nat): (t: seq<Applied>)
    ensures |t| == p
  {
    if p == 0 then [] else Trace(version, dir, k, p - 1) + [Applied(version, NextPart(dir, Moved(dir, k, p - 1)), dir)]
  }

  /** The `i`-th script of a trace is part k+1+i going up and part k-i going down. */
  lemma {:induction false} TraceParts(version: string, dir: Method, k: int, p: nat)
    ensures forall i :: 0 <= i < p ==>
      Trace(version, dir, k, p)[i] == Applied(version, if dir == Up then k + 1 + i else k - i, dir)
  {
    if p > 0 {
      TraceParts(version, dir, k, p - 1);
    }
  }

  /** Whether some script of `t` is part `n`. */
  predicate HasPart(t: seq<Applied>, n: int)
  {
    exists i :: 0 <= i < |t| && t[i].part == n
  }

  /**
   * A complete upgrade from state `k` applies exactly the parts k+1 to
   * maxState, each once, in increasing order; a complete downgrade from `k`
   * applies exactly the parts k down to 1, in decreasing order.
   */
  lemma CompleteTrace(version: string, dir: Method, k: int, maxState: int)
    requires 0 <= k <= maxState
    ensures forall n :: HasPart(Trace(version, dir, k, Distance(dir, k, maxState)), n) <==>
      (if dir == Up then k < n <= maxState else 1 <= n <= k)
    ensures var t := Trace(version, dir, k, Distance(dir, k, maxState));
      forall i, j :: 0 <= i < j < |t| ==> (if dir == Up then t[i].part < t[j].part else t[i].part > t[j].part)
  {
    var d := Distance(dir, k, maxState);
    var t := Trace(version, dir, k, d);
    TraceParts(version, dir, k, d);
    forall n | if dir == Up then k < n <= maxState else 1 <= n <= k
      ensures HasPart(t, n)
    {
      var i := if dir == Up then n - k - 1 else k - n;
      assert t[i].part == n;
    }
  }

  /** How many of the first `n` attempts commit. */
  function Count(tries: seq<bool>, n: nat): (c: nat)
    ensures c <= n
  {
    if n == 0 then 0 else Count(tries, n - 1) + (if Ok(tries, n - 1) then 1 else 0)
  }

  lemma {:induction false} CountMonotone(tries: seq<bool>, m: nat, n: nat)
    requires m <= n
    ensures Count(tries, m) <= Count(tries, n)
    decreases n
  {
    if m < n {
      CountMonotone(tries, m, n - 1);
    }
  }

  function Min(a: int, b: int): int
  {
    if a < b then a else b
  }

  /**
   * The conditions under which a multi-part run can only be stopped by
   * failed transactions: the probe script loads, the parts are numbered 1
   * to the highest with loadable scripts, and the state is in range.
   */
  ghost predicate Ready(dir: Method, parts: map<int, Part>, files: map<string, nat>, k: int)
  {
    && MaxStateOf(parts).Max?
    && Loads(files, STATE_FILE)
    && (forall n :: 1 <= n <= MaxStateOf(parts).n ==> n in parts && Loads(files, Script(parts[n], dir)))
    && 0 <= k <= MaxStateOf(parts).n
  }

  /** Ready, and starting where the run is expected to start or with the operator's go-ahead. */
  ghost predicate Runnable(dir: Method, parts: map<int, Part>, files: map<string, nat>, k: int, confirm: bool)
  {
    Ready(dir, parts, files, k) && (InitState(dir, k, MaxStateOf(parts)) || confirm)
  }

  /**
   * In a ready upgrade or downgrade that has applied `p` of its parts, the
   * state is in range, is the finish state exactly when all parts ran, and
   * otherwise the next part exists and its script loads.
   */
  lemma ReadyProgress(dir: Method, parts: map<int, Part>, files: map<string, nat>, k: int, p: nat)
    requires Ready(dir, parts, files, k)
    requires p <= Distance(dir, k, MaxStateOf(parts).n)
    ensures !OutOfRange(Moved(dir, k, p), MaxStateOf(parts))
    ensures Terminal(dir, Moved(dir, k, p), MaxStateOf(parts)) <==> p == Distance(dir, k, MaxStateOf(parts).n)
    ensures p < Distance(dir, k, MaxStateOf(parts).n) ==>
      NextPart(dir, Moved(dir, k, p)) in parts && Loads(files, Script(parts[NextPart(dir, Moved(dir, k, p))], dir))
  {
    var n := NextPart(dir, Moved(dir, k, p));
    if p < Distance(dir, k, MaxStateOf(parts).n) {
      assert 1 <= n <= MaxStateOf(parts).n;
    }
  }

  /** While the finish is not reached, each attempt adds its own commit to the progress. */
  lemma CountStep(tries: seq<bool>, a: nat, d: int, p: nat)
    requires p == Min(d, Count(tries, a)) && p < d
    ensures p + (if Ok(tries, a) then 1 else 0) == Min(d, Count(tries, a + 1))
  {
  }

  /** The two ledger writes that close a successful step. */
  predicate LedgerWritten(db: Database, row: Option<string>, history: seq<Transition>, step: Step,
                          versionTries: seq<bool>, historyTries: seq<bool>)
    reads db
  {
    && db.versionRow == AfterUpdateVersion(row, step.to, versionTries)
    && db.history == AfterUpdateHistory(history, step.from, step.to, historyTries)
  }

  /**
   * migrateInitTask: "invalid sql" when the script of part 1 does not
   * load; otherwise up to five transactions, stopping at the first commit,
   * which is followed by the two ledger writes; five failures give "no
   * attempts" and leave the ledger as it was.
   */
  method MigrateInitTask(db: Database, step: Step, parts: map<int, Part>, files: map<string, nat>,
                         applyTries: seq<bool>, versionTries: seq<bool>, historyTries: seq<bool>)
    returns (r: Outcome<Error>)
    modifies db
    ensures db.installed == old(db.installed)
    ensures !(1 in parts && Loads(files, Script(parts[1], step.dir))) ==> r == Fail(InvalidSql) && db.log == old(db.log)
    ensures 1 in parts && Loads(files, Script(parts[1], step.dir)) ==>
      (r.Pass? <==> SucceedsWithin(applyTries, INIT_ATTEMPTS)) && (r.Fail? ==> r.error == NoAttempts)
    ensures r.Pass? ==> db.log == old(db.log) + [Applied(step.version, 1, step.dir)]
    ensures r.Pass? ==> LedgerWritten(db, old(db.versionRow), old(db.history), step, versionTries, historyTries)
    ensures r.Fail? ==> db.log == old(db.log) && db.versionRow == old(db.versionRow) && db.history == old(db.history)
  {
    if !(1 in parts && Loads(files, Script(parts[1], step.dir))) {
      return Fail(InvalidSql);
    }
    var attempt := 1;
    while attempt <= INIT_ATTEMPTS
      invariant 1 <= attempt <= INIT_ATTEMPTS + 1
      invariant forall a :: 0 <= a < attempt - 1 ==> !Ok(applyTries, a)
      invariant db.installed == old(db.installed) && db.log == old(db.log)
      invariant db.versionRow == old(db.versionRow) && db.history == old(db.history)
    {
      if Ok(applyTries, attempt - 1) {
        db.log := db.log + [Applied(step.version, 1, step.dir)];
        db.UpdateVersion(step.to, versionTries);
        db.UpdateHistory(step.from, step.to, historyTries);
        return Pass;
      }
      attempt := attempt + 1;
    }
    return Fail(NoAttempts);
  }

  /**
   * The attempt loop of migrateTask: up to `attempts` passes, each
   * re-probing, rejecting a state outside [0, maxState], stopping at the
   * finish state and otherwise running the next part's script in one
   * transaction. On a ready migration it fails nowhere and applies as many
   * parts as commit, up to the distance to the finish.
   */
  method RunAttempts(db: Database, step: Step, parts: map<int, Part>, files: map<string, nat>, maxState: MaxState,
                     attempts: nat, applyTries: seq<bool>)
    returns (err: Option<Error>)
    requires maxState == MaxStateOf(parts)
    modifies db
    ensures |old(db.log)| <= |db.log|
    ensures db.log == old(db.log) + Trace(step.version, step.dir, old(db.installed), |db.log| - |old(db.log)|)
    ensures db.installed == Moved(step.dir, old(db.installed), |db.log| - |old(db.log)|)
    ensures db.versionRow == old(db.versionRow) && db.history == old(db.history)
    ensures Ready(step.dir, parts, files, old(db.installed)) ==>
      err.None? && |db.log| - |old(db.log)| == Min(Distance(step.dir, old(db.installed), maxState.n), Count(applyTries, attempts))
    ensures attempts > 0 && Loads(files, STATE_FILE) && old(db.installed) != -1 && OutOfRange(old(db.installed), maxState) ==>
      err == Some(IncorrectState(old(db.installed))) && db.log == old(db.log)
    ensures attempts > 0 && maxState == NoMax && Loads(files, STATE_FILE) && old(db.installed) == 0 ==>
      db.log == old(db.log) && err == (if step.dir == Up then Some(InvalidSql) else None)
  {
    ghost var k := db.installed;
    ghost var log0 := db.log;
    ghost var ready := Ready(step.dir, parts, files, k);
    ghost var d := if ready then Distance(step.dir, k, maxState.n) else 0;
    ghost var p: nat := 0;
    ghost var stopsAtOnce := Loads(files, STATE_FILE) && k != -1 && (OutOfRange(k, maxState) || (maxState == NoMax && k == 0));
    var attempt := 1;
    while attempt <= attempts
      invariant 1 <= attempt <= attempts + 1
      invariant p <= attempt - 1
      invariant stopsAtOnce ==> attempt == 1
      invariant |db.log| == |log0| + p
      invariant db.log == log0 + Trace(step.version, step.dir, k, p)
      invariant db.installed == Moved(step.dir, k, p)
      invariant db.versionRow == old(db.versionRow) && db.history == old(db.history)
      invariant ready ==> p == Min(d, Count(applyTries, attempt - 1))
    {
      if ready {
        ReadyProgress(step.dir, parts, files, k, p);
      }
      var probe := Probe(db, files);
      if probe.Failure? {
        return Some(probe.error);
      }
      var state := probe.value;
      if OutOfRange(state, maxState) {
        return Some(IncorrectState(state));
      }
      if Terminal(step.dir, state, maxState) {
        CountMonotone(applyTries, attempt - 1, attempts);
        return None;
      }
      var part := NextPart(step.dir, state);
      if !(part in parts && Loads(files, Script(parts[part], step.dir))) {
        return Some(InvalidSql);
      }
      if ready {
        CountStep(applyTries, attempt - 1, d, p);
      }
      if Ok(applyTries, attempt - 1) {
        db.Apply(step.version, part, step.dir);
        p := p + 1;
      }
      attempt := attempt + 1;
    }
    return None;
  }

  /**
   * migrateTask for a multi-part migration: probe the start state (an
   * unexpected one needs the operator's `confirm`), run the attempt loop
   * with 3 + |parts| attempts, and require a final probe that reads the
   * finish state ("invalid finish state" otherwise). Only then are the
   * version and the history written.
   */
  method MigrateParts(db: Database, step: Step, parts: map<int, Part>, files: map<string, nat>, confirm: bool,
                      applyTries: seq<bool>, versionTries: seq<bool>, historyTries: seq<bool>)
    returns (r: Outcome<Error>)
    modifies db
    ensures |old(db.log)| <= |db.log|
    ensures db.log == old(db.log) + Trace(step.version, step.dir, old(db.installed), |db.log| - |old(db.log)|)
    ensures db.installed == Moved(step.dir, old(db.installed), |db.log| - |old(db.log)|)
    ensures r.Pass? ==> Terminal(step.dir, db.installed, MaxStateOf(parts))
    ensures r.Pass? ==> LedgerWritten(db, old(db.versionRow), old(db.history), step, versionTries, historyTries)
    ensures r.Fail? ==> db.versionRow == old(db.versionRow) && db.history == old(db.history)
    // The start: a failed probe, or an unexpected start the operator does not confirm, applies nothing.
    ensures !Loads(files, STATE_FILE) ==> r == Fail(InvalidStateSql) && db.log == old(db.log)
    ensures Loads(files, STATE_FILE) && old(db.installed) == -1 ==> r == Fail(UnknownState) && db.log == old(db.log)
    ensures Loads(files, STATE_FILE) && old(db.installed) != -1 && !InitState(step.dir, old(db.installed), MaxStateOf(parts)) && !confirm ==>
      r == Fail(AbortedOnError) && db.log == old(db.log)
    // The first pass rejects a state out of range before running anything.
    ensures Loads(files, STATE_FILE) && old(db.installed) != -1 && OutOfRange(old(db.installed), MaxStateOf(parts)) &&
            (InitState(step.dir, old(db.installed), MaxStateOf(parts)) || confirm) ==>
      r == Fail(IncorrectState(old(db.installed))) && db.log == old(db.log)
    // A migration without parts, from state 0: "invalid sql" going up, a bare ledger update going down.
    ensures MaxStateOf(parts) == NoMax && Loads(files, STATE_FILE) && old(db.installed) == 0 && (InitState(step.dir, 0, NoMax) || confirm) ==>
      db.log == old(db.log) && (step.dir == Up ==> r == Fail(InvalidSql)) && (step.dir == Down ==> r.Pass?)
    ensures Runnable(step.dir, parts, files, old(db.installed), confirm) ==>
      && (r.Pass? <==> Count(applyTries, EXTRA_ATTEMPTS + |parts|) >= Distance(step.dir, old(db.installed), MaxStateOf(parts).n))
      && |db.log| - |old(db.log)| == Min(Distance(step.dir, old(db.installed), MaxStateOf(parts).n), Count(applyTries, EXTRA_ATTEMPTS + |parts|))
      && (r.Fail? ==> r.error == InvalidFinishState)
  {
    var maxState := NoMax;
    if exists n :: n in parts {
      ghost var highest := MaxOf(parts.Keys);
      var top :| top in parts.Keys && forall n :: n in parts.Keys ==> n <= top;
      maxState := Max(top);
    }
    assert maxState == MaxStateOf(parts);
    ghost var k := db.installed;
    ghost var log0 := db.log;

    var probe := Probe(db, files);
    if probe.Failure? {
      return Fail(probe.error);
    }
    if !InitState(step.dir, probe.value, maxState) && !confirm {
      return Fail(AbortedOnError);
    }

    var err := RunAttempts(db, step, parts, files, maxState, EXTRA_ATTEMPTS + |parts|, applyTries);
    if err.Some? {
      return Fail(err.value);
    }

    if Runnable(step.dir, parts, files, k, confirm) {
      ReadyProgress(step.dir, parts, files, k, |db.log| - |log0|);
    }
    probe := Probe(db, files);
    if probe.Failure? {
      return Fail(probe.error);
    }
    if !Terminal(step.dir, probe.value, maxState) {
      return Fail(InvalidFinishState);
    }
    db.UpdateVersion(step.to, versionTries);
    db.UpdateHistory(step.from, step.to, historyTries);
    return Pass;
  }

  /**
   * migrateTask: the baseline migration takes the single-script path, every
   * other one the multi-part path, with that path's outcome. Either way a
   * successful step ends with the version and history written and a failed
   * one leaves both as they were.
   */
  method MigrateTask(db: Database, step: Step, parts: map<int, Part>, files: map<string, nat>, confirm: bool,
                     applyTries: seq<bool>, versionTries: seq<bool>, historyTries: seq<bool>)
    returns (r: Outcome<Error>)
    modifies db
    ensures r.Pass? ==> LedgerWritten(db, old(db.versionRow), old(db.history), step, versionTries, historyTries)
    ensures r.Fail? ==> db.versionRow == old(db.versionRow) && db.history == old(db.history)
    // The baseline.
    ensures step.version == INIT ==> db.installed == old(db.installed)
    ensures step.version == INIT && !(1 in parts && Loads(files, Script(parts[1], step.dir))) ==>
      r == Fail(InvalidSql) && db.log == old(db.log)
    ensures step.version == INIT && 1 in parts && Loads(files, Script(parts[1], step.dir)) ==>
      (r.Pass? <==> SucceedsWithin(applyTries, INIT_ATTEMPTS)) && (r.Fail? ==> r.error == NoAttempts)
    ensures step.version == INIT ==>
      db.log == old(db.log) + (if r.Pass? then [Applied(step.version, 1, step.dir)] else [])
    // Every other migration.
    ensures step.version != INIT ==> |old(db.log)| <= |db.log|
    ensures step.version != INIT ==>
      db.log == old(db.log) + Trace(step.version, step.dir, old(db.installed), |db.log| - |old(db.log)|) &&
      db.installed == Moved(step.dir, old(db.installed), |db.log| - |old(db.log)|)
    ensures step.version != INIT && r.Pass? ==> Terminal(step.dir, db.installed, MaxStateOf(parts))
    ensures step.version != INIT && Runnable(step.dir, parts, files, old(db.installed), confirm) ==>
      && (r.Pass? <==> Count(applyTries, EXTRA_ATTEMPTS + |parts|) >= Distance(step.dir, old(db.installed), MaxStateOf(parts).n))
      && |db.log| - |old(db.log)| == Min(Distance(step.dir, old(db.installed), MaxStateOf(parts).n), Count(applyTries, EXTRA_ATTEMPTS + |parts|))
      && (r.Fail? ==> r.error == InvalidFinishState)
  {
    if step.version == INIT {
      r := MigrateInitTask(db, step, parts, files, applyTries, versionTries, historyTries);
    } else {
      r := MigrateParts(db, step, parts, files, confirm, applyTries, versionTries, historyTries);
    }
  }

  /**
   * doMark: record a version without running any migration, after
   * rejecting one that is neither the sentinel nor registered. The history
   * is not touched.
   */
  method Mark(db: Database, reg: seq<string>, arg: string, versionTries: seq<bool>) returns (r: Outcome<Error>)
    modifies db
    ensures MarkTarget(reg, arg).Failure? ==> r == Fail(SelectedVersionUnknown) && db.versionRow == old(db.versionRow)
    ensures MarkTarget(reg, arg).Success? ==>
      r.Pass? && db.versionRow == AfterUpdateVersion(old(db.versionRow), ResolveAlias(arg), versionTries)
    ensures db.history == old(db.history) && db.installed == old(db.installed) && db.log == old(db.log)
  {
    var target := MarkTarget(reg, arg);
    if target.Failure? {
      return Fail(target.error);
    }
    db.UpdateVersion(target.value, versionTries);
    return Pass;
  }
}
