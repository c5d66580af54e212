# migrate.php in Dafny

A model of the core of `migrate.php`, a command-line schema-migration runner
for PostgreSQL. The working directory holds one sub-directory per migration,
named `VERSION-code`, where the version is a fixed-width timestamp such as
`200131T120000`. The baseline migration `000000T000000` consists of a single
`up.sql`/`down.sql` pair. Every other migration is split into numbered parts
`N.up.sql`/`N.down.sql` plus a `state.sql` probe that tells how many of its
parts are installed. The runner keeps the installed version in a one-row
version table and appends every transition to a history table.

The model covers:

- **Versions** (`versions.dfy`). A version is the `'null'` sentinel or a
  registry string. The model has PHP's `strcmp` (reduced to its sign) and the
  order the runner means by special-casing `'null'`: the sentinel sits below
  everything, and registry versions are ordered by `strcmp`.
- **Planning** (`planning.dfy`, `plan_shape.dfy`). `buildPlan` is a method
  with the code's two loops: `array_push` with a `prevVersion` cursor for
  upgrades, and `array_unshift` with a `nextVersion` cursor for downgrades.
  It is proved equal to two folds over the registry. The lemmas then state
  what a plan is, in terms of the version order:
  - which versions it visits, and in which order;
  - which transition each step records;
  - when it is empty;
  - that it ends at the target.
- **Targets** (`targets.dfy`). How `up`, `down`, `to` and `mark` choose the
  version they move to, including `doDown`'s scan for the predecessor.
- **Ledger** (`ledger.dfy`). A `Database` class with four fields:
  - the installed-part count of the running migration (what its `state.sql`
    answers);
  - the version row;
  - the history rows;
  - the log of committed part scripts.

  `updateVersion` and `updateHistory` are retry loops over a sequence of
  transaction outcomes. `getCurrentVersion` reads the version row back.
- **Executor** (`executor.dfy`). `getState`'s result checks,
  `migrateInitTask`'s five attempts, `migrateTask`'s probe-driven attempt
  loop and `doMark`. Each transaction's success is an input, a `seq<bool>`
  with one entry per attempt. The main result is crash-resume convergence:
  - from state `k`, the scripts that commit are exactly the parts `k+1, k+2, …`
    (up) or `k, k-1, …` (down), in that order;
  - on a well-formed migration, the step succeeds exactly when enough of the
    `3 + |parts|` attempts commit to cover the distance to the finish state.
- **Registry** (`registry.dfy`). `getMigrations` scans the directory listing:
  - it skips files and hidden names;
  - it splits each name at the first dash;
  - it drops the dev version unless asked to keep it;
  - it caches the table in a `Runner` class.

  `getMigrationParts` validates a directory's files, given as a map from name
  to size.

The model follows the code in two places where it behaves otherwise than one
would expect:

- **First step of an upgrade.** One would expect the first step to record
  the transition from the current version. The code starts its `prevVersion`
  cursor at `'null'` (migrate.php:647), so that step always records the
  transition from `'null'`. `PlanShape.UpPlanShape` (through `UpChain`)
  states this.
- **Migration without parts.** A directory with a valid `state.sql` and no
  part scripts passes `getMigrationParts`. Its `max(array_keys($parts))` is
  `false` in PHP 7 (the code's `$migrationDir{0}` syntax ties it to PHP 7).
  The model keeps that value as `NoMax` and compares a state with it as PHP
  compares an integer with `false`. `Executor.MigrateParts` states the
  outcomes:
  - upgrading from state 0 fails with "invalid sql", because part 1 is
    missing;
  - from any other state, the step fails with "incorrect state" once the
    operator confirms;
  - downgrading from state 0, once confirmed, writes the version and the
    history without running anything.

## Model

| member | source | states |
|---|---|---|
| Versions.Strcmp | migrate.php:637 | strcmp's sign is -1, 0 or 1 and is 0 exactly when the two strings are equal |
| Versions.StrcmpFlip | migrate.php:637 | swapping strcmp's arguments flips its sign, so `strcmp(to, from) > 0` means `from` sorts first |
| Versions.StrcmpTransitive | migrate.php:652-657 | the strcmp order is transitive |
| Versions.NullTextSortsAbove | migrate.php:630-634 | the literal `'null'` sorts above every digit-led version, which is why the code special-cases it |
| Versions.BelowTotal | migrate.php:630-638 | sentinel-below-all plus strcmp is a strict total order |
| Versions.BelowTransitive | migrate.php:630-638 | that order is transitive |
| Versions.Direction | migrate.php:630-638 | for different versions the direction is never 0; it is positive exactly when `from` is below `to` and negative exactly when `to` is below `from` |
| Versions.PrevOf | migrate.php:683-694 | the version just below a registry entry (previous entry or sentinel) is below it |
| Versions.AscendingIndex | migrate.php:426 | in the name-sorted registry, index order and strcmp order agree, and entries are distinct |
| Planning.BuildPlan | migrate.php:620-701 | the plan built by pushing (up) or unshifting (down) in one pass equals the fold `Plan`: empty for equal versions, else the up or down walk by `Direction` |
| Planning.UpFoldChain | migrate.php:646-670 | each upgrade step runs `up` into its own version; its `from` is the previous step's version, and `'null'` for the first; the cursor ends at the last pushed version |
| Planning.UpFoldMembers | migrate.php:649-659 | an upgrade walk keeps exactly the registry versions that neither skip test rejects |
| Planning.UpFoldAscending | migrate.php:649-668 | over an ascending registry, upgrade steps are in ascending order |
| Planning.DownFoldSteps | migrate.php:688-694 | each downgrade step runs `down` out of its own version |
| Planning.DownFoldMembers | migrate.php:675-686 | a downgrade walk keeps exactly the versions not above `from` and not at or below `to` |
| Planning.DownFoldDescending | migrate.php:675-697 | over an ascending registry, downgrade steps are in descending order |
| Planning.DownFoldTargets | migrate.php:683-694 | each downgrade step ends at the registry version just below the one it reverts, or at `'null'` for the lowest |
| PlanShape.UpPlanShape | migrate.php:646-670 | an upgrade plan visits exactly the registry versions v with from < v <= to, in ascending order, chained from `'null'` |
| PlanShape.DownPlanShape | migrate.php:672-697 | a downgrade plan visits exactly the registry versions v with to < v <= from, in descending order, each step ending just below its version |
| PlanShape.PlanEmptyIff | migrate.php:624-626 | between the sentinel and registered versions, the plan is empty exactly when the two versions are equal |
| PlanShape.UpPlanEndsAtTarget | migrate.php:657-667 | an upgrade to a registered version is not empty and its last step ends at that version |
| PlanShape.DownPlanEndsAtTarget | migrate.php:683-694 | a downgrade to `'null'` or to a registered version is not empty and its last step ends there |
| PlanShape.DownOneStep | migrate.php:268-283 | downgrading a registered version to the version just below it is the single step reverting it |
| Targets.LastVersion | migrate.php:221 | the latest version is `'null'` exactly for an empty registry and is otherwise a registry entry |
| Targets.LastVersionIsLatest | migrate.php:221 | no registry version is above the one `doUp` takes as latest |
| Targets.UpTarget | migrate.php:221-232 | on the strings the code compares: nothing to upgrade at the latest version or from an empty registry; a target is always the latest version, different from the current one and above it |
| Targets.UpTargetPlansRest | migrate.php:221-237 | from a known version, `doUp` has nothing to do exactly at the latest version; otherwise its plan visits exactly the registry versions above the current one |
| Targets.Candidates | migrate.php:270 | the scanned list is `'null'` followed by the registry entries |
| Targets.DownTarget | migrate.php:260-279 | nothing from `'null'`; the entry just before the current version; "cannot to find previous version" when it is not listed |
| Targets.ResolveAlias | migrate.php:303-313 | `init`, `null` and `dev` map to their versions and any other argument to itself; only `null` gives the sentinel |
| Targets.ToTarget | migrate.php:364-372 | nothing to do exactly when the resolved version is the current one (tested first); "selected version is unknown" exactly for a different unknown version; otherwise a different known target |
| Targets.ToTargetPlanArrives | migrate.php:364-381 | for a target `doTo` accepts, the plan is not empty and ends at that target |
| Targets.MarkTarget | migrate.php:317-323 | `doMark` accepts exactly `'null'` and registered versions, giving the resolved version; otherwise "selected version is unknown" |
| Ledger.StoredForm | migrate.php:965-969 | the version table is empty exactly for `'null'` and otherwise holds the version |
| Ledger.ReadVersion | migrate.php:577-597 | `'null'` for a missing or empty table; the stored string when it is registered, "current version is unknown" otherwise; every result is known |
| Ledger.RecordedVersionReadsBack | migrate.php:577-597 | a known version that `updateVersion` managed to write, and that fills the `char(13)` column, is read back unchanged |
| Ledger.HistoryOnlyAppends | migrate.php:1001-1052 | the history keeps its rows in order and gains at most the one given transition |
| Ledger.Database.Apply | migrate.php:858-866 | a committed part script moves the installed count by one in its direction and is logged; the ledger is untouched |
| Ledger.Database.UpdateVersion | migrate.php:950-993 | if one of three transactions commits, the row becomes the stored form of the version; otherwise it is unchanged; nothing else changes |
| Ledger.Database.UpdateHistory | migrate.php:1001-1052 | if one of three attempts commits, one row (from, to) is appended; otherwise the history is unchanged; nothing else changes |
| Executor.GetState | migrate.php:914-942 | succeeds exactly for a loadable probe answering one row whose first value is numeric and not -1, returning it; each failure has its own error |
| Executor.MaxOf | migrate.php:799 | the highest part number is a key and no key is above it |
| Executor.MaxStateOf | migrate.php:799 | `max()` of the part numbers: the highest one when the table has parts, no number (PHP's `false`) exactly when it has none |
| Executor.TraceParts | migrate.php:837-841 | the i-th script a run from state k commits is part k+1+i going up and part k-i going down |
| Executor.CompleteTrace | migrate.php:817-845 | a complete run from k applies exactly parts k+1..maxState in increasing order (up), or k..1 in decreasing order (down) |
| Executor.ReadyProgress | migrate.php:823-853 | in a well-formed migration, after p of its d parts the state is in range, is the finish state exactly when p = d, and otherwise the next part exists and loads |
| Executor.MigrateInitTask | migrate.php:709-772 | "invalid sql" if the script does not load; otherwise success exactly when one of five attempts commits, logging the script once and writing version then history; "no attempts" otherwise, with the ledger untouched |
| Executor.RunAttempts | migrate.php:817-887 | the committed scripts are the trace from the start state; an out-of-range start gives "incorrect state" with nothing applied; without parts, from state 0, "invalid sql" going up and a clean stop going down; on a well-formed migration the loop fails nowhere and applies min(distance, commits among the attempts) parts |
| Executor.MigrateParts | migrate.php:780-905 | the committed scripts follow the trace; with nothing applied: "invalid state sql" or "unknown state" from the first probe, "aborted on error" for an unexpected start the operator does not confirm, "incorrect state" for an out-of-range start; success only in the finish state, after writing version then history; any failure leaves the ledger unchanged; on a well-formed start, success exactly when the commits in 3+|parts| attempts cover the distance, else "invalid finish state" |
| Executor.MigrateTask | migrate.php:780-905 | the baseline's outcome ("invalid sql", success exactly when one of five attempts commits, else "no attempts"); for any other migration the trace, the finish state on success and the convergence of `MigrateParts`; either path writes the ledger only on success |
| Executor.Mark | migrate.php:295-329 | an unknown version is rejected with the ledger untouched; a known one is written to the version row only, never to the history |
| Registry.SplitName | migrate.php:436 | the version has no dash; with a code, version + "-" + code is the name; without one, the version is the whole name |
| Registry.SplitJoin | migrate.php:436 | splitting a dash-free version joined to a code by a dash gives both back |
| Registry.Num | migrate.php:489 | stripping `.up.sql` leaves the part number of an up script |
| Registry.PartError | migrate.php:490-502 | an up script passes exactly when its down script exists and both are larger than 32 bytes |
| Registry.PartsFoldSuccess | migrate.php:488-505 | the part loop succeeds exactly when every up script passes; the table then has one entry per part number, naming its two scripts |
| Registry.PartsFoldFirstError | migrate.php:488-505 | the part loop fails with the error of the first up script, in glob order, that does not pass |
| Registry.ValidSqlFile | migrate.php:407-410 | a valid SQL file exists and is not empty, so the executor can load it |
| Registry.MigrationParts | migrate.php:464-509 | the baseline is accepted exactly when its up.sql and down.sql are valid, giving part 1; any other migration needs a valid state.sql ("invalid migration: state.sql" otherwise) and as many up as down scripts |
| Registry.RegisteredScriptsValid | migrate.php:484-505 | every script named by an accepted part table is a valid SQL file |
| Registry.GetMigrationParts | migrate.php:464-509 | the loop method computes `MigrationParts`: baseline up/down checks, or state.sql check, count check, then the part loop |
| Registry.ScanFoldTable | migrate.php:426-451 | every registered migration comes from a visible, non-skipped directory whose name splits into its version and code; with no error, every such directory is registered |
| Registry.NoDevUnlessIncluded | migrate.php:440-442 | without includeDev the dev version is never registered |
| Registry.Runner.GetMigrations | migrate.php:418-454 | a cached table is returned unchanged; otherwise the scan's table is cached (also the part built before an error) and returned, or its error raised |

## Left out

- Command dispatch, help, status and history printing, the environment checks and the configuration file: output and environment only.
- PDO plumbing: connection caching and forced reconnects, `fetch`'s own retries, the SQL text, the `pg_tables` existence checks and `now()` timestamps. A transaction is a `bool` per attempt; a missing version table reads like an empty one.
- `sleep` back-off and the echoed progress: timing and output only.
- `readline` at the start-state prompt: it is the `confirm` parameter.
- `file_get_contents`, `scandir`, `is_dir` and `glob`: their results are inputs (a map from file name to size, a listing of entries, the two glob lists). A script whose whole content is `0`, which PHP also reads as false, is not modelled.
- Executor.GetState: `is_numeric` and `(int)` on float-like or padded strings are not modelled; a probe value is an integer or non-numeric.
- Executor.MigrateParts: the state probe is taken to answer the number of installed parts, and each committed part script to move it by one. The model does not cover a `state.sql` that disagrees with the scripts.
- Executor.MigrateParts: the executor's part keys are integers. PHP's conversion of the registry's numeric part names into integer keys is not modelled (the registry keeps them as strings).
- The loop that runs a plan (`foreach ($plan as $task)` in `doUp`, `doDown` and `doTo`) is not modelled: it calls `migrateTask` per step and stops at the first exception.
- Ledger.Database.UpdateVersion: the `char(13)` column, and any failure from a longer version, are not modelled. Ledger.RecordedVersionReadsBack therefore assumes a 13-character version: a shorter one comes back blank-padded in the code and is then unknown.
- A migration directory named `null` or `null-…`: the code cannot tell its version from the sentinel. `UpTarget` and `ReadVersion` compare strings as the code does. `Plan` and `DownTarget` compare versions as values, which differs from the code only for such an entry. The plan and target lemmas are meant for registries without one, and Targets.UpTargetPlansRest states this as `NULL_TEXT !in reg`.
- The registry's ascending order is a precondition (`Ascending`). It follows from `scandir`'s sorted listing and the fixed-width version prefixes, but the model does not derive it from the listing.
- `$migrationDir{0}` (brace offset syntax) is read as the first character, as PHP 7 does.
