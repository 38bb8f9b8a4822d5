# Fixed-asset reconciliation core, modelled in Dafny

The system reconciles two registers of fixed assets:

- the physical inventory, table `fisico`;
- the accounting register, table `contabil`.

A reconciliation is a row of the ledger `depara`. Each row has:

- a fresh `PAR_ID` and a status `ST_CONCILIACAO`;
- a physical id and an accounting id, where 0 means the side is absent;
- the accounting asset number `NRBRM` and its incorporation index `INC_CONTABIL`.

In the accounting register, `INC = 0` marks a parent asset and `INC != 0` marks an incorporated child of the same `NRBRM`.

A row of the lock table `conciliados` has a `(BASE, ID)` key and marks an id as reconciled. A locked id is not offered or paired again. Every save, undo, automatic rule and spreadsheet import works through these four tables.

The model follows the program's modules.

| file | module | what it models |
|---|---|---|
| `tables.dfy` | `Tables` | The database as a class `Db`, whose four fields the operations reassign. Also `PAR_ID` allocation, `INSERT OR IGNORE` into the lock table, and the `ORDER BY` orderings. |
| `ledger.dfy` | `Ledger` | `save_pairs`, the plain save: skip rules, row and lock construction, the transaction. |
| `family.dfy` | `FamilyLedger` | `save_pairs_with_family` and its three entry points. Phase 1 saves the selected pairs; phase 2 completes the accounting family of every `NRBRM` involved. Also `find_children_ctb_ids`. |
| `undo.dfy` | `Undo` | `undo_pairs`: key normalisation, the `PAR_ID` lookup (family-aware for parent assets), the deletes, the lock releases and the `FRAG` clearing. |
| `filters.dfy` | `Filters` | The search-filter builders (`_norm_like`, `_apply_like`, `_apply_eq_int`, `_apply_eq_num_or_text`, `_eq_text`, `_apply_desc_terms`), `_child_status_for_origin`, and the description attributes of rule 6 (`_strip_noise_fields`, `_desc_attr_set`). |
| `auto02.dfy` | `Auto02` | `load_pairs_auto02`: the join conditions of rules 1 to 5 with the greedy one-to-one selection, and the rule-6 description-similarity matcher with its candidate pre-filter. |
| `matcher.dfy` | `Matcher` | The "Automatico 01" batch: pending reads, the rank-based one-to-one pairing by key value, the bulk insert, the five key rules, the propagation of incorporated children and the batch runner. |
| `staging.dfy` | `Staging` | The pending-pair buffer of the manual window (`ManualV2Window`), as a class `StagingBuffer` whose list, batch counter and four counters are updated in place. |
| `deparaimport.dfy` | `DeparaImport` | The spreadsheet import: column detection, cell parsing, the per-row validation and error tally of the preview, and the save planner (children, deduplication, partition into direct and non-plateable pairs). |
| `dbcompat.dfy` | `DbCompat` | The SQLite/PostgreSQL compatibility layer: placeholder conversion, the `INSERT OR IGNORE` rewrite, the `rowid` rewrite, DSN normalisation and candidate lists, and the cursor's row-override replay. |
| `pystr.dfy` | `PyStr` | The Python string and number semantics the code relies on: `strip`, `upper`, `split`, `join`, `int(float(s))`, `str(n)` and slices. |
| `wrappers.dfy` | `Wrappers` | `Option` and `Result`. |

State that the source changes in place is modelled with classes:

- the database (`Tables.Db`);
- the compatibility cursor (`DbCompat.CompatCursor`);
- the staging buffer (`Staging.StagingBuffer`).

Loops become methods proved against recursive specification functions. Database I/O is replaced by the four tables. User dialogs and driver failures are parameters: an answer list, an include mode, or a `fault` flag that makes a transaction roll back.

## Model

| member | source | states |
|---|---|---|
| `DbCompat.QmarkToPyformat` | db_utils_v2.py:18-35 | The character loop with its two quote flags computes the left-to-right conversion: each `?` outside any quoted literal becomes `%s`; every other character is copied. |
| `DbCompat.PyformatLength` | db_utils_v2.py:18-35 | The converted text is longer than the input by exactly the number of placeholders outside literals. |
| `DbCompat.PyformatWithoutPlaceholders` | db_utils_v2.py:31-34 | A statement with no `?` outside literals is returned unchanged. |
| `DbCompat.PyformatAppend` | db_utils_v2.py:22-34 | Conversion is compositional: the second part of a statement is converted in the quote state the first part leaves. |
| `DbCompat.PyformatInsideSingle` | db_utils_v2.py:23-34 | Inside an open single-quoted literal, every character up to the closing quote is copied, and the literal stays open. |
| `DbCompat.PyformatInsideDouble` | db_utils_v2.py:23-34 | Inside an open double-quoted literal, every character up to the closing `"` is copied, a `'` included, and the literal stays open. |
| `DbCompat.QuoteInsideOtherQuote` | db_utils_v2.py:23-30 | A `'` inside a double-quoted literal does not open a single-quoted one, and vice versa: the `?` after it is not converted. |
| `DbCompat.QuotedLiteralUnchanged` | db_utils_v2.py:23-34 | A `'...'` literal, including any `?` in it, is copied verbatim, and scanning resumes outside literals. |
| `DbCompat.PyformatUnquoted` | db_utils_v2.py:31-32 | In a statement without quote characters, every `?` becomes `%s`. |
| `DbCompat.RewriteInsertOrIgnoreShape` | db_utils_v2.py:38-50 | A statement that does not start with `INSERT OR IGNORE INTO` (case-insensitive, any whitespace) is returned unchanged. Otherwise the result starts with `INSERT INTO` and ends with ` ON CONFLICT DO NOTHING;`. |
| `DbCompat.NotInsertOrIgnore` | db_utils_v2.py:39 | A statement beginning `INSERT I` does not match the `INSERT OR IGNORE INTO` pattern. |
| `DbCompat.RewriteInsertOrIgnoreIdempotent` | db_utils_v2.py:38-50 | Rewriting a rewritten statement changes nothing. |
| `DbCompat.RowidToParIdWithout` | db_utils_v2.py:185 | The word-bounded, case-insensitive `d.rowid` substitution leaves a statement without such a reference unchanged. |
| `DbCompat.RewriteSqlPlain` | db_utils_v2.py:181-186 | On a PostgreSQL connection, a plain statement (no upsert, no `d.rowid`, no quotes) only has its `?` replaced by `%s`; on any other backend the statement is untouched. |
| `DbCompat.NormalizeAppendsTimeout` | db_utils_v2.py:57-58 | Appending ` connect_timeout=2` to a trimmed DSN without a timeout yields a DSN that normalisation leaves as it is. |
| `DbCompat.NormalizePgDsnProperties` | db_utils_v2.py:53-59 | The normalised DSN is empty exactly when the input is blank. Otherwise it carries a `connect_timeout=` and normalising it again changes nothing. |
| `DbCompat.DsnFromStrippedProperties` | db_utils_v2.py:68-77 | After stripping, the variables give a DSN exactly when at least one of them is non-empty, and that DSN is normalised. |
| `DbCompat.EvsPgDsnFromEnvProperties` | db_utils_v2.py:62-77 | The `EVS_PG_*` variables give a DSN exactly when one of them is non-blank; defaults fill the blank ones and the result is normalised. |
| `DbCompat.DefaultDsns` | db_utils_v2.py:90-98 | Every entry of the default DSN list is non-blank. |
| `DbCompat.DefaultsNormalized` | db_utils_v2.py:100-103 | Every normalised default is a non-empty normalised DSN. |
| `DbCompat.AppendAbsentSpec` | db_utils_v2.py:100-103 | Appending the defaults that are not yet listed keeps the list as a prefix and adds no duplicate. It adds exactly the defaults that were missing. |
| `DbCompat.AppendDefaults` | db_utils_v2.py:100-103 | The loop appends each normalised default, in order, unless it is already listed. The list keeps its prefix and stays duplicate-free, and it holds exactly the start entries plus the normalised defaults. |
| `DbCompat.CollectCandidates` | db_utils_v2.py:80-104 | The explicit DSN comes first when non-empty. The environment DSN comes next when it is non-empty and differs from it. Every later entry is a normalised default. The list is exactly the leading DSNs followed by each normalised default not yet listed, in the order of the defaults loop. There are no duplicates and at most two more entries than defaults. |
| `DbCompat.PgCandidates` | db_utils_v2.py:80-104 | `_pg_candidates` returns only non-empty, distinct DSNs from the three sources. The `PG_DSN` entry is first when it is set. The `EVS_PG_*` DSN follows it when set and different. Every default appears. |
| `DbCompat.CompatCursor.constructor` | db_utils_v2.py:108-112 | A new cursor has no row override and index 0. |
| `DbCompat.CompatCursor.SetRowsOverride` | db_utils_v2.py:114-116 | Installs the rows and rewinds the index to 0. |
| `DbCompat.CompatCursor.Execute` | db_utils_v2.py:121-128 | Drops any override and rewinds. A statement answered locally installs its rows; any other statement goes to the driver. |
| `DbCompat.CompatCursor.ExecuteMany` | db_utils_v2.py:130-134 | Drops the override and rewinds; the statement always goes to the driver. |
| `DbCompat.CompatCursor.FetchOne` | db_utils_v2.py:136-143 | Without an override, the driver answers. With one: past the end gives `None`; otherwise the next row is returned (Python's negative indexing included) and the index advances by one. |
| `DbCompat.CompatCursor.FetchMany` | db_utils_v2.py:145-153 | Returns the Python slice from the index to `min(len, index + size)`, with size defaulting to 1, and moves the index to that end. From a valid position it never returns more than `size` rows. |
| `DbCompat.CompatCursor.FetchAll` | db_utils_v2.py:155-160 | Returns the remaining override rows and moves the index to the end. |
| `DbCompat.SlicesConcatenate` | db_utils_v2.py:145-160 | A `fetchmany` followed by a `fetchall` returns exactly the rows after the starting position, in order. |
| `PyStr.StripEmptyIffBlank` | manual_db_v2_fixed.py:112-114 | `strip()` gives the empty string exactly when the text is all whitespace; this is the blank test that every filter builder and `_to_int` apply. |
| `PyStr.WordsOfJoin` | manual_db_v2_fixed.py:112-114 | Splitting a space-joined list of non-empty, space-free words gives the list back. This is the round trip behind `" ".join(s.split())`. |
| `PyStr.ParseDecimalOfIntToString` | depara_import.py:43-46 | `int(float(str(n))) == n`: the printed form of an integer parses back to it. |
| `Filters.NormLikeCanonical` | manual_db_v2_fixed.py:112-114 | `_norm_like` returns upper-case text with no leading or trailing whitespace and single spaces between words. |
| `Filters.NormLikeIdempotent` | manual_db_v2_fixed.py:112-114 | Normalising a normalised value changes nothing. |
| `Filters.ApplyLike` | manual_db_v2_fixed.py:116-122 | No clause exactly when the value is blank; otherwise one parameter `%<normalised value>%`. |
| `Filters.ApplyEqInt` | manual_db_v2_fixed.py:124-132 | No clause exactly when the value is blank; otherwise one integer parameter: the parsed value, or the sentinel that matches no row. |
| `Filters.EqText` | manual_db_v2_fixed.py:155-162 | No clause exactly when the value is blank; otherwise one parameter, the normalised text. |
| `Filters.ApplyEqNumOrText` | manual_db_v2_fixed.py:134-153 | A numeric value compares as an integer; anything else falls back to the text comparison. A blank value gives no clause. |
| `Filters.Terms` | manual_db_v2_fixed.py:165-167 | The non-blank description terms, at most one per input. There are none exactly when all three inputs are blank. |
| `Filters.LikeClauses` | manual_db_v2_fixed.py:172-177 | One `LIKE ?` condition per term, on the given field. |
| `Filters.DescClause` | manual_db_v2_fixed.py:172-180 | No clause exactly when there are no terms; otherwise one `%term%` parameter per term, in order. |
| `Filters.ApplyDescTerms` | manual_db_v2_fixed.py:164-180 | No clause exactly when all three descriptions are blank; otherwise up to three `%term%` parameters in input order. |
| `Filters.UnknownModeIsAnd` | manual_db_v2_fixed.py:164-180 | Any mode other than `OU` combines the terms with `AND`. |
| `Filters.ChildStatusForOriginCases` | manual_db_v2_fixed.py:618-629 | `MANUAL` gives `CM - INC`, `DIRETA` gives `CD - INC`, and `NAO CHAPEAVEL` (either spelling) gives `CN - INC`. The origin is compared after strip and upper; any other origin is returned as given. |
| `Filters.JoinCanonical` | manual_db_v2_fixed.py:112-114 | Joining solid upper-case words with single spaces gives canonical text. |
| `Filters.NoiseStart` | manual_db_v2_fixed.py:268-285 | Finds the first labelled noise field (`MCA`, `MOD`, `SERIE`, `CAP`, `CAPACIDADE`, `TAG` followed by a separator) at or after a position, and no label lies before it. |
| `Filters.StripNoise` | manual_db_v2_fixed.py:268-285 | Removes the labelled noise fields, with newlines replaced by spaces. |
| `Filters.DescAttrSetShape` | manual_db_v2_fixed.py:287-307 | An empty description has no attributes. Every attribute is either a number of at least two digits or a three-character prefix of an upper-case alphanumeric token. |
| `Filters.DescAttrSetMembers` | manual_db_v2_fixed.py:287-307 | An attribute comes from exactly the contributing tokens of the upper-cased, noise-stripped description: not a stop label, at least two digits, or at least three letters. |
| `Filters.StopLabelOnly` | manual_db_v2_fixed.py:297-301 | A stop label alone contributes no attribute. |
| `Tables.MaxParId` | manual_db_v2_fixed.py:506 | `COALESCE(MAX(PAR_ID), 0)`: 0 for an empty ledger; otherwise an upper bound attained by some row. |
| `Tables.NextParId` | manual_db_v2_fixed.py:506-507 | The next `PAR_ID` exceeds every existing one. |
| `Tables.FreshParIds` | manual_db_v2_fixed.py:506-507 | Rows numbered consecutively from the next `PAR_ID` never collide with an existing row or with each other. |
| `Tables.InsertOrIgnore` | manual_db_v2_fixed.py:602-606 | `INSERT OR IGNORE` keeps every existing lock with its `PAR_ID` and adds exactly the keys of the new rows. |
| `Tables.InsertOrIgnoreFirst` | manual_db_v2_fixed.py:602-606 | A key that is new to the table gets the `PAR_ID` of the first row that carries it. |
| `Tables.MinPairExists` | manual_db_v2_fixed.py:726 | A non-empty set of pairs has a least element in `ORDER BY a, b` order. |
| `Tables.SortedPairs` | manual_db_v2_fixed.py:726 | The ordered result of `ORDER BY a, b`: the same pairs, strictly increasing. |
| `Tables.SortPairs` | manual_db_v2_fixed.py:725-728 | The selection loop computes `SortedPairs`. |
| `Tables.SortIds` | manual_db_v2_fixed.py:971 | `ORDER BY ID`: the same ids, strictly increasing. |
| `Tables.Take` | manual_db_v2_fixed.py:1112 | `LIMIT n`: a prefix of at most n elements; shorter only when the input is exhausted. |
| `Ledger.PairLocks` | manual_db_v2_fixed.py:585-591 | Locks are written only for positive ids, each with the row's `PAR_ID`. |
| `Ledger.LocksOfPositive` | manual_db_v2_fixed.py:585-591 | All locks of a batch are for positive ids. |
| `Ledger.PairRow` | manual_db_v2_fixed.py:541-583 | A kept pair's row has the given ids and `PAR_ID`. `NRBRM`/`INC` come from the accounting row when there is one (`INC` then present); otherwise `NRBRM` comes from the physical row and `INC` is null. |
| `Ledger.SaveStepShape` | manual_db_v2_fixed.py:516-594 | One loop step keeps the batch invariant: consecutive `PAR_ID`s, locks matching rows, and every row a non-skipped pair. It appends the pair exactly when the skip rules let it through. |
| `Ledger.SaveAllSpec` | manual_db_v2_fixed.py:516-594 | Over the whole loop, the rows are exactly the non-skipped pairs in input order, each with the requested status and positive-id locks. |
| `Ledger.DuplicateInBatchTwice` | manual_db_v2_fixed.py:512-594 | The plain save does not consult its per-save id sets, so a pair listed twice in one call is written twice. |
| `Ledger.SaveOne` | manual_db_v2_fixed.py:520-594 | A pair is kept exactly when it is not skipped. The new batch is one step of the specified batch. A kept pair adds one row. |
| `Ledger.SavePairs` | manual_db_v2_fixed.py:483-613 | An empty list saves 0 and changes nothing. A failure rolls back and changes nothing. Otherwise the ledger gains exactly the batch rows, the lock table is the `INSERT OR IGNORE` of the batch locks, the registers are unchanged, and the count is the number of rows. |
| `FamilyLedger.FirstStepShape` | manual_db_v2_fixed.py:665-717 | A phase-1 step keeps the family invariant. The invariant covers: consecutive `PAR_ID`s; statuses from `INC`; no locked id written; no accounting id twice; the per-save id set equal to the written accounting ids; child rows traced to an involved `NRBRM`; valid locks; and unlocked anchors. |
| `FamilyLedger.FirstAllShape` | manual_db_v2_fixed.py:665-717 | Phase 1 as a whole keeps the family invariant. |
| `FamilyLedger.MemberStepShape` | manual_db_v2_fixed.py:730-749 | Adding one family member keeps the family invariant. |
| `FamilyLedger.MembersAllShape` | manual_db_v2_fixed.py:730-749 | Completing one family keeps the invariant. Afterwards every member of the family is written in this save or was already locked. |
| `FamilyLedger.FamilyMembers` | manual_db_v2_fixed.py:725-728 | The family query returns exactly the accounting rows of that `NRBRM`, as `(INC, ID)`. |
| `FamilyLedger.SecondAllShape` | manual_db_v2_fixed.py:720-749 | Phase 2 keeps the invariant. Every accounting row of every positive involved `NRBRM` ends up written in this save or was already locked. |
| `FamilyLedger.FamilySaveSpec` | manual_db_v2_fixed.py:631-763 | The whole save meets the family invariant, including family completeness: for every child row with a positive `NRBRM`, each accounting row of that `NRBRM` is in the save or already locked. Its first rows are exactly the pairs phase 1 keeps, in input order. |
| `FamilyLedger.FirstAllKept` | manual_db_v2_fixed.py:665-717 | Phase 1 writes exactly the kept pairs in input order: those not skipped whose accounting id no earlier kept pair took. Its taken set is their positive accounting ids. |
| `FamilyLedger.FirstKeptCovers` | manual_db_v2_fixed.py:665-717 | A pair is kept only if it is not skipped. Every pair that is not skipped is kept, unless an earlier kept pair already took its accounting id. |
| `FamilyLedger.SecondAllPrefix` | manual_db_v2_fixed.py:720-749 | Phase 2 only appends rows: the phase-1 rows stay in front. |
| `FamilyLedger.FamilyLocksPositive` | manual_db_v2_fixed.py:709-746 | When accounting ids are positive, every lock written is for a positive id. |
| `FamilyLedger.FamilyQuery` | manual_db_v2_fixed.py:725-728 | The family query, ordered by `INC` and then `ID`. |
| `FamilyLedger.FirstPhase` | manual_db_v2_fixed.py:665-717 | The phase-1 loop computes the specified phase-1 batch. |
| `FamilyLedger.FamilyPass` | manual_db_v2_fixed.py:730-749 | The loop over one family computes the specified member steps. |
| `FamilyLedger.SecondPhase` | manual_db_v2_fixed.py:720-749 | The loop over the involved `NRBRM`s computes the specified phase 2. |
| `FamilyLedger.SavePairsWithFamily` | manual_db_v2_fixed.py:631-767 | An empty list saves 0 and changes nothing; a failure rolls back. Otherwise the ledger gains exactly the family-save rows, the lock table is `INSERT OR IGNORE` of its locks, the registers are unchanged, and the count is the number of rows. |
| `FamilyLedger.SaveManualPairs` | manual_db_v2_fixed.py:770-772 | The family save with status `MANUAL`; children get `CM - INC`. |
| `FamilyLedger.SaveDirectPairs` | manual_db_v2_fixed.py:775-777 | The family save with status `DIRETA`; children get `CD - INC`. |
| `FamilyLedger.SaveNaoChapeavelPairs` | manual_db_v2_fixed.py:780-782 | The family save with status `NAO CHAPEAVEL`; children get `CN - INC`. |
| `FamilyLedger.FindChildrenCtbIds` | manual_db_v2_fixed.py:952-975 | Returns unlocked children (`INC != 0`) of the `NRBRM` other than the excluded id, in increasing order and at most `limit` of them. A child is left out only when the limit is reached by smaller ids. |
| `Undo.NormKeysSpec` | manual_db_v2_fixed.py:810-821 | The normalised keys are exactly the distinct input pairs with at least one positive side. |
| `Undo.NormalizeKeys` | manual_db_v2_fixed.py:810-821 | The normalisation loop computes those keys, first occurrences first. |
| `Undo.ParIdsCover` | manual_db_v2_fixed.py:831-890 | The collected `PAR_ID`s are exactly those of ledger rows matching some key. A row matches on its own ids, or, when the accounting id is a parent asset, on its family `NRBRM`. |
| `Undo.Without` | manual_db_v2_fixed.py:907-911 | Deleting by `PAR_ID` keeps exactly the rows whose `PAR_ID` is not being undone. |
| `Undo.ReleaseSpec` | manual_db_v2_fixed.py:913-930 | After the releases, no key id and no id of an undone row is locked. Every surviving lock was there before, unchanged and not pointing at an undone `PAR_ID`. |
| `Undo.FamilyRemoved` | manual_db_v2_fixed.py:846-884 | Undoing a parent pair removes every row of its family for that physical id, or every row of the family when there is no physical id. |
| `Undo.NothingLeft` | manual_db_v2_fixed.py:831-905 | After an undo, the same keys match no remaining row. |
| `Undo.UndoTwiceRemovesNothing` | manual_db_v2_fixed.py:787-949 | Undoing the same pairs again finds no `PAR_ID` and leaves ledger and locks as they are (idempotence). |
| `Undo.WithoutNothing` | manual_db_v2_fixed.py:907-911 | Deleting no `PAR_ID` leaves the ledger as it is. |
| `Undo.Collect` | manual_db_v2_fixed.py:831-905 | The lookup loops compute the specified `PAR_ID` set and the impacted physical and accounting ids. |
| `Undo.Unmark` | manual_db_v2_fixed.py:933-943 | When the registers have `FRAG`, it is cleared on exactly the impacted ids and the counts are the ids present. Otherwise nothing changes and the counts are 0. |
| `Undo.DeleteRows` | manual_db_v2_fixed.py:907-928 | The registers are unchanged. The ledger loses exactly the rows of the `PAR_ID`s. The locks of those rows and of both id sets are released. The counts are what was removed; the lock count is in distinct keys, as on PostgreSQL. |
| `Undo.ApplyUndo` | manual_db_v2_fixed.py:829-943 | Collects the rows of the keys, deletes them, releases their locks and clears `FRAG`. The counts report what changed, locks in distinct keys as on PostgreSQL. |
| `Undo.UndoPairs` | manual_db_v2_fixed.py:787-949 | No valid key: zero counts and no change. A failure: no change. Otherwise the matched rows are deleted, the locks released and `FRAG` cleared, and the counts report what changed (locks in distinct keys, as on PostgreSQL). |
| `Staging.IncCounts` | manual_v2_FINAL.py:634-638 | Incrementing a counter keeps it equal to the occurrence count of the list with the new element. |
| `Staging.DecCounts` | manual_v2_FINAL.py:1009-1030 | The decrement, deleting the key at 0, keeps the counter equal to the occurrence count after removing one occurrence. |
| `Staging.ChildEntriesSpec` | manual_v2_FINAL.py:665-678 | The children staged are exactly the found ids not already pending, each once. Every child entry is a `FILHO` with the parent's physical id, rows and batch. |
| `Staging.IdMap` | manual_v2_FINAL.py:767-777 | `_id_map` maps each positive grid id to the first grid row carrying it. |
| `Staging.AutoStageSpec` | manual_v2_FINAL.py:785-808 | Auto02 staging stages only pairs whose ids are both in the grids, as `PAI` entries with their rows and the new batch. No id is staged twice. A skipped pair has an id that is already staged. |
| `Staging.DropSpec` | manual_v2_FINAL.py:946-952 | Removing a set of entries keeps exactly the others, in order. |
| `Staging.UndoAfterStage` | manual_v2_FINAL.py:928-952 | Undoing right after a staging click restores the list as it was before the click. |
| `Staging.OfBatchSpec` | manual_v2_FINAL.py:936-944 | The entries of one batch are exactly those pending with that batch number. |
| `Staging.StagingBuffer.constructor` | manual_v2_FINAL.py:151-162 | An empty buffer with batch counter 0 and empty counters. |
| `Staging.StagingBuffer.Push` | manual_v2_FINAL.py:631-638 | Appends one entry and increments the four counters; the invariant tying the counters to the list is kept. |
| `Staging.StagingBuffer.RemoveAt` | manual_v2_FINAL.py:1004-1030 | Removes the entry at an index and decrements its counters, keeping the invariant. |
| `Staging.StagingBuffer.ClearPending` | manual_v2_FINAL.py:912-926 | Empties the list and the four counters; the batch counter is kept. |
| `Staging.StagingBuffer.CreatePairRows` | manual_v2_FINAL.py:577-684 | Refuses exactly the following: an empty grid, a zero id, or a physical or accounting id already pending. On refusal nothing changes. Otherwise it opens a new batch and appends the `PAI` entry, then the children not yet staged. Children come only for a parent accounting row (`NRBRM` set, `INC = 0`) when the query works and the user accepts. They are pending children of that `NRBRM`, and all of them unless 2000 were found. |
| `Staging.StagingBuffer.StageChildren` | manual_v2_FINAL.py:645-680 | Stages children only for a parent accounting row (`NRBRM` set, `INC = 0`) when the query works and the user accepts. They are pending children of that `NRBRM`, all of them unless 2000 were found, and the batch number is kept. |
| `Staging.StagingBuffer.AddChildren` | manual_v2_FINAL.py:665-678 | The child loop appends exactly the specified child entries. |
| `Staging.StagingBuffer.StageAuto02Pairs` | manual_v2_FINAL.py:759-821 | No pairs or an empty grid clears the list. Otherwise it opens a new batch, and the list becomes the auto02 staging of the pairs. |
| `Staging.StagingBuffer.UndoLastPending` | manual_v2_FINAL.py:928-994 | Removes exactly the entries of the highest batch; the others are kept in order. |
| `Staging.StagingBuffer.RemoveSelectedPending` | manual_v2_FINAL.py:996-1033 | No selection or an out-of-range index changes nothing; otherwise exactly the selected entry is removed. |
| `Staging.StagingBuffer.SaveStaged` | manual_v2_FINAL.py:1045-1064 | An empty list or a failure changes nothing. Otherwise the staged pairs go through the `MANUAL` family save, the ledger and locks change exactly as that save specifies, and the buffer is cleared. |
| `Auto02.CandidateSet` | manual_db_v2_fixed.py:1075-1110 | The candidate pairs are exactly those satisfying the rule's join condition, both ids unlocked, `INC = 0` and both ids inside the filtered sets. |
| `Auto02.GreedySpec` | manual_db_v2_fixed.py:1117-1127 | On the ordered candidates, the greedy selection has these properties. It picks candidates only, is one-to-one and stays in order. It is maximal: every candidate shares an id with a pick. For each physical id it takes the first accounting id still free. |
| `Auto02.GreedyPrefix` | manual_db_v2_fixed.py:1117-1129 | Stopping early gives a prefix of the full selection. |
| `Auto02.GreedyAsWritten` | manual_db_v2_fixed.py:1117-1129 | The loop as written, with the limit tested after the append: a zero limit still yields one pair. |
| `Auto02.LimitZeroStillPairs` | manual_db_v2_fixed.py:1128-1129 | On any non-empty candidate list, the as-written loop returns a pair when the limit is 0. |
| `Auto02.GroupVisit` | manual_db_v2_fixed.py:1120-1127 | One candidate of a physical-id group extends the greedy result by that candidate's step. A group that already has its pair stays unchanged, and a group adds at most one pair. |
| `Auto02.GroupPass` | manual_db_v2_fixed.py:1120-1127 | One physical-id group adds at most one pair, which is the greedy step of that group. |
| `Auto02.GreedyByGroup` | manual_db_v2_fixed.py:1117-1129 | The corrected group loop returns the first `limit` pairs of the greedy selection. |
| `Auto02.Rule6Shape` | manual_db_v2_fixed.py:1032-1057 | Rule 6 returns at most one pair per physical row, and no physical id twice when row ids are distinct. Each accounting id is used once. Each pair scores at least two shared attributes. |
| `Auto02.BestFromCounts` | manual_db_v2_fixed.py:1046-1055 | The best-score scan picks an unused accounting id with the highest score of at least 2, or none when no such id exists. |
| `Auto02.BestMatch` | manual_db_v2_fixed.py:1038-1055 | Counting shared attributes, then scanning for the best, picks the best unused match or reports none. |
| `Auto02.BestFor` | manual_db_v2_fixed.py:1045-1054 | Returns the best unused accounting row of a physical row, or nothing exactly when none shares two attributes. |
| `Auto02.Rule6Pairs` | manual_db_v2_fixed.py:1015-1072 | Rule 6 follows the specified relation (best match per physical row, used ids excluded) and returns its first `limit` pairs. |
| `Auto02.FisAttrsKeep` | manual_db_v2_fixed.py:401-423 | Restricting the physical rows commutes with computing their attributes. |
| `Auto02.CtbAttrsRestrict` | manual_db_v2_fixed.py:401-423 | Restricting the accounting rows commutes with computing their attributes. |
| `Auto02.KeepChangesNothing` | manual_db_v2_fixed.py:401-423 | The rule-6 pre-filter of `load_candidates_auto02` changes no rule-6 result. It keeps physical rows with some hit and accounting rows hit by some physical row. |
| `Auto02.TakeKeeps` | manual_db_v2_fixed.py:1065-1072 | Truncating to `limit` keeps one-to-one selections one-to-one and uses only selected pairs. |
| `Auto02.ScoredTake` | manual_db_v2_fixed.py:1065-1072 | Truncating keeps every pair's score of at least two. |
| `Auto02.Rule6Branch` | manual_db_v2_fixed.py:1015-1072 | The rule-6 branch returns at most `limit` pairs, each accounting id once, each scoring at least 2. Over physical rows with distinct ids it follows the rule-6 relation and uses each physical id once. |
| `Auto02.JoinPairsSpec` | manual_db_v2_fixed.py:1074-1129 | The capped candidates are in strict order. The first `limit` greedy pairs are one-to-one, at most `limit` many, and all candidates. |
| `Auto02.JoinBranch` | manual_db_v2_fixed.py:1074-1129 | Rules 1 to 5 return the first `limit` greedy pairs of the first `candidate_cap` ordered candidates, with the limit loop corrected (see Findings). These are one-to-one and satisfy the rule's condition. |
| `Auto02.LoadPairsAuto02` | manual_db_v2_fixed.py:977-1156 | An unknown rule gives nothing. Rule 6 gives the description-similarity pairs, one-to-one over distinct physical ids. Rules 1 to 5 give the join-based pairs through the corrected limit loop. There are never more than `limit`. |
| `Matcher.ReadPending` | matcher_v2_extended.py:63-100 | The pending ids are exactly the rows not locked and, when there is a `FRAG` column, not marked `Conciliado`. |
| `Matcher.PairsOneToOne` | matcher_v2_extended.py:103-120 | Pairing by value and rank within the value is one-to-one in both directions. |
| `Matcher.FisCoverage` | matcher_v2_extended.py:103-120 | A physical id is paired exactly when its rank in its value group is below the number of accounting ids with that value. |
| `Matcher.CtbCoverage` | matcher_v2_extended.py:103-120 | An accounting id is paired exactly when its rank in its value group is below the number of physical ids with that value. |
| `Matcher.PairDomain` | matcher_v2_extended.py:103-120 | Pairs use keyed ids only; an empty side gives no pairs. |
| `Matcher.SecondRunEmpty` | matcher_v2_extended.py:103-120 | Once the paired ids are removed, pairing the remaining ids again yields nothing. |
| `Matcher.RankOnto` | matcher_v2_extended.py:107-108 | Every rank below the group size is taken by some id (`rank(method="first")`). |
| `Matcher.TextKey` | matcher_v2_extended.py:317-321 | A text key exists exactly when the field is non-blank after strip. |
| `Matcher.FisKeys` | matcher_v2_extended.py:217-336 | The physical side of a rule is exactly the pending rows that have the rule's key. |
| `Matcher.CtbKeys` | matcher_v2_extended.py:217-336 | The accounting side of a rule is exactly the pending rows that have the key and satisfy the rule's `INC = 0` requirement. |
| `Matcher.BulkRowsShape` | matcher_v2_extended.py:152-168 | Bulk rows get consecutive `PAR_ID`s from `MAX + 1`, all with the rule's status, none colliding with the existing ledger. |
| `Matcher.BulkLocksSpec` | matcher_v2_extended.py:166-171 | A bulk insert locks every accounting id, and every physical id that is positive. |
| `Matcher.BulkLocked` | matcher_v2_extended.py:180-192 | After `INSERT OR IGNORE`, the old locks remain and every inserted id is locked. |
| `Matcher.BulkInsertPairs` | matcher_v2_extended.py:132-211 | Reports the number of rows. The ledger, locks and `FRAG` marks change exactly as `BulkEffect` states: rows appended, locks inserted or ignored, `FRAG` set on the inserted ids when the column exists. |
| `Matcher.AsWrittenAgreesOnNrbrmPai` | matcher_v2_extended.py:103-120 | For the `NRBRM` parent rule, the stored `NRBRM` as written equals the accounting row's `NRBRM`. |
| `Matcher.RulePairs` | matcher_v2_extended.py:217-336 | Counts the pending rows on each side and pairs the keyed rows by value and rank, ordered by ids. |
| `Matcher.RunKeyRule` | matcher_v2_extended.py:217-336 | A rule reports its status, the candidate counts and the number paired. It writes exactly the bulk insert of its pairs. Each row carries the accounting row's `NRBRM`, the corrected value of the second finding. |
| `Matcher.MarkFragOnly` | matcher_v2_extended.py:194-208 | Marking `FRAG` changes no other column and marks exactly the given ids. |
| `Matcher.FisKeysShrink` | matcher_v2_extended.py:63-100 | After a commit, the physical side only shrinks, keeps its keys, and excludes locked ids. |
| `Matcher.CtbKeysShrink` | matcher_v2_extended.py:63-100 | After a commit, the accounting side only shrinks, keeps its keys, and excludes locked ids. |
| `Matcher.RuleCommitLocks` | matcher_v2_extended.py:166-192 | After a rule's commit, each paired accounting id is locked, and so is each positive paired physical id. |
| `Matcher.RuleIdempotent` | matcher_v2_extended.py:217-336 | When physical ids are positive, running the same rule again right after its commit pairs nothing. |
| `Matcher.RunKeyRuleTwice` | matcher_v2_extended.py:217-336 | When physical ids are positive, a second run of a rule reports 0 reconciled. |
| `Matcher.Parents` | matcher_v2_extended.py:352-362 | The parent rows are exactly the ledger rows with `INC_CONTABIL` 0 or null. |
| `Matcher.ChildRowsSpec` | matcher_v2_extended.py:384-395 | Each propagated row joins the child to a parent row of the same `NRBRM` and copies the parent's physical id. Every such parent produces a row. |
| `Matcher.PropRowsSpec` | matcher_v2_extended.py:366-395 | Over all pending children, a row is produced exactly for a child and a parent row that share its `NRBRM`; each row carries the child's `NRBRM` and `INC` and the parent's physical id. |
| `Matcher.ChildRowsCount` | matcher_v2_extended.py:384-395 | For one child, a row occurs once per parent row that carries its physical id and the child's `NRBRM`, and no other row occurs. |
| `Matcher.PropRowsCount` | matcher_v2_extended.py:366-395 | Over distinct children, each propagated row occurs exactly as many times as parent rows carry its physical id and its child's `NRBRM`: one row per child and parent row. |
| `Matcher.ChildOfTwoParents` | matcher_v2_extended.py:384-395 | A child whose `NRBRM` has two parent rows is written twice; the merge does not deduplicate. |
| `Matcher.ChildIds` | matcher_v2_extended.py:366-375 | With no parent row there are no children. Otherwise the children are exactly the pending incorporated accounting rows with an `NRBRM`, in increasing id order. |
| `Matcher.RunPropagation` | matcher_v2_extended.py:339-400 | Reports `CA - INC`, the distinct parent physical ids and the pending accounting count. The children are exactly the pending incorporated rows with an `NRBRM`, in id order. It writes the bulk insert of the propagated rows. |
| `Matcher.RuleParentsAdopt` | matcher_v2_extended.py:339-400 | With the corrected `NRBRM`, every pair from a rule becomes a parent row that adopts all pending children of its `NRBRM`. |
| `Matcher.NrbrmZeroLosesChildren` | matcher_v2_extended.py:116 | As written, a pair from rule `BEMANT_FIS=NRBEM_CTB` stores `NRBRM` 0, so its children are not propagated; the corrected row adopts them. |
| `Matcher.NrbrmZeroExampleIsRulePair` | matcher_v2_extended.py:250-277 | The example of the finding is a real rule-2 pair. |
| `Matcher.RunRule` | matcher_v2_extended.py:217-336 | A rule run reports the rule's status. |
| `Matcher.RunAutomatico01` | run_auto_v2.py:19-39 | The batch runs the five key rules and then the propagation, in this order, and returns their six statistics. |
| `DeparaImport.ToInt` | depara_import.py:32-46 | A missing or blank cell is `None`; otherwise the value is `int(float(s))`, or `None` when it does not parse. |
| `DeparaImport.ToIntOfIntToString` | depara_import.py:32-46 | A cell holding a printed integer reads back as that integer. |
| `DeparaImport.BlankOfLift` | depara_import.py:49-56 | A parsed value is blank exactly when absent, or when it is 0 and zero does not count. |
| `DeparaImport.TrioAllAny` | depara_import.py:59-66 | A complete trio is filled. |
| `DeparaImport.TrioZeroes` | depara_import.py:59-66 | `INC = 0` fills a trio but does not complete it alone. A zero id and `NRBEM` do not fill it. Any non-zero id and `NRBEM` with `INC = 0` complete it. A zero id or `NRBEM` never completes it. |
| `DeparaImport.DictOfSpec` | depara_import.py:25 | The column dict has every normalised header as a key, and each key maps to the last column with that header. |
| `DeparaImport.FirstCol` | depara_import.py:24-29 | None exactly when no option is a column. Otherwise it returns the column of the first option present. |
| `DeparaImport.FirstColIsColumn` | depara_import.py:24-29 | The column returned is the stripped name of the last header equal to the option, case-insensitively. |
| `DeparaImport.ColumnForIsFirstCol` | depara_import.py:24-29 | The column function used by the preview agrees with `_first_col`. |
| `DeparaImport.Resolve` | depara_import.py:190-274 | Resolution succeeds exactly when the id and `NRBEM` are present, the id exists, is not locked, and has that `NRBRM`/`INC`; the result is the id. A present, locked id fails as `AlreadyLocked`. An unknown id fails as not found or as a mismatch, and only an unknown id does. |
| `DeparaImport.ValidateRowSpec` | depara_import.py:328-420 | A row is valid exactly when these all hold: each filled trio is complete; at least one side is complete; every complete side resolves. The ids saved are the complete sides' ids, or 0. |
| `DeparaImport.ValidRowIdsPending` | depara_import.py:355-378 | A valid row's non-zero ids exist and are unlocked. Its accounting `NRBRM`/`INC` are the register's. |
| `DeparaImport.OneCategory` | depara_import.py:341-420 | A row is valid exactly when it has no errors. An invalid row falls in exactly one error category. |
| `DeparaImport.ShapeCategory` | depara_import.py:341-353 | Shape errors alone fall in one category. |
| `DeparaImport.ResolveCategoryOne` | depara_import.py:355-372 | Resolving a complete trio adds no error, or one error with one category. |
| `DeparaImport.TallyOfValidated` | depara_import.py:399-420 | Over validated rows, the "outros" counter stays 0. The error counters plus the valid count equal the number of rows. |
| `DeparaImport.FirstKeyIsFirst` | depara_import.py:26-29 | The lookup returns nothing exactly when no option's upper-cased name is a key. Otherwise it returns the value under the first option that is one. |
| `DeparaImport.PickColumn` | depara_import.py:302-308 | The column lookup loop computes `ColumnFor`. |
| `DeparaImport.PickColumns` | depara_import.py:302-308 | The six trio columns are looked up from the six accepted name lists. |
| `DeparaImport.PreviewRow` | depara_import.py:328-432 | Validating one row extends the preview by exactly that row's result. |
| `DeparaImport.TallyStep` | depara_import.py:399-420 | One row updates the valid count, or the category counters of its errors. |
| `DeparaImport.CountPreview` | depara_import.py:399-420 | The counter update of one row. |
| `DeparaImport.PreviewsOneCategory` | depara_import.py:341-420 | For any sheet, every preview row is either valid with no errors, or invalid with errors in exactly one category. |
| `DeparaImport.PreviewRows` | depara_import.py:326-432 | The row loop computes the preview of every row, with its valid count and tally. |
| `DeparaImport.ValidatePreview` | depara_import.py:283-446 | The preview of the sheet under its detected columns, with counters that account for every row. |
| `DeparaImport.OkRows` | depara_import.py:469-471 | The rows to save are exactly the valid preview rows. |
| `DeparaImport.BasePairs` | depara_import.py:469-495 | One `(fis, ctb)` pair per valid row, in order. |
| `DeparaImport.CandsAdd` | depara_import.py:476-495 | A parent row with pending children becomes the next candidate. |
| `DeparaImport.CandsSkip` | depara_import.py:476-495 | A row without pending children adds no candidate. |
| `DeparaImport.CollectCandidates` | depara_import.py:469-495 | Collects the base pairs. The candidates are, in row order, the valid parent rows with pending children, each with those children in `ID` order. A candidate lists all of its parent's pending children, unless 2000 smaller ones came first. |
| `DeparaImport.FamilyPairs` | depara_import.py:516-533 | One pair per child, each with the parent's physical id. |
| `DeparaImport.AppendFamily` | depara_import.py:520-531 | The inner loop appends the candidate's family pairs and counts them. |
| `DeparaImport.ChildPairsSpec` | depara_import.py:516-533 | The child pairs are exactly the children of candidates the user included (all, or those answered yes), with the parent's physical id. |
| `DeparaImport.AddChildren` | depara_import.py:497-533 | Computes the child pairs and their count. When asking one by one, it reports one question per candidate. |
| `DeparaImport.DedupeSpec` | depara_import.py:535-543 | Deduplication keeps the same pairs, each once, and never reorders earlier ones. |
| `DeparaImport.DedupeKeepFirst` | depara_import.py:535-543 | The loop with its seen set keeps first occurrences. |
| `DeparaImport.Direct` | depara_import.py:545-549 | Direct pairs are exactly those with both ids positive. |
| `DeparaImport.NaoChapeavel` | depara_import.py:545-549 | The non-plateable pairs are exactly those with one positive side. |
| `DeparaImport.PlannedPairsSpec` | depara_import.py:469-543 | The pairs sent are exactly those of valid rows and adopted children, each once. |
| `DeparaImport.PlanSave` | depara_import.py:469-554 | Splits the planned pairs into direct and non-plateable pairs. It reports the pairs sent, the children included and the questions asked. |
| `DeparaImport.SaveGroup` | depara_import.py:549-550 | An empty group saves 0. A success reports the rows it added. The registers never change, the ledger only grows, and existing locks stay. |
| `DeparaImport.ExecuteSave` | depara_import.py:459-568 | No preview gives "not validated" and no valid row gives "no valid rows", both changing nothing. A success reports the rows written. The registers never change, the ledger only grows, and existing locks stay. |

## Left out

- The Tk user interface: windows, trees, colours, dialogs and messages. Dialog answers are parameters: the include mode and its answers, `accept` in `CreatePairRows`.
- Pandas and Excel I/O. `_read_excel`, `dropna` and the data-frame plumbing are not modelled. A sheet is a list of rows mapping column names to cells.
- Schema creation, DDL, `init_db` and `PRAGMA`, and the PostgreSQL `information_schema` answers of `_handle_special_sql`. Column-name fallbacks between upper and lower case are not modelled either.
- Driver failures: each transaction takes a `fault` flag that makes it roll back. Exceptions inside the matcher rules are not modelled.
- Floating point. `int(float(s))` is modelled for plain decimal text; exponents, `inf`, `nan` and underscores are not accepted by the model.
- PyStr.ParseDecimalOfIntToString: the parse is exact, while Python rounds through a 64-bit double first. The round trip `int(float(str(n))) == n` therefore holds in Python only for |n| ≤ 2^53 (`9007199254740993` reads back as `9007199254740992`); the model proves it for every n.
- DeparaImport.ToInt: truncates the exact decimal value toward zero. Python rounds the text to a double before truncating, so text with more than about 15 significant digits can differ: `"0.99999999999999999"` gives 1 in Python and 0 here. The model agrees with Python for integers up to 2^53 in magnitude and for decimals that a double represents closely enough.
- DeparaImport.ToIntOfIntToString: holds in Python only for |n| ≤ 2^53, for the rounding reason above; the model proves it for every n.
- Unicode beyond Latin-1 in `str.upper()` and in the `\w` and `\s` classes. Three Latin-1 letters are also left as they are, where Python changes them: `ß` becomes `SS`, `µ` becomes U+039C and `ÿ` becomes U+0178. This reaches `_norm_like` and the rule-6 attribute tokens.
- SQL `LIKE` is modelled as substring containment after normalisation; wildcard characters inside a value are not modelled.
- `load_pending_manual`, `get_distinct_values`, `get_counts`, `_auto02_base_filters` and the year filter of auto02: the filtered register sets are parameters (`keepF`, `keepC`).
- Rule 6 is modelled on a list of physical rows and a map of accounting rows. The SQL ordering and the cap of `load_candidates_auto02` are not modelled. The `DESCRICAO`, `DESC` and `DESC_NORM` fallback is not modelled either; the description is given.
- Auto02.Rule6Pairs: the inverted index is not modelled; scores are computed directly as the size of the attribute intersection, which is what the index counts.
- Negative `limit_pairs` and negative `LIMIT` values: limits are natural numbers.
- Uniqueness of `(BASE, ID)` in `conciliados` comes from the map type. On SQLite the table has only a non-unique index (db_utils_v2.py:600-611), so `INSERT OR IGNORE` stores a second lock row for a key that is already locked: propagation re-locks the parent's physical id, a child can be locked by two parents, and a plain save can contain the same pair twice. There, `undo_pairs` adds up `rowcount` over its three deletes (manual_db_v2_fixed.py:913-930), so its `removed_conc` counts every duplicate row. The model keeps one lock per key and counts distinct keys. The set of locked ids after each operation is the same in both. The counts agree on PostgreSQL, where the key is unique.
- `Staging.StagingBuffer.CreatePairRows` requires that 0 is not an accounting id, so children never carry the "no id" value. `_pk_from_row` is not modelled; grid rows carry their id.
- `Staging.StagingBuffer.UndoLastPending`: the fallback for entries without a batch number is not modelled, since every staged entry carries one.
- The reload that `_apply_filters` performs after a save.
- The note text that the preview attaches to parent rows with children, and the message texts; only their counts are modelled.
- Error categories are modelled on error kinds. The source classifies them by searching for phrases in the message.
- A null text column is modelled as "". This loses one behaviour: `run_regra_exata` applies `astype(str).str.strip()`, so a NULL `SERIE` or `TAG` becomes the key `"None"`, which is kept and paired with other `"None"` keys. `Matcher.TextKey` drops it instead. The importer writes "" for missing text (importer_v2.py:70-72), so only rows written by other paths are affected.
- `Tables.Db` has one `hasFrag` flag for both registers. The source checks for the `FRAG` column table by table (matcher_v2_extended.py:70, 197; manual_db_v2_fixed.py:933-939), so one register with the column and the other without is not modelled.
- Order of unordered SQL reads: the matcher's pending reads have no `ORDER BY`, and the pairing and propagation merge keep the order the rows come in (matcher_v2_extended.py:95, 109). The model fixes that order to ascending ids, so rule pairs, propagated rows and their `PAR_ID`s come out in sorted order.
- The exception path of `find_children_ctb_ids` inside the import (an empty list on failure).
- The expected-id value shown in mismatch messages.
- The PostgreSQL connection attempts of `connect`/`_pg_candidates`. Only the candidate list is modelled.
- `DeparaImport.ExecuteSave`: its postcondition is weaker than the chain of family saves it performs. It states the outcome cases, that the registers are unchanged, that the ledger grows and that old locks stay, but not the exact rows. The rows are stated by `FamilyLedger.SaveDirectPairs` and `FamilyLedger.SaveNaoChapeavelPairs`.
- `Matcher.RunRule`: states only the status; the full effect is stated by `Matcher.RunKeyRule` and `Matcher.RunPropagation`.
- `Matcher.RunAutomatico01`: states the order and the statuses of the six steps, not their combined effect on the tables.
- Matcher.RunKeyRule and Matcher.RunAutomatico01 run the corrected `NRBRM` of the second finding: every rule writes the accounting row's `NRBRM`. As written, rules `BEMANT_FIS=NRBEM_CTB`, `NRBRM_FIS=NRBEM_CTB` and the two exact rules write 0 (`Matcher.LedgerNrbrmAsWritten`), so the propagation that follows does not adopt the children of their pairs.
- Auto02.JoinBranch and Auto02.LoadPairsAuto02 run the corrected limit loop of the first finding (`Auto02.GreedyByGroup`). With `limit_pairs = 0` and a non-empty candidate list, the loop as written returns one pair and the model returns none (`Auto02.GreedyAsWritten`). For any positive limit the two agree. The only caller passes 500 (manual_v2_FINAL.py:729).
- Behaviours of the source that the model reproduces rather than corrects:
  - the plain `save_pairs` writes a pair listed twice in one call twice (`Ledger.DuplicateInBatchTwice`);
  - the propagation writes a child once per parent row of its `NRBRM` (`Matcher.ChildOfTwoParents`);
  - the "outros" error counter of the preview can never increase (`DeparaImport.TallyOfValidated`);
  - a physical id of 0 or less is never locked, so a matcher rule is idempotent only over positive ids (`Matcher.RuleIdempotent`).

## Findings

| source | as written | input that shows it | evidently intended | confidence | as-written member | corrected member |
|---|---|---|---|---|---|---|
| manual_db_v2_fixed.py:1117-1129 | The greedy loop tests `len(pairs) >= limit_pairs` only after appending, so `limit_pairs = 0` still returns one pair. | Any non-empty candidate list with `limit_pairs = 0`. | At most `limit_pairs` pairs: none for a zero limit, as the rule-6 branch's slice gives. | not executed | `Auto02.GreedyAsWritten`, `Auto02.LimitZeroStillPairs` | `Auto02.GreedyByGroup` |
| matcher_v2_extended.py:116 | `_pair_1to1_by_value` stores `NRBRM` from a column named `NRBRM_F`/`NRBRM` that exists only when the key column is `NRBRM`. The other rules store `NRBRM` 0, so the propagation never adopts their children. | Physical row 10 with `BEM_ANTERIOR` 7; accounting parent 1 (`NRBRM` 7, `INC` 0) and child 2 (`NRBRM` 7, `INC` 1); rule `BEMANT_FIS=NRBEM_CTB`. | The ledger row carries the accounting row's `NRBRM`, so the child is propagated to physical row 10. | not executed | `Matcher.LedgerNrbrmAsWritten`, `Matcher.NrbrmZeroLosesChildren` | `Matcher.RuleRows`, `Matcher.RuleParentsAdopt` |
