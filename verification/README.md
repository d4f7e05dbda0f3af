# A verified model of liter's storage engine, compiler and virtual machine

liter is a small SQL database in the style of SQLite. This project models five of its parts in Dafny and
proves what they are for. Code that changes things in place is modelled by classes and loops that change things
in place, and proved against pure specification functions; the main results are lemmas about those functions.

**Table B-tree** (`BTree*.dfy`, `PageBytes.dfy`, `PageFormat.dfy`, `LeafCells.dfy`, `LeafTable.dfy`, `Overflow.dfy`). A tree is
described level by level: a level is the left-to-right list of pages at one distance from the root, each with the divider to its left.
`TableCursor.Insert` runs the whole recursive insert - leaf split, promotion, cascading interior splits, root
growth, pointer retargeting - on every tree in shape, and is shown to end in a tree with exactly one entry more if
and only if the splits it sets off are safe (`BTreePromote.Safe`, a test a caller can make beforehand); otherwise
the result is no tree of any height. `BTreeFailures` leads from an empty table into both unsafe cases. `TableScan`
is the two-way cursor with its explicit path stack; it refines an index into the sorted rows. Pages are decoded
there; `PageBytes` shows that the in-place byte code of insertion, deletion, page rewriting and page reading does on
bytes what the decoded form says, and `Overflow` that a row of any length comes back from its cell and its overflow
chain.

**Pager** (`Bytes.dfy`, `Wal*.dfy`, `LogFormat.dfy`, `Journal.dfy`, `Pager*.dfy`). `Pager` has the state of the original: file,
cache with dirty flags, journal bytes, savepoint stack, write-ahead log. Reads, writes, evictions, savepoints, both
commit phases, rollback and checkpoints are methods; whole runs of them are atomic and savepoints restore what they
saw. The log and the journal are byte sequences: every prefix of a log recovers the last commit that lies wholly
in it, and a sealed journal restores the start whatever was written to the journaled pages. The layouts are those of
the SQLite Database File Format, sections 1.6 and 1.7 (B-tree and overflow pages), 2.1 (records), 3 (rollback
journal) and 4 (write-ahead log).

**Compiler and virtual machine** (`Mem.dfy`, `Vdbe.dfy`, `Ast.dfy`, `ExprCode.dfy`, `ExprMeaning.dfy`,
`WhereCode.dfy`, `Projection.dfy`, `Select*.dfy`, `Group*.dfy`, `AggregateStates.dfy`, `KeyOrder.dfy`, `Dml*.dfy`,
`Codegen.dfy`, `Interpreter.dfy`, `Statement.dfy`, `Integers.dfy`, `Condition.dfy`, `Queries.dfy`). `Vdbe.Exec` is one instruction of the register machine as a function, `Interpreter` the in-place
interpreter proved against it. `Codegen.Compiler` emits code in place and back-patches jumps, and is proved against
code functions (`CodeOf`, `WhereOf`, `SelectOps`, `GroupOps`, ...). The theorems relate the run of that code to a
source-level evaluator: for expressions, WHERE conditions, single-table SELECT, sort-then-scan GROUP BY, DELETE and
UPDATE. `Statement` joins compiler, interpreter and meaning end to end. `Condition`, `Queries` and `GroupQueries` then state what
SELECT, DELETE, UPDATE and GROUP BY do without that evaluator, in terms of the stored values alone: integers are
compared and calculated with as integers, text byte by byte, conditions are those of logic, a group is the set of rows
with one key, and COUNT, MIN, MAX and SUM are what their names say.

**Record codec** (`Varint.dfy`, `Record.dfy`). Variable-length integers and typed records with the self-referential
header length, encoded and decoded by the original's loops over buffers.

**Expression parser** (`Parser.dfy`, `Precedence.dfy`). Precedence climbing over a token stream, against trees that
keep their parentheses, five classes of operators, and expressions written out in tokens.

Where the code does not keep a promise, the promise is not repaired: the exact condition under which the code keeps
it is proved for all inputs, and an input or a run is given on which it does not.

| promise | kept if and only if | a failure |
|---|---|---|
| an insert ends in a tree with the row added | `BTreeInsert.TableCursor.Insert`: the path is safe | `BTreeFailures.SelfPromotion`, `BTreeFailures.SmallRootSplit` |
| a search finds a row that is there | `BTreeCursor.SeekFindsPresent`: its key divides no two leaves | `BTreeFailures.DividerNotFound` |
| a cell fits an empty page | `LeafCells.CellFitsPageOne`: on page 1, it leaves 110 bytes | `LeafCells.PageOneTooSmall` |
| a rollback after commit phase one restores page 1 | `Pager.Pager.RollbackAfterPhaseOne`: it was journaled or has no header | `Pager.HeaderNotRolledBack` |
| a rollback restores the size in log mode | `Pager.Pager.Transaction`: no surviving write went past it | `Pager.Pager.WalRollbackKeepsSize` |
| the size survives a savepoint rollback and a rollback | `Pager.Pager.RollbackFromSavepoint`: a transaction was open | `Pager.SavepointRollbackOutsideTransaction` |
| the pager is consistent once a log is switched on | `Pager.Pager.EnableWal`: what is cached agrees with the log | the same contract names the shadowed pages |
| a commit after a reopen shows its pages only | `Wal.CommitAfterTail`: the tail does not change the page | `WalRecovery.TailShowsThrough` |
| the checksums of the log continue each other | `LogFormat.RestartChained`, `LogFormat.ReopenChained`: the running sums are those of the header | `LogFormat.ChainBreaks` |
| COUNT(DISTINCT x) counts distinct values | `GroupQueries.DistinctCount`: no two arguments of the group are the same | `GroupQueries.CountedTwice` |
| the compiled columns are the wanted ones | `SelectCode.ItemsWantedIff`: no computed column after a wide star | `SelectCode.StarThenComputed` |

Two of them in words:

- The file header of page 1 is patched without being journaled. `RollbackAfterPhaseOne` proves that a rollback after
  the first commit phase restores page 1 if and only if that page was journaled or carries no database header.
- `SELECT *, 7, a` over columns a and b is compiled as `SELECT *, a, a`: after a star that stands for more than one
  column, a computed column is looked up at the wrong position. `ItemsWantedIff` proves that this is the only way in
  which the compiled columns can differ from the wanted ones.

## Model

| member | source | states |
|---|---|---|
| BTreeInsert.TableCursor.Insert | crates/liter-btree/src/lib.rs:452-480 | For every tree in shape and fresh key: Corrupt when the tree is too deep for the cursor stack; PageFull exactly when the leaf neither has room nor splits into two halves that fit, and never when the n rows of the leaf and the new one have at most b bytes each and (n + 2) / 2 + 1 rows of b bytes with their pointers fit the page; otherwise some height makes the result a tree whose rows are the old ones with the new one in sorted position if and only if the path is safe (no interior split promotes the divider being inserted, a leaf split shares out at least four rows), and when it is not, the result is no tree of any height. Without a split only the leaf changes, and with room in the parent the height stays. |
| BTreeInsert.TakenIff | crates/liter-btree/src/lib.rs:645-745 | The leaf takes a row exactly when its cell and pointer fit the gap, or the first half of all rows - with n rows, (n + 1) / 2 + 1 of them from four rows on - fits one page and the others another, both counted in bytes. |
| BTreeInsert.TableCursor.InsertRun | crates/liter-btree/src/lib.rs:452-480 | Any run of inserts into an initially empty leaf root keeps the tree in shape; its rows are exactly the inserted ones in ascending key order; the run stops early only at a row that is not fresh or not safe, or when an insert fails - which rows of one length never do by PageFull where three of them fit page 1. |
| BTreeInsert.TableCursor.FindLeafForInsert | crates/liter-btree/src/lib.rs:482-509 | The descent pushes exactly the path to the key on the stack, and fails exactly when the path is longer than the stack. |
| BTreeInsert.TableCursor.FindInteriorPageWithDivider | crates/liter-btree/src/lib.rs:518-550 | On any pages the search ends within the depth limit at an interior page with the divider among its own cells, or reports Corrupt; where the search path meets the divider on one page only, it ends there, at that cell. |
| BTreeInsert.TableCursor.InsertCellIntoPage | crates/liter-btree/src/lib.rs:1223-1281 | Insertion on a decoded page: PageFull exactly when the pointer array would meet the cell, otherwise the cell in sorted position. |
| BTreeInsert.TableCursor.WriteCellsToPage | crates/liter-btree/src/lib.rs:1319-1343 | Rewriting a page succeeds exactly when header, pointers and cells fit; the page then holds exactly those cells. |
| BTreeInsert.TableCursor.SplitAndInsertAt | crates/liter-btree/src/lib.rs:645-896 | PageFull exactly when a half does not fit (the halves are those of BTreePage.LeafSplitEven), never for an interior page. If promoting is safe, the slot of the full page becomes two slots around the promoted key, whether the root grows, the parent has room, or the split cascades; if it is not, some way down from the root skips a level. |
| BTreeInsert.TableCursor.SplitRootPage | crates/liter-btree/src/lib.rs:748-804 | Both halves go to new pages and the root becomes an interior page with one divider over them; fails exactly when a half does not fit. |
| BTreeInsert.TableCursor.SplitInPlace | crates/liter-btree/src/lib.rs:804-828 | The left half stays, the right half goes to a new page; all other pages are untouched. |
| BTreeInsert.TableCursor.Promote | crates/liter-btree/src/lib.rs:830-892 | Putting the divider above and retargeting its pointer leaves, when that is safe, the old level with page p followed by the divider and page r; when it is not, a way down that skips a level. First children are never touched. |
| BTreeInsert.TableCursor.PutDivider | crates/liter-btree/src/lib.rs:830-858 | The divider cell goes into the parent or, if it is full, through a split of the parent: the level below then shows p on both sides of the divider, or, exactly in the unsafe cases, the divider has become one of a level above or the tree is already broken. |
| BTreeInsert.TableCursor.Retarget | crates/liter-btree/src/lib.rs:861-892 | The pointer after the divider is set where the search finds it, whatever the pages look like; later retargetings with lower pages never repair a way down that skips a level. |
| BTreeInsert.BinarySearch | crates/liter-btree/src/lib.rs:490-500 | Binary search over ascending keys finds the first cell whose key is not below the key, and stays in bounds on any keys. |
| BTreeInsert.SmallSplit | crates/liter-btree/src/lib.rs:706-720 | A split that shares out fewer than four rows leaves an empty leaf behind a divider, so the result is no tree of any height. |
| BTreeSearch.SelfRetarget | crates/liter-btree/src/lib.rs:861-892 | When a split promotes the very divider being inserted, the search for it stops at that level or above, and the pointer set there skips a level. |
| BTreeSearch.DividerDescent | crates/liter-btree/src/lib.rs:518-550 | The search for a key that is new as a divider on one level passes the pages above it and stops at the page that holds it. |
| BTreeTall.BadKept | crates/liter-btree/src/lib.rs:861-892 | Retargeting a later child at a page no higher than k keeps a way down that skips a level from a page at least k + 2 high. |
| BTreeTall.NoBad | crates/liter-btree/src/lib.rs:482-509 | In a tree in shape no way down skips a level: heights along first children agree everywhere. |
| BTreeFailures.SelfPromotion | crates/liter-btree/src/lib.rs:645-896 | A run from an empty table - ascending rows until the root has no room for a divider, rows for its middle leaf until that is full - and the next row: the root split promotes the divider of the leaf split, and the insert ends in a store that is no tree of any height. |
| BTreeFailures.SmallRootSplit | crates/liter-btree/src/lib.rs:706-720 | One row that has no room on page 1 but fits any other page: the insert ends in no tree. |
| BTreeFailures.DividerNotFound | crates/liter-btree/src/lib.rs:954-995 | A run from an empty table after which the search for a row that is there reports Less. |
| BTreeEntries.LeafSplit | crates/liter-btree/src/lib.rs:645-730 | Sharing out a leaf and its new row between two leaves keeps all leaves within their dividers and the rows those of a sorted insertion. |
| BTreeEntries.EntriesSorted | crates/liter-btree/src/lib.rs:485-505 | The rows of a tree in shape are in strictly ascending key order. |
| BTreeShape.PathGap | crates/liter-btree/src/lib.rs:485-509 | The page-by-page search finds, in every level, the one slot whose dividers enclose the key. |
| BTreeShape.Retarget | crates/liter-btree/src/lib.rs:861-892 | Changing the one child pointer after a divider changes exactly one slot of the level below. |
| BTreePage.LeafSplitRightNonEmpty | crates/liter-btree/src/lib.rs:706-724 | The right half of a leaf split is non-empty exactly when at least four cells are shared out, and then the divider is its first key. |
| BTreePage.LeafSplitEven | crates/liter-btree/src/lib.rs:706-724 | From four rows on, the left half of a leaf split has two or three rows more than the right half; together they are all rows in order; the divider is the first key of the right half. |
| BTreePage.InnerSplitEven | crates/liter-btree/src/lib.rs:725-736 | The halves of an interior split differ by at most one divider, besides the promoted one in the middle. |
| BTreePage.InnerHalvesFit | crates/liter-btree/src/lib.rs:725-736 | At every page size from 512 both halves of a full interior page with one more divider fit an empty page, so an interior split never reports PageFull. |
| BTreePage.KidsSplit | crates/liter-btree/src/lib.rs:725-736 | Both halves of an interior split, around the promoted divider, have the same children in the same order. |
| BTreeCursor.TableScan.MoveToFirst | crates/liter-btree/src/lib.rs:905-925 | The cursor lands on the first row, or becomes invalid on an empty table. |
| BTreeCursor.TableScan.MoveToLast | crates/liter-btree/src/lib.rs:926-952 | The cursor lands on the last row, or becomes invalid on an empty table. |
| BTreeCursor.TableScan.Next | crates/liter-btree/src/lib.rs:997-1033 | The path stack refines a row index: next adds one and reports the end exactly after the last row. |
| BTreeCursor.TableScan.Previous | crates/liter-btree/src/lib.rs:1034-1064 | Previous subtracts one and reports the start exactly before the first row, so it undoes next. |
| BTreeCursor.TableScan.MoveTo | crates/liter-btree/src/lib.rs:954-995 | Equal or Greater leaves the cursor on the first row not below the key, and Equal is reported exactly when that row has the key. |
| BTreeCursor.TableScan.Collect | crates/liter-btree/src/lib.rs:997-1033 | A scan from the first row by repeated next returns all rows in order and ends. |
| BTreeCursor.SeekFindsPresent | crates/liter-btree/src/lib.rs:954-995 | A key that is present is found if and only if it is not a divider of the leaf level; otherwise the search reports Less. |
| BTreeCursor.TreeScannable | crates/liter-btree/src/lib.rs:905-1064 | Every tree in shape meets what the cursor needs. |
| BTreeCursor.TreeSearchable | crates/liter-btree/src/lib.rs:954-995 | In every tree in shape the search path leads to the leaf before which all rows are below the key. |
| PageBytes.InsertCell | crates/liter-btree/src/lib.rs:1223-1281 | The in-place byte operations - copy the cell, scan for its position, move pointers, patch the header - have, on any bytes, exactly the specified result or error, and leave the page alone on error. |
| PageBytes.InsertStored | crates/liter-btree/src/lib.rs:1223-1281 | On a well-formed page buffer insertion reports PageFull exactly when the pointer array would meet the cell; otherwise the page is well-formed, the bytes of the old cells are intact, cells stay disjoint, and it decodes to the old cells with the new one in sorted position. |
| PageBytes.DeleteCell | crates/liter-btree/src/lib.rs:565-583 | Deletion in place: the pointers behind the cell move down and the count drops, on any bytes, or the page is left alone with an error. |
| PageBytes.DeleteStored | crates/liter-btree/src/lib.rs:565-583 | On a well-formed page deletion drops exactly that cell from what the page decodes to; the other cells keep their bytes, and no cell space is given back. |
| LeafTable.LeafReplace | crates/liter-btree/src/lib.rs:557-602 | Deleting a row of a leaf and inserting one with the same key takes the branch without a split exactly when the new cell finds room in the gap; the leaf then holds the rows with that one replaced. |
| LeafTable.LeafInsert | crates/liter-btree/src/lib.rs:1223-1281 | A leaf takes a row without a split exactly when its cell and pointer fit the gap, at the place that the rowid search finds. |
| LeafTable.LeafDelete | crates/liter-btree/src/lib.rs:557-602 | Deleting a row gives back two bytes, those of its pointer. |
| PageFormat.PageAsBytes | crates/liter-btree/src/lib.rs:165-200 | A well-formed page by its bytes: kind, number and start of the cells and rightmost child at their offsets, behind a hundred bytes on page 1, then two-byte pointers in key order, each to the bytes of its cell. |
| PageBytes.StoredUnique | crates/liter-btree/src/lib.rs:165-200 | A byte page decodes to one page only. |
| PageBytes.StoredCells | crates/liter-btree/src/lib.rs:656-691 | The loop with which a split reads its page returns exactly the stored cells, in order, with their keys and bytes. |
| PageBytes.ReadCells | crates/liter-btree/src/lib.rs:656-691 | The reading loop, with its error cases, on any bytes. |
| PageBytes.StoredRowid | crates/liter-btree/src/lib.rs:1190-1211 | The rowid read through a cell pointer, on a leaf or an interior page, is the key of the stored cell. |
| PageBytes.InitPage | crates/liter-btree/src/lib.rs:324-334 | An initialised page is well-formed and decodes to no cells; an interior page keeps its rightmost child. |
| PageBytes.WriteCells | crates/liter-btree/src/lib.rs:1319-1343 | Writing sorted cells to a page succeeds exactly when they fit, and the bytes then decode to exactly those cells. |
| LeafCells.LocalBounds | crates/liter-btree/src/lib.rs:206-231 | The inline part of a payload stays within the local bounds; it is the whole payload exactly when that fits; if it is above the lower bound, every overflow page is full. |
| LeafCells.InlineSize | crates/liter-btree/src/lib.rs:206-231 | A payload of up to the page size less 35 bytes is kept whole. Of a longer one, m = (page size - 12) 32 / 255 - 23 bytes are kept, or the number from m up to that limit that leaves only full overflow pages, if there is one. |
| LeafCells.ChainLength | crates/liter-btree/src/lib.rs:1122-1156 | A chain for n bytes has one page for each page size less four of them, rounded up. |
| LeafCells.FewestPages | crates/liter-btree/src/lib.rs:220-231 | No other inline size within the bounds needs fewer overflow pages. |
| LeafCells.CellFitsEmptyLeaf | crates/liter-btree/src/lib.rs:608-624 | At every page size from 512 to 32768 every leaf cell fits an empty page other than page 1. |
| LeafCells.CellFitsPageOne | crates/liter-btree/src/lib.rs:608-624 | For every rowid and payload, the built cell fits an empty page 1 if and only if its length - two variable-length integers, the inline part and a chain pointer - is at most the page size less 110. |
| LeafCells.PageOneTooSmall | crates/liter-btree/src/lib.rs:608-624 | At every page size the largest payload that is kept whole does not fit page 1. |
| LeafCells.CellLayout | crates/liter-btree/src/lib.rs:665-676 | The length computation of a split finds rowid, payload start and size of any built cell, whatever bytes follow it. |
| LeafCells.ReadChain | crates/liter-btree/src/lib.rs:1160-1186 | The read loop returns the whole content of a chain, front to back. |
| Overflow.OverflowStore.WriteOverflowChain | crates/liter-btree/src/lib.rs:1122-1156 | Written back to front, the chain holds exactly the given bytes, uses as many new pages as needed, starts at the page allocated last, and leaves every earlier page alone. |
| Overflow.OverflowStore.ReadOverflowChain | crates/liter-btree/src/lib.rs:1160-1186 | The loop terminates on any pages, cyclic chains included, with the specified bytes or error. |
| Overflow.OverflowStore.BuildLeafCell | crates/liter-btree/src/lib.rs:608-624 | The built cell and its chain store the row; rows that fit touch no page. |
| Overflow.OverflowStore.LoadCell | crates/liter-btree/src/lib.rs:1066-1101 | Loading a cell from any bytes, with its error cases. |
| Overflow.LoadStored | crates/liter-btree/src/lib.rs:1066-1101 | Loading a stored cell gives back its rowid and payload, of any length, at every page size, wherever the cell is on its page. |
| Overflow.StoresKept | crates/liter-btree/src/lib.rs:1122-1156 | Rows stored later leave an earlier row as it is. |
| Pager.Pager.Transaction | crates/liter-pager/src/lib.rs:795-817 | Atomicity over whole runs: after begin, any mix of reads, page writes, evictions, savepoint opens, rollbacks and releases, a rollback restores every page up to the starting size and, with a journal, the size itself. In log mode the size is the one computed from the run, and it is the starting one if and only if no write that survives the savepoint rollbacks went past it. |
| Pager.SurvivorsGrow | crates/liter-pager/src/lib.rs:640-671 | The size after any run is the larger of the starting size and the surviving writes, and each savepoint has that of the writes before it. |
| Pager.Pager.SavepointRun | crates/liter-pager/src/lib.rs:821-864 | Whatever happens after a savepoint is opened, rolling back to it restores exactly the page view and size it saw, and the earlier savepoints with their views. |
| Pager.Pager.Commit | crates/liter-pager/src/lib.rs:722-793 | After both phases the disk shows what the cache showed, except for page 1 in journal mode: if it begins with the sixteen magic bytes, its copy in the file has the database size at 28, the change counter at 24 one higher modulo 2^32, and every other byte as before; if not, it is unchanged. Fails exactly when page 1 is missing from the file and nothing was written. |
| Pager.Pager.RollbackAfterPhaseOne | crates/liter-pager/src/lib.rs:795-817 | A rollback after the first commit phase restores every page from 2 on, and page 1 if and only if it was journaled or carries no database header. |
| Pager.HeaderNotRolledBack | crates/liter-pager/src/lib.rs:1008-1026 | A transaction that writes nothing, its first commit phase and a rollback: the header page has changed. |
| Pager.Pager.WalRollbackKeepsSize | crates/liter-pager/src/lib.rs:800-812 | A transaction that fails the condition of Transaction: it writes one page past the end of a logged database, and its rollback keeps the size it grew to. |
| Pager.Pager.RollbackFromSavepoint | crates/liter-pager/src/lib.rs:836-864 | In journal mode, for every open savepoint and state, rolling back to it and then rolling back keeps the recorded size if and only if a transaction was open or that size is 0. |
| Pager.SavepointRollbackOutsideTransaction | crates/liter-pager/src/lib.rs:836-864 | A new pager on five pages, a savepoint, a rollback to it and a rollback: the size is 0. |
| Pager.Pager.Acquire | crates/liter-pager/src/lib.rs:624-630 | Under any cache content and eviction order, a read outside a write transaction returns the page as it is in the main file after copying the committed frames into it one by one, whether or not the log has an uncommitted tail; errors for page 0, pages beyond the size and pages missing from the file. |
| Pager.Pager.EnsureCached | crates/liter-pager/src/lib.rs:914-948 | Loading a page and evicting others changes what no page shows. |
| Pager.Pager.EvictClean | crates/liter-pager/src/lib.rs:1028-1037 | Eviction removes clean pages only and never the page just loaded. |
| Pager.Pager.BeginWrite | crates/liter-pager/src/lib.rs:677-720 | A new transaction starts with an empty journal that records the starting size - magic bytes, 0xFFFFFFFF for the number of records, nonce, size, 512 and page size at their offsets; a nested begin changes nothing. |
| Pager.Pager.WriteAccess | crates/liter-pager/src/lib.rs:640-671 | The first write journals the original page; nothing shown changes but a page beyond the end, which shows zeros; the size grows to include the page. |
| Pager.Pager.JournalPage | crates/liter-pager/src/lib.rs:950-969 | The page content is appended to the journal as one record. |
| Pager.Pager.MarkDirty | crates/liter-pager/src/lib.rs:640-671 | A page joins the dirty list once, and the transaction can still be undone. |
| Pager.Pager.Store | crates/liter-pager/src/lib.rs:640-671 | Writing through the buffer of a dirty page changes that page only. |
| Pager.Pager.CommitPhaseOne | crates/liter-pager/src/lib.rs:722-768 | Phase one puts every shown page on disk, page 1 with the size and the counter stored as for Commit, with the exact failure case, and keeps the journal records, so the start can still be restored. The sealed journal has the number of its records at 8, the other header fields at their offsets, and a checksum behind every page. |
| Pager.Pager.UpdateDbHeader | crates/liter-pager/src/lib.rs:1008-1026 | Page 1 alone changes, on disk and in the cache: size at 28, counter at 24, nothing else, and only if it has the magic bytes. |
| PagerModel.HeaderIsWritten | crates/liter-pager/src/lib.rs:1008-1026 | The patched header by its bytes: size, counter, and all others as before. |
| Pager.Pager.CommitPhaseTwo | crates/liter-pager/src/lib.rs:771-787 | Phase two clears dirty flags, dirty list, savepoints and journal without changing what any page shows. |
| Pager.Pager.Rollback | crates/liter-pager/src/lib.rs:795-817 | The state after a rollback in every mode, with and without a journal. |
| Pager.Pager.ApplyRollback | crates/liter-pager/src/lib.rs:971-1006 | Replay writes every record back to file and cache; the size is the recorded one. |
| Pager.Pager.OpenSavepoint | crates/liter-pager/src/lib.rs:821-834 | The savepoint records the view and size of this moment. |
| Pager.Pager.SavepointRollback | crates/liter-pager/src/lib.rs:836-864 | Back to savepoint n: its view and size, savepoints 0 to n stay open, the transaction stays recoverable. |
| Pager.Pager.SavepointRelease | crates/liter-pager/src/lib.rs:866-876 | Savepoint n and those above it are gone; nothing else changes. |
| Pager.Pager.Checkpoint | crates/liter-pager/src/lib.rs:878-889 | In all four modes the committed view of every page is unchanged, also when the log has an uncommitted tail. |
| Pager.Pager.EnableWal | crates/liter-pager/src/lib.rs:599-618 | Switching to a log recovers its frames and takes over the size of the last commit. The pager is consistent afterwards if and only if every cached page is as the log has it and open savepoints have the new size; a page shows what the log has if and only if it is not cached or the log agrees with the main file on it. |
| Pager.ReopenAfterCrash | crates/liter-pager/src/lib.rs:250-338 | Opening a database whose log was cut at any byte ends in a consistent pager outside a transaction that shows, on every page, the state and size after the last commit lying wholly in the file. |
| Pager.ReadAfterCrash | crates/liter-pager/src/lib.rs:250-338 | Reading any page right after such a reopening, uncommitted tail included, returns that state, and succeeds for every page of the main file within the recovered size. |
| Pager.Pager.CrashInCommit | crates/liter-pager/src/lib.rs:722-768 | A crash after any number of pages of the flush: the sealed journal restores every page up to the starting size from what has been written so far. |
| PagerModel.CrashRestores | crates/liter-pager/src/lib.rs:722-768 | Once the journal is sealed, whatever bytes are on the journaled pages of the file, replay restores every page up to the starting size. |
| PagerModel.FlushedShown | crates/liter-pager/src/lib.rs:738-755 | Writing the dirty list to the file makes the file show what the cache does. |
| PagerModel.LogCommit | crates/liter-pager/src/lib.rs:352-396 | Appending the dirty pages as one commit makes the disk show every page as the cache did. |
| PagerModel.RollbackOk | crates/liter-pager/src/lib.rs:971-1006 | After the replay the cache is clean and agrees with the restored file. |
| PagerModel.BackToOk | crates/liter-pager/src/lib.rs:836-864 | Putting the saved pages back gives exactly the view that the savepoint saved. |
| PagerModel.CheckpointOk | crates/liter-pager/src/lib.rs:878-889 | Copying the committed frames into the file changes the committed view of no page. |
| Journal.ReplayRestores | crates/liter-pager/src/lib.rs:971-1006 | Replaying original records restores every page up to the starting size, from any content of the journaled pages. |
| Journal.ReplayTwice | crates/liter-pager/src/lib.rs:971-1006 | Replaying a journal twice equals replaying it once. |
| Journal.ParseAppend | crates/liter-pager/src/lib.rs:1085-1101 | A record appended to whole records is read back after them. |
| Journal.ChecksumIs | crates/liter-pager/src/lib.rs:1042-1050 | The checksum of a page is the nonce plus the bytes at positions 200, 400, ... before its end, the first byte excepted, modulo 2^32. |
| Journal.SumPage | crates/liter-pager/src/lib.rs:1042-1050 | The loop from the end computes that sum. |
| Journal.JournalFields | crates/liter-pager/src/lib.rs:698-710 | The fields of a new journal header by offset. |
| Journal.ReadJournalRecords | crates/liter-pager/src/lib.rs:1085-1101 | The reading loop returns the records, or fails on a record cut short. |
| WalRecovery.PrefixRecovery | crates/liter-pager/src/lib.rs:250-338 | For every prefix of the file written by a run of commits, reopening it gives exactly the page view and size after the last commit whose frames lie wholly in the prefix. |
| WalRecovery.CutRecovery | crates/liter-pager/src/lib.rs:250-338 | The same for files cut inside the header, which start a fresh log. |
| WalRecovery.RecoveredOk | crates/liter-pager/src/lib.rs:250-338 | Whatever bytes a log has, the index rebuilt from them describes frames that lie in the file. |
| WalRecovery.Open | crates/liter-pager/src/lib.rs:250-338 | Opening rebuilds the frame index up to the first foreign salt, or writes a new header over the file. |
| WalRecovery.FreshLog | crates/liter-pager/src/lib.rs:310-338 | A new log shows the main file. |
| WalRecovery.Checkpoint | crates/liter-pager/src/lib.rs:401-443 | All committed frames are copied; Restart and Truncate empty the log. |
| WalRecovery.CheckpointView | crates/liter-pager/src/lib.rs:401-443 | In every mode a checkpoint leaves the view of every page unchanged. |
| Wal.FindLatestFrame | crates/liter-pager/src/lib.rs:203-225 | The two backward scans find the last frame of a page within the last commit. |
| Wal.LookupIsReplay | crates/liter-pager/src/lib.rs:203-225 | The lookup by backward scan over the first n frames agrees with copying these frames into the main file one by one, in order. |
| Wal.AppendFrames | crates/liter-pager/src/lib.rs:352-396 | A commit is appended frame by frame, and only the last frame carries the size. |
| LogFormat.AppendedBytes | crates/liter-pager/src/lib.rs:352-396 | An appended frame by its bytes: page number, size, salts and checksums in its header, the page padded with zeros or cut to the page size behind it, and every other byte of the file as before. |
| LogFormat.ChecksumIs | crates/liter-pager/src/lib.rs:452-465 | The checksum takes the pairs of big-endian words in order, each sum wrapping at 2^32, and ignores up to seven bytes at the end. |
| LogFormat.SumWords | crates/liter-pager/src/lib.rs:452-465 | The loop over the pairs computes these sums. |
| LogFormat.NewLog | crates/liter-pager/src/lib.rs:314-331 | The 32 bytes of a new log, field by field, with the checksum of the first 24 in the last eight. |
| LogFormat.RunChained | crates/liter-pager/src/lib.rs:352-396 | After any run of commits on a new log the checksum of every frame covers its page number, size and page and continues that of the frame before, the first that of the header. |
| LogFormat.RestartChained | crates/liter-pager/src/lib.rs:401-443 | A checkpoint that empties the log keeps the running sums: the next frame continues the chain if and only if they are those of the header. |
| LogFormat.ReopenChained | crates/liter-pager/src/lib.rs:266-285 | Reopening a log takes the sums of the header for the running ones: the next frame continues the chain if and only if the last frame had those. |
| LogFormat.ChainBreaks | crates/liter-pager/src/lib.rs:401-443 | A log of one frame, on which emptying breaks the chain. |
| Wal.CommitVisible | crates/liter-pager/src/lib.rs:352-396 | A commit makes its pages, and no others, visible, when the log has no uncommitted tail. |
| Wal.CommitAfterTail | crates/liter-pager/src/lib.rs:300-316 | After a reopen that kept an uncommitted tail, the next commit shows page p rightly if and only if it rewrites p or the tail does not change it. |
| WalRecovery.TailShowsThrough | crates/liter-pager/src/lib.rs:300-316 | A log whose one frame ends no commit: the next commit, of another page, makes it visible. |
| Varint.VarintRoundTrip | crates/liter-record/src/lib.rs:35-86 | Decoding undoes encoding for every 64-bit number and any bytes after it. |
| Varint.EncodedIs | crates/liter-record/src/lib.rs:52-86 | The encoding by its bytes: the fewest groups of seven bits, most significant first, all but the last with the top bit set; the ninth byte has eight bits. |
| Varint.DecodeVarint | crates/liter-record/src/lib.rs:35-50 | The decoding loop, on any bytes. |
| Varint.EncodeVarint | crates/liter-record/src/lib.rs:52-86 | The encoding loops fill the buffer with exactly the encoding and touch no byte after it; a buffer under nine bytes is refused. |
| Record.RecordRoundTrip | crates/liter-record/src/lib.rs:165-298 | Decoding an encoded record gives back every list of values without a zero-blob placeholder. |
| Record.TypeCodes | crates/liter-record/src/lib.rs:198-268 | The serial type of every value: 0 for NULL, 8 and 9 for 0 and 1, 1 to 6 for other integers by size, 7 for floating point, 12 or 13 plus twice the length for blobs and text. |
| Record.IntegerBytes | crates/liter-record/src/lib.rs:89-158 | An integer is stored in as many bytes as its serial type says, most significant first, in two's complement. |
| Record.OneValue | crates/liter-record/src/lib.rs:198-298 | A record of one value is the header length 2, the serial type, and the value's bytes. |
| Record.EncodeRecord | crates/liter-record/src/lib.rs:198-298 | The encoder, including the iteration for the header length, produces the specified record or the specified error. |
| Record.EncodeHeaderSize | crates/liter-record/src/lib.rs:270-298 | The self-referential header-length loop terminates with the size that counts its own encoding. |
| Record.HeaderSizeLeast | crates/liter-record/src/lib.rs:270-298 | The header size is the least one that counts its own encoding. |
| Record.DecodeRecord | crates/liter-record/src/lib.rs:165-195 | The decoding loops, on any bytes. |
| Record.SignedBack | crates/liter-record/src/lib.rs:89-158 | Sign extension of 1 to 8 bytes undoes two's complement. |
| Record.ValueBack | crates/liter-record/src/lib.rs:89-158 | Every value is read back from its serial type and bytes, whatever bytes follow. |
| Parser.ClimbSound | crates/liter-parser/src/lib.rs:529-547 | A successful parse returns a tree whose tokens in order are those consumed, in which every left operand binds at least as tightly and every right operand strictly more tightly than its parent, by the powers that Precedence.ByRank spells out; it stops at the first operator below the bound, and what follows cannot continue the tree. |
| Precedence.ParsedByRank | crates/liter-parser/src/lib.rs:529-643 | The classes OR, AND, comparisons, + and -, and * / % in ascending order decide, and no other token is an operator: the parser returns a tree and the tokens after it if and only if the tokens are those of the tree, in every node the left operand is of the same or a higher class and the right one of a higher class, and the next token is no operator. |
| Precedence.TwoOperators | crates/liter-parser/src/lib.rs:529-643 | Three operands and two operators: grouped to the left unless the second operator is of a higher class. |
| Precedence.WrittenBack | crates/liter-parser/src/lib.rs:529-643 | Parsing an expression written out in tokens, with parentheses only where the classes ask for them, gives the expression back. |
| Parser.ParsesIff | crates/liter-parser/src/lib.rs:529-547 | The parser succeeds if and only if the tokens begin with such a tree. |
| Parser.ClimbComplete | crates/liter-parser/src/lib.rs:529-547 | Whenever the tokens begin with such a tree and what follows cannot continue it, the parser returns exactly that tree. |
| Parser.TreeUnique | crates/liter-parser/src/lib.rs:529-547 | There is only one such tree. |
| Parser.ExprParser.ParseExprBp | crates/liter-parser/src/lib.rs:529-547 | The loop over operators returns the climbed tree and leaves the rest, with every error case. |
| Parser.ExprParser.ParsePrimary | crates/liter-parser/src/lib.rs:549-624 | Literals, columns, parentheses and calls. |
| Parser.ExprParser.ParseArguments | crates/liter-parser/src/lib.rs:573-593 | No arguments, a star, or a list, up to the closing parenthesis. |
| Parser.ExprParser.ParseList | crates/liter-parser/src/lib.rs:580-591 | The loop over comma-separated expressions. |
| Parser.ExprParser.ConsumeIf | crates/liter-parser/src/lib.rs:122-130 | A token is consumed exactly when it is the expected one. |
| Parser.ExprParser.ExpectToken | crates/liter-parser/src/lib.rs:679-685 | Any other token is consumed and reported. |
| ExprMeaning.ExprRuns | crates/liter-codegen/src/lib.rs:1237-1635 | Running the code of any accepted expression ends exactly behind it with the result register equal to the evaluator's value, fails exactly when the evaluator fails, and leaves every earlier register unchanged. |
| Condition.ComputeIs | crates/liter-vdbe/src/lib.rs:473-528 | Integer arithmetic without overflow is that of the integers, the quotient rounded toward zero, the remainder with the sign of the dividend; division by zero fails. |
| Condition.WrapIs | crates/liter-vdbe/src/lib.rs:473-528 | A sum, difference or product that leaves 64 bits is replaced by the one number of 64 bits that is congruent to it. |
| KeyOrder.ComparisonIs | crates/liter-vdbe/src/lib.rs:529-600 | Each of the six comparison operators on NULL, integers up to 2^53, text and blobs holds exactly when the order of values says so. |
| KeyOrder.CmpIs | crates/liter-vdbe/src/lib.rs:66-126 | The order of values: NULL, integers by value, text, blobs, the last two byte by byte. |
| KeyOrder.BytesLess | crates/liter-vdbe/src/lib.rs:90-100 | Bytes come before other bytes exactly when they are a proper prefix or have the smaller byte at the first difference. |
| KeyOrder.NumbersCompare | crates/liter-vdbe/src/lib.rs:529-600 | Two numbers are compared as floating-point numbers by each of the six operators. |
| Ast.PositionIs | crates/liter-codegen/src/lib.rs:1376-1392 | A column name denotes the first column with the same letters up to ASCII case. |
| Codegen.Compiler.CompileExpr | crates/liter-codegen/src/lib.rs:1237-1635 | The compiler emits exactly the specified code for every accepted expression, back-patched jumps included, and refuses exactly the others. |
| Codegen.Compiler.EmitComparison | crates/liter-codegen/src/lib.rs:1418-1457 | The comparison block, its two jumps patched after emission. |
| Codegen.Compiler.EmitNot | crates/liter-codegen/src/lib.rs:1503-1575 | The three-way block of NOT, its jumps patched after emission. |
| Codegen.Compiler.CompileCall | crates/liter-codegen/src/lib.rs:1582-1632 | Arguments are evaluated, copied to a contiguous block and passed to the function. |
| WhereCode.WhereRuns | crates/liter-codegen/src/lib.rs:1128-1231 | WHERE code falls through exactly when the row passes, jumps to the skip target exactly when it does not, and fails exactly when deciding fails. |
| Condition.PassesIs | crates/liter-codegen/src/lib.rs:1128-1231 | A row passes a condition - comparisons and arithmetic of columns and constants, NOT, OR, AND, IS NULL - exactly when the condition is true of the values of its record, as logic and integer arithmetic have it. |
| WhereCode.PatchSkips | crates/liter-codegen/src/lib.rs:1128-1231 | Patching the returned skip jumps, wherever the code lies in a program, gives the code for that target. |
| Codegen.Compiler.CompileWhere | crates/liter-codegen/src/lib.rs:1128-1231 | The emitted condition and the list of its open jumps are the specified ones. |
| Projection.ItemsRun | crates/liter-codegen/src/lib.rs:242-272 | The result block holds the column values in order; the first failing column fails the run. |
| SelectCode.ItemsWantedIff | crates/liter-codegen/src/lib.rs:182-218 | For a table with columns, the compiled output columns are the wanted ones if and only if no computed column follows a star that stands for more than one column. |
| SelectCode.StarThenComputed | crates/liter-codegen/src/lib.rs:202-218 | A query whose compiled columns are not the wanted ones. |
| SelectMeaning.SelectRuns | crates/liter-codegen/src/lib.rs:151-450 | A compiled single-table SELECT without ORDER BY and LIMIT yields, one row per step, exactly the answers in scan order, and then halts; it fails at the first row whose columns or filter cannot be evaluated. |
| Queries.SelectWhere | crates/liter-codegen/src/lib.rs:151-450 | SELECT columns FROM table WHERE condition, compiled and stepped to its end: the rows whose values meet the condition, in the order of the table, each with the values of the columns asked for. Stated without the evaluator. |
| SelectMeaning.AnswersAre | crates/liter-codegen/src/lib.rs:242-370 | The answers are the projections of exactly the matching rows, in scan order, up to the first row that fails. |
| Codegen.Compiler.CompileSelect | crates/liter-codegen/src/lib.rs:151-450 | The emitted scan, with the jumps of Rewind and of the filter patched once their targets are known, is the specified program. |
| Statement.Execute | crates/liter-codegen/src/lib.rs:151-450 | Compiling a SELECT and stepping the machine returns the answers, and completes exactly when every row could be evaluated, given enough steps. |
| GroupQueries.GroupWhere | crates/liter-codegen/src/lib.rs:617-1053 | SELECT keys and aggregates WHERE condition GROUP BY keys, compiled and stepped to its end: the rows whose values meet the condition fall into one group for each distinct key, keys ascend - NULL, integers, text and blobs byte by byte -, and each output row shows its group's key and what the aggregates make of the arguments of exactly the group's rows; without such a row there is one group, of no rows. With the built-in aggregates it completes. |
| GroupQueries.CountShows | crates/liter-functions/src/lib.rs:35-49 | COUNT shows the number of the group's rows whose argument is not NULL, or of all its rows without an argument. |
| GroupQueries.DistinctCount | crates/liter-codegen/src/lib.rs:622-635 | COUNT(DISTINCT x) counts every row whose argument is not NULL, as without DISTINCT: it is the number of distinct arguments if and only if no two of them are the same. |
| GroupQueries.CountedTwice | crates/liter-codegen/src/lib.rs:622-635 | Two rows that hold 7: COUNT(DISTINCT a) shows 2. |
| GroupQueries.AggregatesIff | crates/liter-codegen/src/lib.rs:452-515 | The aggregates of a query are exactly the aggregate calls in its columns outside other calls, each once. |
| GroupQueries.ExtremeShows | crates/liter-functions/src/lib.rs:126-171 | MIN and MAX show the least and greatest argument of the group's rows that is not NULL, or NULL without any. |
| GroupQueries.SumShows | crates/liter-functions/src/lib.rs:52-99 | SUM shows the sum of integers whose partial sums fit 64 bits, or NULL without any. |
| GroupScan.GroupRuns | crates/liter-codegen/src/lib.rs:617-1053 | GROUP BY code without HAVING, run on any table, yields exactly the specified answer. |
| GroupScan.ScanLoop | crates/liter-codegen/src/lib.rs:570-745 | The first loop inserts the keys and aggregate arguments of exactly the matching rows into the sorter. |
| GroupMeaning.GroupLoop | crates/liter-codegen/src/lib.rs:746-985 | The loop over the sorted records, which only compares neighbours, emits the fold of each run of equal keys at its end. |
| GroupSort.SortOk | crates/liter-vdbe/src/lib.rs:1004-1056 | Sorting keeps the records as a multiset and puts them in ascending order. |
| GroupSort.SortStable | crates/liter-vdbe/src/lib.rs:1004-1056 | Records that compare as equal keep their order. |
| GroupOrder.GroupedAnswer | crates/liter-codegen/src/lib.rs:617-1053 | GROUP BY on non-empty filtered input: the scanned records in ascending order are cut by start indices, beginning with 0, into groups; each group holds exactly the records with the key of its start, keys ascend strictly, a record starts a group exactly when no earlier one has its key; the answer has one row per group in that order, computed from the fold over exactly that group, with the key of the first record of the group or, in the last group, of its last record, which compares as equal. |
| GroupOrder.PlainGroups | crates/liter-codegen/src/lib.rs:617-1053 | Where all fields are NULL, text, blobs or integers up to 2^53 and conversion keeps such integers apart: as many rows as distinct keys, each key smaller than the next at the first value in which they differ, each row computed over exactly the records whose key is the one shown, in the last group too. |
| GroupOrder.PlainAgree | crates/liter-codegen/src/lib.rs:793-815 | On such keys `Ne` and the sort order agree, and keys are equal only if they are the same. |
| GroupOrder.PlainPreorder | crates/liter-vdbe/src/lib.rs:1004-1056 | Records of such fields are totally preordered by the sorter comparison. |
| GroupSort.GroupByAnswer | crates/liter-codegen/src/lib.rs:617-1053 | On non-empty filtered input the answer is the group-by-group answer over the sorted records, from the first one on. |
| GroupSort.AnswerIsGroups | crates/liter-codegen/src/lib.rs:746-985 | The answer of the neighbour-comparing loop is, group by group, the fold of the aggregates over exactly that group's records. |
| GroupSort.GroupIsKeyClass | crates/liter-codegen/src/lib.rs:793-815 | Where `Ne` and the sort order agree, each group of neighbours holds exactly the records with its key, and the next group has a greater key. |
| GroupSort.GroupByNothing | crates/liter-codegen/src/lib.rs:985-1053 | On empty input GROUP BY still emits one row, for no rows and NULL keys. |
| GroupSort.RecordFields | crates/liter-codegen/src/lib.rs:645-675 | The sorter record gives back each key and argument of its row. |
| Codegen.Compiler.CompileGroup | crates/liter-codegen/src/lib.rs:533-1053 | The emitted program is the specified one, all jumps patched. |
| Statement.ExecuteGroup | crates/liter-codegen/src/lib.rs:533-1053 | Compiling a GROUP BY and stepping the machine returns the answer. |
| DmlMeaning.DeleteRuns | crates/liter-codegen/src/lib.rs:1778-1880 | Compiled DELETE on a single-leaf table halts and leaves exactly the rows that do not match, in order; it fails exactly when a filter fails. |
| Queries.DeleteWhere | crates/liter-codegen/src/lib.rs:1778-1880 | Compiled DELETE with a condition leaves exactly the rows whose values do not meet it, in order. |
| DmlMeaning.UpdateRuns | crates/liter-codegen/src/lib.rs:1882-2055 | Where the leaf has room for all the rewritten cells, as a caller can compute beforehand, compiled UPDATE on a single-leaf table halts, visits each row once, evaluates all assignments against the old row and changes exactly the matching rows, in place. |
| Queries.UpdateWhere | crates/liter-codegen/src/lib.rs:1882-2055 | Compiled UPDATE with a condition stores, in each row whose values meet it, the record with the assigned columns replaced by the values computed from the old row, and leaves the other rows as they are. |
| Vdbe.RowidKeys | crates/liter-vdbe/src/lib.rs:649-665 | A rowid is stored as the key congruent to it modulo 2^64 and read back. |
| Codegen.Compiler.CompileDelete | crates/liter-codegen/src/lib.rs:1778-1880 | The emitted DELETE is the specified program. |
| Codegen.Compiler.CompileUpdate | crates/liter-codegen/src/lib.rs:1882-2055 | The emitted UPDATE is the specified program. |
| Codegen.Compiler.CompileAssignments | crates/liter-codegen/src/lib.rs:1940-1961 | Each assignment is compiled into its column's register; an unknown column is refused. |
| Interpreter.Interpreter.ExecuteSorter | crates/liter-vdbe/src/lib.rs:973-1087 | The sorter operations. |
| Interpreter.Interpreter.Step | crates/liter-vdbe/src/lib.rs:410-1232 | A step runs to the next result row, the end or a failure, exactly as the machine function does; a halted machine stays done. |
| Interpreter.Interpreter.Reset | crates/liter-vdbe/src/lib.rs:1235-1245 | After a reset the program starts again and aggregate registers are NULL. |
| Vdbe.RunStopped | crates/liter-vdbe/src/lib.rs:410-424 | A run that has stopped gives the same result with more fuel. |

## Left out

- Interior cells, cursors and splits work on decoded pages; `PageBytes` proves the byte form of insertion, page rewriting and reading, but child pointers are overwritten on decoded pages only.
- Index B-trees, the unused `insert_interior_divider`, `move_page`; the byte form of the first divider of a split root (`insert_cell_raw`); 32-bit limits on page numbers in the decoded B-tree.
- BTreeInsert.TableCursor.Insert: requires a fresh key, because the code does not reject duplicates; of an insert that reports PageFull it does not say what the leaf is left with; a tree deeper than the cursor stack is Corrupt here, where pushing on the full stack panics.
- BTreeInsert.TableCursor.InsertRun: stops at the first row that is not safe; the overflow pages that long rows allocate are those of `Overflow`.
- BTreeInsert.TableCursor.InsertCellIntoPage: the page is a decoded one; the byte form is `PageBytes.InsertCell`.
- Deleting in trees of more than one leaf: the cursor becomes invalid at the end of a leaf, and an emptied leaf stays behind its divider.
- Overflow.OverflowStore.WriteOverflowChain: the pager is a map of pages here; that page numbers stay below 2^32 is required.
- Hot-journal recovery on open is not implemented by the original.
- Random salts and nonces, and the bytes found in an existing log file, are parameters; partial pages at the end of the main file, file descriptors, locks and syncs are not modelled; file writes are whole.
- Pager.Pager.Transaction: whole-page writes; no commit in between. Hidden assumption of the code made explicit: savepoint operations and writes do not happen between the commit phases.
- WalRecovery.PrefixRecovery: states the view right after reopening; `Wal.CommitAfterTail` says what the next commit does with an uncommitted tail. The log it cuts is one written by `Wal.AppendFrames`, commit after commit; that a pager run writes such a log is `PagerModel.LogCommit`, commit by commit.
- Pager.Pager.Commit: in log mode it is for a log without an uncommitted tail.
- ORDER BY and LIMIT: their registers and the sorter are set up inside the row loop, so the expected meaning does not hold of the emitted code.
- HAVING, aggregates without GROUP BY, joins, INSERT statements, CREATE, and SELECT without FROM.
- ExprMeaning.ExprRuns: floating-point values are eight opaque bytes; conversions, float arithmetic and the function dispatcher are uninterpreted parameters. Integer literals are cut to 32 bits as in the code; integer arithmetic wraps around, as in a release build, and a quotient that does not fit counts as a failure.
- Registers are NULL when a GROUP BY starts, as after loading a program, and 0 and 1 convert to different floating-point numbers.
- GroupSort.GroupIsKeyClass: needs keys on which `Ne` and the sort order agree and the order is transitive, as `GroupOrder.PlainAgree` provides; large integers that convert to the same floating-point number, say, do not qualify.
- Condition.PassesIs: columns, constants and arithmetic without function calls; values are NULL, integers up to 2^53 where they are compared, text and blobs; text is valid UTF-8. The evaluator behind it is more general.
- GroupQueries.GroupWhere: output columns are keys and aggregates; keys and arguments are columns, without floating-point numbers in the rows that meet the condition; the order of rows within a group, which only floating-point sums show, is left open.
- GroupQueries.SumShows: sums that leave 64 bits or have other operands go on in floating point, which is uninterpreted; so does AVG.
- Queries.DeleteWhere: the program is the specified one; that the compiler emits it is `Codegen.Compiler.CompileDelete`.
- Queries.UpdateWhere: as `DmlMeaning.UpdateRuns`; assigned values must have a meaning and fit a record.
- GroupScan.GroupRuns: an empty list of grouping expressions is admitted; the original compiles such queries elsewhere.
- SelectMeaning.SelectRuns: tables are sequences of rows under the cursor; the cursor's own correctness is `TableScan`.
- DmlMeaning.DeleteRuns: single-leaf tables, on which the cursor after a deletion stands on the next row.
- DmlMeaning.UpdateRuns: single-leaf tables with ascending rowids; the machine's free bytes per table are those of `LeafTable`, and an insertion that would split the leaf ends the model as a failure.
- Writing to a table of more than one leaf by way of the virtual machine.
- Statement.Execute: the interpreter's inner loop has a fuel parameter; the contract says how much is enough.
- Interpreter.Interpreter.Reset: registers that hold finished aggregate values keep them, as in the code.
- GroupSort.SortOk: the library's stable sort is modelled by insertion; the comparison has to be a total preorder on the records, which not-a-number values can break.
- Parser: tokens are given (the tokenizer is a generated library); unary operators, IS NULL and statements are parsed elsewhere or not at all; error messages are reduced to the offending token.
- Error texts throughout, virtual file systems, shell, foreign-function interface, JSON, dates, full-text search, sessions, optimizer.
