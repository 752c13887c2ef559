# Verification of the SQL engine

A Dafny model of a small SQL database: a paged storage engine with B+ tree
indexes and a write-ahead log, an in-memory 2-3 B+ tree with linked leaves and
the multimap on it, the compiler and evaluator of WHERE conditions, and the
scanner and parser of commands.

Code that changes state is a class or a method with loops (page vector, reader,
tree nodes, store, parser); each such method is proved against a specification
over values, and the promises are lemmas about that specification.

## How the pieces fit

**Storage.** `ImageDenotes(image, t)` says that the bytes are a database image
of the table `t`: pages in order with correct checksums, a superblock, three
page chains that decode to the fields, the rows and the index roots, one
well-formed tree per field holding exactly the sorted column, and one owner for
every page. `ParseImage` accepts exactly these images. `BuildImage` produces
one, `BuildIncrementalInsert` turns one into the next. Trees on pages are
described by a ghost datatype `Tree`; `Holds` ties it to the pages, `WF` states
sizes, levels and separators, `Apart` page ownership, `Linked` the sibling
links. Separators are exact in this code: every separator is the first entry to
its right.

**What an insert needs beyond a valid image.** The validator accepts images
whose row head page holds fewer than 8 payload bytes or whose index directory
spans two pages; the incremental insert refuses both. `Extendable` is
`ImageDenotes` with these two facts, `BuildImage` and every insert establish
it, and `BuildIncrementalInsert` succeeds if and only if the image is
`Extendable` and the row fits. `CutImages` shows the gap: an empty table whose
row count and directory are cut at any byte is a valid image, and only the
uncut one is `Extendable`.

**Crashes.** `CommitProtocol` is a step system over a database file and a log
file, each with its current bytes, its durable bytes and whether its directory
entry is durable. A crash may follow any step, inside recovery too, and is
either a killed process (all written bytes remain) or a power loss (an
interrupted log write leaves a prefix; unsynced page writes may leave anything
in the pages, of the old or the new size, as long as the generation field of
page zero is zero, old, or as far as the write got new). A kill may also stop
inside the write of a page. `Engine.Store` runs the real statement sequence and
logs every step as a step of that system, so the crash theorems speak of the
code: wherever `insert_row` or `create_from_rows` is stopped, and whatever
crashes of the two kinds of run below follow, the next open shows the image
before or the image after (`AtomicFrom`). For `insert_row` that holds from any
crash state, the replay it may start with included, and for refused rows: once
the next open would show an image, no crash changes that (`Settles`).

In runs with any number of kills, and in runs that mix power losses with kills
outside the exposed stages, the next successful open shows exactly the old or exactly the
new image, the new one once a page may have been written, and a torn log is
refused with the database untouched. In an exposed stage (`Recovery.Exposed`)
a killed process leaves a whole log that was not synced, a log file that was
created or synced and not named, or a database file that was created or synced
and not named. Later calls find the file in place and neither sync that log nor
name the file; a later power loss then ruins the store. `MixedCrashes` has a
run for every exposed stage. `PowerLosses` answers exactly when a power loss is
harmless: if and only if the synced and named part of the two files withstands
it (`HarmlessExactly`), stage by stage in `NeededIn` (`StageByStage`). Harmless
means that the next open, as `UndisturbedOpen` ties it to the code, shows the
old or the new image, or refuses a log that is no record over the old one.
`WithstoodRuns` takes runs of steps, kills anywhere, and power losses wherever
`NeededIn` held when they struck. Along every such run the same equivalence
holds for the next power loss (`HarmlessInRun`), and the next open shows exactly
the old or the new image (`NextOpenInRun`). The invariant of these runs, `Sound`
in `MixedStates`, is wider than `Weak`, since a power loss may take an unnamed
log and an unnamed database together.

**The 2-3 B+ tree.** Nodes are heap objects with two fixed arrays. A ghost
datatype `Shape` follows the pointers; `Planted` ties it to the heap, including
disjoint nodes and the leaf chain, and `WF` gives equal leaf depth, sizes and
exact separator keys. The abstraction reads leaves only, since the copies in
inner nodes may hold stale value lists under the multimap. Every tree that the
operations build is well formed and passes `is_valid`. The converse fails, and
`WellFormedExactly` says by how much: a tree is well formed if and only if it
passes, its leaves are level and not empty, every leaf strictly ascends, and
the last entry left of each separator is below it. Four methods build trees
from real nodes that pass and miss one of these: an item too large below the
first level, equal keys in a leaf, leaves of different depth, an empty leaf.

**WHERE.** Words become tokens, the shunting yard makes them postfix, two
stacks evaluate it. `Condition` is the tree the text stands for, with `and`
above `or` and both to the left. The words of a condition select if and only if
no operand is itself a reserved word and every field is known; they then select
exactly the rows that meet it, and otherwise they are refused
(`WhereMeansCondition`). So `f = and` is never misread in silence: each
comparison takes two operands from the string stack, the yard drops none, and a
reserved operand is one too few (`OnlyBalancedSelects`, for any words at all).
The error flag is set if and only if the parens do not balance, for every token
list.

**Projection.** The chosen columns are put in table order and the cells of the
selected rows go to one flat list, each column once a row. The printing cuts
that list by the length of the header. So a field chosen twice shifts the rows:
the printed table is the chosen columns of the selected rows if and only if no
field was chosen twice or nothing was selected (`PrintsRowsExactly`); one row
and one column chosen twice are enough to fail (`TwiceChosen`).

**Commands.** Success marks of the automaton share column 0 with the `create`
transition. So a `create` after the first word is not an error but leads back
to a start state: `SecondCreateIsAccepted` accepts `create create`, whose tree
has no table name (`SecondCreateHasNoTable`); the dispatch then reads the first
element of an empty list. Every accepted text without a second `create` has
exactly one table name and a list that is not empty (`AcceptedHasTable`).
`SentencesAreAccepted` gives the exact relation: the sentences of the grammar
are the accepted part lists without a second `create`. The grammar does not
balance parens, which only the shunting yard does. The parser drops condition
words equal to `where`; the condition list is complete if and only if there is
none (`ConditionIsKept`), and a condition that lost one is refused
(`DroppedIsRefused`).

**All together.** `CommandAnswers.RunText` is the SQL object's `command` on any
text whose tree, if it has one, has what the dispatch reads: parse, check the
identifiers, open the files, run the statement; `RunCommand` says what it
answers to the text of any command. `EndToEnd.InsertThenSelect` joins the layers: from whatever a crash
left, an `insert` command, a new process and a `select` command give exactly
the rows of the old table and the new row that meet the condition, each once,
with the chosen columns.

## Model

| member | source | states |
|---|---|---|
| Ordering.KeyLessIsStrictTotalOrder | includes/storage/storage_v2.cpp:535-537 | byte strings are compared by a strict total order |
| Ordering.SortEntriesSorts | includes/storage/storage_v2.cpp:436 | sorting a column without repeated entries gives a strictly ordered permutation |
| Ordering.InsertSortedIsSorted | includes/storage/storage_v2.cpp:831-835 | putting a new entry at its lower bound keeps the order and adds exactly that entry |
| Ordering.InsertSortedInMiddle | includes/storage/storage_v2.cpp:878-891 | inserting into the part of a sorted list where the entry belongs is inserting into the whole list |
| Codec.AppendLE | includes/storage/storage_v2.cpp:83-98 | pushing one byte at a time appends the little-endian form |
| Codec.FromLEOfLE | includes/storage/storage_v2.cpp:83-98 | an integer below the capacity of its width is read back unchanged |
| Codec.LEOfFromLE | includes/storage/storage_v2.cpp:113-137 | every byte group is the coding of the integer read from it |
| Codec.EncStringPrefixFree | includes/storage/storage_v2.cpp:100-106 | a coded string of at most 100 bytes can be split off in one way only |
| Codec.Reader.Unsigned | includes/storage/storage_v2.cpp:113-137 | takes the integer in front exactly if its bytes are there, and then leaves the rest; otherwise it does not move |
| Codec.Reader.String | includes/storage/storage_v2.cpp:139-151 | takes exactly a coded string of at most 100 bytes; a failure means there is none in front |
| Crc.ComputeCrc32 | includes/storage/storage_v2.cpp:71-81 | the bitwise loop computes the folded register of the reflected polynomial |
| Crc.Crc32DetectsOneByte | includes/storage/storage_v2.cpp:71-81 | changing any one byte of any data changes the checksum, because each step is injective |
| PageCodec.DecodePage | includes/storage/storage_v2.cpp:230-279 | accepts exactly the encodings of legal pages with the expected identifier and returns the page |
| PageCodec.EncodePageInjective | includes/storage/storage_v2.cpp:196-220 | two legal pages never share an encoding |
| PageCodec.OneByteCorruptionIsDetected | includes/storage/storage_v2.cpp:196-279 | a page with any one byte changed encodes no page under any identifier |
| IndexPages.DecodeLeafContents | includes/storage/storage_v2.cpp:733-748 | accepts exactly the leaf payloads, and returns what they encode |
| IndexPages.DecodeInternalContents | includes/storage/storage_v2.cpp:774-791 | accepts exactly the internal payloads, and returns what they encode |
| IndexPages.EncodeLeafPayload | includes/storage/storage_v2.cpp:750-766 | succeeds exactly for 1 to 65535 entries with keys of at most 100 bytes |
| IndexPages.EncodeInternalPayload | includes/storage/storage_v2.cpp:793-809 | succeeds exactly for legal levels, counts, shape and keys |
| SplitBounds.LeafSplitFits | includes/storage/storage_v2.cpp:843-861 | a leaf over the limit by at most one entry has two non-empty halves by count, each within the limit |
| SplitBounds.NodeSplitFits | includes/storage/storage_v2.cpp:909-943 | an internal page over the limit by at most one branch has two halves of at least two children, each within the limit |
| IndexGrowth.SeparatorsRoute | includes/storage/storage_v2.cpp:878-885 | the upper bound among the separators names the child whose range takes the entry |
| IndexGrowth.GrownSeparators | includes/storage/storage_v2.cpp:886-901 | after the child took the entry, or was split, every separator is again the first entry to its right |
| IndexGrowth.GrownAt | includes/storage/storage_v2.cpp:821-947 | a grown child makes a grown node: entries, leaf order and owned pages of the whole node |
| IndexInsert.PageVector.SplitLeaf | includes/storage/storage_v2.cpp:843-871 | both halves are written, the new leaf stands between its neighbours, and the old right neighbour points back at it |
| IndexInsert.PageVector.InsertIntoLeaf | includes/storage/storage_v2.cpp:829-872 | the leaf case never throws and leaves one or two trees holding the entries with the new one in place |
| IndexInsert.PageVector.StoreInternal | includes/storage/storage_v2.cpp:902-946 | rewrites the page if it fits and otherwise cuts it at half its children, promoting the separator between them; the size and shape errors cannot occur |
| IndexInsert.PageVector.InsertIndexEntry | includes/storage/storage_v2.cpp:821-947 | never throws; the subtree becomes one or two trees of the same level with the entry at its sorted place, exact separators, repaired links, fresh pages at the end, no other page touched, and every changed page dirty |
| IndexRoot.TreeIsWide | includes/storage/storage_v2.cpp:1043-1049 | a tree of level n owns at least 2 to the n pages, so levels stay below the 16-bit limit |
| IndexRoot.RootRaised | includes/storage/storage_v2.cpp:1043-1058 | a split root under a new page is again one index, one level up |
| IndexRoot.InsertIntoIndex | includes/storage/storage_v2.cpp:1028-1059 | one turn of the field loop: the index afterwards holds the sorted insertion, on its old pages and fresh ones |
| BulkLoad.FillLeaf | includes/storage/storage_v2.cpp:322-338 | packs at least one entry into every leaf, at least the minimum into all but the last, within the page size |
| BulkLoad.BuildLeaves | includes/storage/storage_v2.cpp:318-343 | the leaves hold the input in order, on consecutive pages |
| BulkLoad.LinkLeaves | includes/storage/storage_v2.cpp:344-354 | both sibling links follow the leaf order |
| BulkLoad.TakeGroup | includes/storage/storage_v2.cpp:360-372 | every group has at least two children within the page size and never leaves a single child over |
| BulkLoad.BuildLevel | includes/storage/storage_v2.cpp:356-398 | each level at most halves the number of trees and keeps entries, order and ownership |
| BulkLoad.BuildIndex | includes/storage/storage_v2.cpp:312-400 | for every sorted list of legal entries it terminates, never throws, and leaves a well-formed index holding exactly the list on exactly the new pages |
| Validator.ValidateIndexNode | includes/storage/storage_v2.cpp:512-579 | terminates on any pages, accepts exactly if a well-formed tree on unowned pages hangs from the page, and returns its level, entries and leaf order |
| Validator.ValidateChildren | includes/storage/storage_v2.cpp:560-573 | the loop over the children accepts exactly legal children with exact separators in order |
| Chains.ReadChain | includes/storage/storage_v2.cpp:483-502 | accepts exactly the acyclic chains of one page type on unowned pages and returns their joined payloads |
| Chains.ChainGrows | includes/storage/storage_v2.cpp:1011-1017 | hanging an empty page behind the last one extends the chain and leaves the stream as it was |
| Streams.DecodeSuper | includes/storage/storage_v2.cpp:597-613 | accepts exactly the superblock payloads |
| Streams.DecodeSchema | includes/storage/storage_v2.cpp:617-621 | accepts exactly the coded field lists of the announced length |
| Streams.DecodeRows | includes/storage/storage_v2.cpp:628-644 | accepts exactly the coded row lists of the announced count and width |
| Streams.DecodeDirectory | includes/storage/storage_v2.cpp:652-658 | accepts exactly the coded root lists of the announced length |
| Streams.RowBytesInjective | includes/storage/storage_v2.cpp:416-421 | different row lists have different streams |
| IndexCheck.CheckLinks | includes/storage/storage_v2.cpp:671-681 | accepts exactly symmetric sibling links in leaf order |
| IndexCheck.CheckRecords | includes/storage/storage_v2.cpp:682-689 | accepts exactly if every record occurs once with the value of its row |
| IndexCheck.MatchingIsColumnIndex | includes/storage/storage_v2.cpp:660-691 | entries that are ordered and match the rows are the sorted column |
| IndexCheck.CheckIndex | includes/storage/storage_v2.cpp:663-690 | accepts exactly an index that is the sorted column of its field on pages nobody else owns |
| ImageReader.ParsePages | includes/storage/storage_v2.cpp:594-702 | accepts exactly the page vectors that denote a table, with every page owned once |
| ImageCodec.ParseImage | includes/storage/storage_v2.cpp:581-702 | accepts exactly the database images and returns their table |
| ImageCodec.ImageDenotesUnique | includes/storage/storage_v2.cpp:581-702 | an image denotes at most one table |
| TableImage.ColumnIndexSorted | includes/storage/storage_v2.cpp:431-437 | the index of a field is strictly ordered and a permutation of its column |
| TableImage.ColumnIndexGrows | includes/storage/storage_v2.cpp:1027-1042 | the sorted column of one more row is the old one with the new entry at its place |
| ImageBuilder.ValidateSchema | includes/storage/storage_v2.cpp:168-194 | accepts exactly legal schemas with rectangular rows, and reports the first bad row by its kind |
| ImageBuilder.AddChain | includes/storage/storage_v2.cpp:281-310 | cuts a stream into consecutive linked pages whose payloads join to it, and keeps the other pages |
| ImageBuilder.BuildImage | includes/storage/storage_v2.cpp:402-464 | succeeds exactly on valid schemas, with an image that denotes the given fields, rows and generation and can be extended in place |
| TableState.RowsEdited | includes/storage/storage_v2.cpp:989-1018 | an edit of row pages leaves schema, directory and every index as they were |
| TableState.IndexEdited | includes/storage/storage_v2.cpp:1040-1060 | growing one index leaves the chains and the other indexes as they were |
| RowInsert.FindLast | includes/storage/storage_v2.cpp:997-998 | the walk along the links ends at the last page of the chain |
| RowInsert.AppendRow | includes/storage/storage_v2.cpp:999-1018 | the encoded row comes at the end of the row stream, cut across pages where needed, with at most three new pages |
| RowInsert.InsertIntoIndexes | includes/storage/storage_v2.cpp:1023-1062 | all fields' indexes take the new row, and the directory names their new roots |
| IncrementalInsert.EditPages | includes/storage/storage_v2.cpp:976-1068 | on a valid image the edits succeed exactly if the two head pages are ready; the pages then denote the table with the row and the next generation, and the dirty set covers every difference |
| IncrementalInsert.DirtyPagesToBytes | includes/storage/storage_v2.cpp:1069-1071 | a page-level dirty set that covers the difference also covers it byte for byte |
| IncrementalInsert.BuildIncrementalInsert | includes/storage/storage_v2.cpp:955-1072 | succeeds exactly on extendable images and fitting rows, where the final re-parse never fails; gives the table with the row, generation plus one, and a dirty set that covers every changed byte |
| UnreadyImages.CutImages | includes/storage/storage_v2.cpp:704-716 | valid images that an insert refuses: of an empty table with row count and directory cut at any byte, only the uncut one is extendable |
| InsertRuns.RunInserts | includes/storage/storage_v2.cpp:955-1072 | after creation and any list of inserts, valid or not, the image denotes the accepted rows with one generation per accepted row |
| InsertRuns.GrowAndRebuild | includes/storage/storage_v2.cpp:402-464 | parsing the image grown row by row and parsing the image built from all rows at once give the same table |
| PageBuffer.MakeBuffer | includes/storage/page_buffer.cpp:8-25 | accepts exactly whole-page images with dirty pages inside; no dirty page means all pages |
| PageBuffer.ApplyDirtyPages | includes/storage/page_buffer.cpp:44-46 | writing the dirty pages over a resized file gives, page by page, the new image there and the old bytes elsewhere |
| PageBuffer.AllApplied | includes/storage/storage_v2.cpp:1218-1225 | once all dirty pages are written the file is the whole new image |
| PageBuffer.DirtyCompleteIsEnough | includes/storage/storage_v2.cpp:1218-1225 | a dirty set that covers the difference makes the page-selective write equal to a full one |
| Wal.EncodeWal | includes/storage/storage_v2.cpp:1125-1142 | the record of an image and a generation |
| Wal.PrefixRejected | includes/storage/storage_v2.cpp:1149-1165 | every proper prefix of a record fails the length checks alone, a whole record passes them |
| Wal.ParseWal | includes/storage/storage_v2.cpp:1149-1186 | accepts exactly the records of database images of their own generation |
| Wal.WalUnique | includes/storage/storage_v2.cpp:1125-1186 | a record has one image and one generation |
| CrashModel.AnySubsetSurvives | includes/storage/storage_v2.cpp:1215-1226 | the loss model covers every subset of the unsynced page writes, the change of size included |
| CommitProtocol.ImageClaims | includes/storage/storage_v2.cpp:1281-1292 | the generation field of the first page of an image, as recovery reads it, is the generation of the image |
| CommitProtocol.SubsetIsPowerLoss | includes/storage/storage_v2.cpp:1215-1226 | any subset of the unsynced page writes, with any survivor of the log, is a power loss of the model |
| Recovery.StepKeepsWeak | includes/storage/storage_v2.cpp:1188-1296 | every step of commit and recovery keeps the invariant on the current bytes |
| Recovery.StepKeepsSafe | includes/storage/storage_v2.cpp:1188-1296 | every step keeps the invariant on the durable bytes |
| Recovery.KillKeepsWeak | includes/storage/storage_v2.cpp:1095-1109 | a killed process leaves the old image, the new one, a torn log, a whole log or the log of the last commit |
| Recovery.KillKeepsSafe | includes/storage/storage_v2.cpp:1095-1109 | outside the exposed stages it leaves durable what has to be |
| Recovery.PowerLossKeeps | includes/storage/storage_v2.cpp:1207-1237 | so does a power loss with any survivor of the unsynced page writes, in any stage |
| Recovery.NeverStale | includes/storage/storage_v2.cpp:1280-1293 | recovery never takes a log left by a crash for a stale one, even if page zero is torn |
| CrashRuns.RunKeeps | includes/storage/storage_v2.cpp:1188-1296 | the invariants hold along every run with kills anywhere, or with power losses anywhere and kills outside the exposed stages |
| CrashRuns.NextOpenShows | includes/storage/storage_v2.cpp:1239-1296 | after any number of such crashes and recoveries the next open shows exactly the old or exactly the new image, and the new one if any page may have been written |
| CrashRuns.NextOpenFromRest | includes/storage/storage_v2.cpp:1239-1296 | the same for every run from a synced database, or none, and an empty log |
| CrashRuns.RefusalLeavesOld | includes/storage/storage_v2.cpp:1276-1296 | a refusal means a log that fails the length checks and an untouched database |
| CrashRuns.RefusalIsNeverStale | includes/storage/storage_v2.cpp:1276-1296 | only logs that the record parser rejects are refused |
| CrashRuns.SecondRecover | includes/storage/storage_v2.cpp:1276-1296 | after a successful open the next one shows the same image, whatever crashes lie in between |
| CrashRuns.CrashAnywhere | includes/storage/storage_v2.cpp:1188-1296 | a process stopped after any step: whatever follows, the next open shows what was committed in that state or what was in flight |
| CrashRuns.StepKeepsSettled | includes/storage/storage_v2.cpp:1276-1296 | what the next open will show is kept by every step until the store is open |
| CrashRuns.CrashKeepsSettled | includes/storage/storage_v2.cpp:1095-1109 | and by every crash of either kind |
| CrashRuns.SettledShows | includes/storage/storage_v2.cpp:1276-1296 | a process stopped while the next open would show an image: whatever crashes follow, the next open shows that image |
| PowerLosses.UndisturbedOpen | includes/storage/storage_v2.cpp:1276-1296 | an open that runs to its end shows exactly the content `Opens` names, or refuses exactly then with the database as it was |
| PowerLosses.HarmlessExactly | includes/storage/storage_v2.cpp:1188-1296 | in any state every power loss is followed by an open on the old or the new image, or by a refusal over the old one, if and only if the synced and named part of the files withstands it |
| PowerLosses.StageByStage | includes/storage/storage_v2.cpp:1207-1274 | what has to be synced and named in each stage |
| MixedStates.WeakIsSound | includes/storage/storage_v2.cpp:1188-1296 | the invariant of runs with withstood power losses covers every state of the runs above |
| MixedStates.StepKeepsSound | includes/storage/storage_v2.cpp:1188-1296 | every step of commit and recovery keeps it |
| MixedStates.KillKeepsSound | includes/storage/storage_v2.cpp:1095-1109 | so does a killed process, in every stage |
| WithstoodRuns.LossKeepsSound | includes/storage/storage_v2.cpp:1207-1274 | so does a power loss that the files withstand |
| WithstoodRuns.HarmlessInRun | includes/storage/storage_v2.cpp:1188-1296 | along every run of steps, kills anywhere and power losses where the needed part was synced and named: the next power loss is harmless, whatever survives, if and only if the needed part is synced and named |
| WithstoodRuns.NextOpenInRun | includes/storage/storage_v2.cpp:1239-1296 | along every such run the next open shows exactly the old or exactly the new image |
| WithstoodRuns.RefusalInRun | includes/storage/storage_v2.cpp:1276-1296 | and a refusal means a log that is no record over the old image |
| MixedCrashes.UnsyncedLogRuins | includes/storage/storage_v2.cpp:1258-1260 | a kill between the log write and its sync, then a power loss during the replay: neither image |
| MixedCrashes.CreatedLogRuins | includes/storage/storage_v2.cpp:1248-1270 | a kill just after the log file is created: the next commit never names it, and a power loss leaves neither image |
| MixedCrashes.UnnamedLogRuins | includes/storage/storage_v2.cpp:1260-1270 | a kill between the sync of the log and that of its directory, then a power loss during the replay: neither image |
| MixedCrashes.CreatedDataRuins | includes/storage/storage_v2.cpp:1211-1236 | a kill just after the database file is created: recovery acknowledges the commit, and a power loss takes the table away |
| MixedCrashes.UnnamedDataRuins | includes/storage/storage_v2.cpp:1226-1236 | the same for a kill between the sync of the database and that of its directory |
| Engine.Store.WriteRecord | includes/storage/storage_v2.cpp:1247-1270 | opening, writing in pieces and syncing the log are steps of the protocol and leave the database alone |
| Engine.Store.WritePage | includes/storage/storage_v2.cpp:1219-1225 | one dirty page is written in pieces of any size; each is a step of the protocol, and the whole page ends up in the file |
| Engine.Store.ApplyImage | includes/storage/storage_v2.cpp:1207-1237 | sizing, writing the dirty pages and syncing are steps that end with the new image in the file |
| Engine.Store.ClearWal | includes/storage/storage_v2.cpp:1188-1205 | emptying the log completes the commit |
| Engine.Store.CommitImage | includes/storage/storage_v2.cpp:1239-1274 | a commit ends with the image in the file and an empty log, all steps being steps of the protocol with the old image committed and the new one in flight |
| Engine.Store.Recover | includes/storage/storage_v2.cpp:1276-1296 | from any crash state: the old or the new image, or a refusal exactly for a torn log with both files unchanged |
| Engine.Store.OpenTable | includes/storage/storage_v2.cpp:1344-1349 | returns the table of the image that recovery leaves |
| Statements.CommitIsAtomic | includes/storage/storage_v2.cpp:1239-1274 | wherever a process that opens and commits is stopped, the next open shows the image before or the image after |
| Statements.CreateFromRows | includes/storage/storage_v2.cpp:1316-1327 | succeeds exactly on valid input without an existing database or log; a failure changes no file; stopped anywhere, the next open shows no table or the new one |
| Statements.InsertRow | includes/storage/storage_v2.cpp:1351-1355 | from any crash state and for every image the next open would show: succeeds if and only if the image is extendable and the row fits, and then gives the next table; otherwise the image is kept; stopped anywhere, its replay included, the next open shows the image before or the image after |
| ArrayFunctions.InsertItem | includes/map/btree_array_functions.h:97-104 | the used part becomes the old one with the entry put in at the index |
| ArrayFunctions.DeleteItem | includes/map/btree_array_functions.h:124-130 | the used part loses the item at the index, which is returned |
| ArrayFunctions.OrderedInsert | includes/map/btree_array_functions.h:107-114 | the entry goes to the first position whose key is not below it |
| ArrayFunctions.Merge | includes/map/btree_array_functions.h:140-146 | the second used part is appended to the first and emptied, although both counts move in the loop |
| ArrayFunctions.Split | includes/map/btree_array_functions.h:149-158 | the upper half, rounded down, moves to the second array in order |
| ArrayFunctions.FindFirstGe | includes/map/btree_array_functions.h:87-93 | the first position whose key is not below the wanted one |
| BTreeNodes.Node.FixExcess | includes/map/bplustree.h:410-425 | the overfull child is halved; the middle item moves up and, in a leaf, also stays in front of the new leaf, which is linked in |
| BTreeNodes.Node.TransferFromLeft | includes/map/bplustree.h:513-533 | contents of node and both children after the rotation, for leaves and for inner nodes |
| BTreeNodes.Node.TransferFromRight | includes/map/bplustree.h:536-557 | the mirror image |
| BTreeNodes.Node.MergeWithNextSubset | includes/map/bplustree.h:560-577 | the right child is joined to the left one, with the separator between inner nodes, and leaves relink |
| ShapeOrder.RouteSeparates | includes/map/bplustree.h:235-271 | everything left of the chosen child is below the key and everything right of it above |
| ShapeOrder.KidGrew | includes/map/bplustree.h:390-407 | an insertion into the chosen child is one into the whole tree and keeps the separators exact |
| ShapeOrder.SplitKeeps | includes/map/bplustree.h:410-425 | the promoted item lands at the place of the split child, and entries and separators are kept |
| HeapInsert.LooseInsert | includes/map/bplustree.h:390-407 | inserts by key, returns whether it was new, leaves at most one item too many, touches only the tree's own nodes |
| HeapInsert.Insert | includes/map/bplustree.h:373-387 | keeps the tree valid and is set insertion, through splits and root growth; true exactly if the key was new |
| ShapeErase.BorrowLeftMends | includes/map/bplustree.h:513-533 | a rotation repairs the short child and keeps entries and separators |
| ShapeErase.MergeMends | includes/map/bplustree.h:560-577 | a merge repairs the short child and keeps entries and separators |
| HeapErase.FixShortage | includes/map/bplustree.h:492-509 | through every borrow and merge the shortage is gone and at most one separator stays stale, at a known place |
| HeapErase.LooseErase | includes/map/bplustree.h:442-489 | removes by key, replaces the stale separator, returns whether the key was there, leaves at most one item too few |
| HeapErase.Erase | includes/map/bplustree.h:428-439 | keeps the tree valid and removes exactly the key; true exactly if it was present |
| HeapLookup.Contains | includes/map/bplustree.h:253-271 | true exactly for the keys in the leaves |
| HeapLookup.Find | includes/map/bplustree.h:235-251 | an iterator at the leaf entry of the key, or the end |
| HeapLookup.Advance | includes/map/bplustree.h:49-58 | moves from entry p to entry p + 1 along the leaf chain |
| HeapLookup.Size | includes/map/bplustree.h:287-296 | walking from begin to end counts exactly the entries |
| HeapLookup.Collect | includes/map/bplustree.h:323-327 | iterating from begin to end visits exactly the entries in order |
| HeapLookup.LowerBoundOf | includes/map/bplustree.h:303-312 | stands at the first key not below the wanted one |
| HeapLookup.UpperBoundOf | includes/map/bplustree.h:314-321 | stands at the first key above the wanted one |
| HeapValid.IsValid | includes/map/bplustree.h:580-624 | on any tree of nodes, level or not, it tests exactly the local conditions, the slot of an empty leaf included |
| HeapValid.WellFormedLooksValid | includes/map/bplustree.h:580-624 | every well-formed tree passes |
| HeapValid.OrderIsLocal | includes/map/bplustree.h:580-624 | the entries of a tree with exact separators ascend if and only if every leaf ascends and the last entry left of each separator is below it |
| HeapValid.WellFormedExactly | includes/map/bplustree.h:580-624 | a tree is well formed if and only if it passes, its leaves are level and not empty, and it is in order around every leaf and separator |
| HeapValid.PlantDisorder | includes/map/bplustree.h:580-624 | real nodes that pass with an item out of order below the first level |
| HeapValid.PlantEqualKeys | includes/map/bplustree.h:592-595 | a real leaf with two equal keys that passes |
| HeapValid.PlantUneven | includes/map/bplustree.h:580-624 | real nodes that pass with leaves of different depth |
| HeapValid.PlantEmptyLeaf | includes/map/bplustree.h:580-624 | real nodes that pass with an empty leaf |
| HeapCopy.CopyTree | includes/map/bplustree.h:211-233 | the copy has the same entries on fresh nodes, and its leaf chain is linked across subtrees |
| TreeRuns.RunOperations | includes/map/bplustree.h:372-577 | any run of inserts, erases and copies from the empty tree answers as a set does and iterates over exactly that set in order |
| TreeRuns.CopyRoot | includes/map/bplustree.h:183-186 | the copy constructor shares no node with its source and leaves it as it was |
| MultiMap.MMap.Insert | includes/map/mmap.h:86-92 | the value comes at the end of the key's list, or in a new list |
| MultiMap.MMap.At | includes/map/mmap.h:74-77 | the key's list; a missing key is first inserted with none, a present one changes nothing |
| MultiMap.MMap.Erase | includes/map/mmap.h:93 | the key goes with all its values |
| MultiMap.MMap.Copy | includes/map/bplustree.h:183-186 | equal contents on fresh nodes |
| MultiMap.MMap.IsValidTree | includes/map/mmap.h:104 | the check of a multimap that was built by its own operations always succeeds |
| QueryPaths.MatchingIsFilter | includes/storage/storage_v2.cpp:1357-1379 | a row is selected exactly if its own value satisfies the comparison |
| QueryPaths.ScanIndex | includes/storage/storage_v2.cpp:1357-1379 | the scan gives the matching records in index order; an unknown operator fails only if there is an entry |
| QueryPaths.CacheIsIndex | includes/table/table.cpp:155-173 | the cached multimap, read key by key, is the stored index |
| CachedQuery.GetRecordIndices | includes/table/table.h:171-179 | the value lists of exactly the iterator range, in order |
| CachedQuery.SelectCached | includes/table/table.cpp:263-292 | each operator selects the lists of exactly the keys that satisfy it; an unknown one selects nothing |
| Selection.BothStorages | includes/table/table.cpp:238-293 | the same table from record files and from storage gives the identical list for every field, operator and value: the filtered column by value and record |
| RecordLists.MyUnion | includes/table/table.h:59-72 | strictly ascending, with exactly the members of either list |
| RecordLists.MyIntersection | includes/table/table.h:74-83 | exactly the common members, strictly ascending if the inputs repeat nothing |
| RecordLists.StrictIsUnique | includes/table/table.h:59-83 | such a list is determined by its members |
| WhereTokens.AllocateTokens | includes/table/table.h:147-165 | one token object a word |
| WhereTokens.ShuntingYard | includes/shunting_yard/shunting_yard.cpp:4-53 | the loops compute the yard's output, or the error with an empty output |
| WhereTokens.ErrorMeansUnbalanced | includes/shunting_yard/shunting_yard.cpp:22-50 | for every token list the error is set exactly if the parens do not balance |
| WhereTokens.YardReads | includes/shunting_yard/shunting_yard.cpp:8-43 | reading a condition on top of any shielding stack leaves that stack with the condition's pending operators |
| WhereTokens.YieldsPostfix | includes/shunting_yard/shunting_yard.cpp:4-53 | every condition comes out in postfix, `and` above `or`, both left-associative |
| WhereEval.RunsPostfix | includes/table/table.cpp:418-473 | running the postfix form on any two stacks pushes the condition's list, or stops at an unknown field |
| WhereEval.ValueMembers | includes/table/table.cpp:434-465 | a row is in the list exactly if it meets the condition |
| WhereEval.PlainReadsBack | includes/table/table.h:147-165 | the tokens stand for the condition exactly if no operand is a reserved word |
| WhereEval.OnlyBalancedSelects | includes/table/table.cpp:418-473 | for any words: a select succeeds only with two operands for each comparison, and every failure is the same error |
| WhereEval.ReservedIsRefused | includes/table/table.h:147-165 | a condition with a reserved operand, as in `f = and`, is always refused |
| WhereEval.WhereMeansCondition | includes/table/table.cpp:337-361 | the words of a condition select if and only if no operand is reserved and every field is known, and then, without duplicates, exactly the rows that meet it |
| WhereEval.WhereInRange | includes/table/table.cpp:395-399 | whatever the words, only numbers of stored rows are selected |
| WhereEval.UnbalancedIsRefused | includes/table/table.cpp:349-352 | unbalanced parens are refused whatever else the words are |
| Selection.LoadedTable.FromRecordFiles | includes/table/table.cpp:155-173 | the row loop leaves in every cache exactly its column, on disjoint trees |
| Selection.LoadedTable.SelectHelp | includes/table/table.cpp:238-293 | on either storage the filtered column; an unknown field is refused |
| Selection.LoadedTable.Eval | includes/table/table.cpp:418-473 | the loop over the two stacks computes the verdict of the postfix machine, with its three errors |
| Projection.ValidateProjection | includes/table/table.cpp:408-416 | accepts exactly no field, the star alone, or fields of the table |
| Projection.PermutateFields | includes/table/table.h:182-205 | the chosen fields in table order, each as often as it was chosen |
| Projection.PrintsRowsExactly | includes/table/table.cpp:220-235 | the printed table is the chosen columns of the selected rows if and only if no field was chosen twice or nothing was selected |
| Projection.TwiceChosen | includes/table/table.cpp:220-235 | one row, one column chosen twice: a header of two columns over a list of one cell |
| Selection.LoadedTable.Select | includes/table/table.cpp:337-406 | succeeds exactly on selectable fields and words that select; the header in table order, the records the words mean, all of them without words, and their cells; the range error cannot occur |
| Selection.LoadedTable.SelectCondition | includes/table/table.cpp:337-406 | the rows that meet a condition, each once, with the chosen columns, on either storage; refused exactly for an unknown field or a reserved operand |
| StateTables.MarkCells | includes/tokenizer/state_machine_functions.cpp:35-41 | sets exactly the cells of the row named by the characters |
| Lexer.MakeTable | includes/tokenizer/stokenize.cpp:27-43 | the marks build the transition table, digits overwriting letters in the start row |
| Lexer.TokensConcatenate | includes/tokenizer/stokenize.cpp:66-137 | the tokens of any text are non-empty and concatenate back to it |
| Lexer.LongestMatch | includes/tokenizer/stokenize.cpp:66-137 | the token is a word, a number with at most one decimal part, an operator run or a single character of its kind, and no longer prefix is a word, a number or an operator run |
| Lexer.STokenizer.GetToken | includes/tokenizer/stokenize.cpp:66-137 | returns that token and moves behind it; nothing exactly at the end |
| CommandAutomaton.InitCommands | includes/parser/parser.cpp:157-204 | the marks build the automaton, success marks in the column of `create` |
| CommandAutomaton.SentencesAreAccepted | includes/parser/parser.cpp:93-204 | a part list is a sentence of the grammar exactly if it is accepted and has no second `create` |
| CommandAutomaton.SecondCreateIsAccepted | includes/parser/parser.cpp:130-154 | `create create` is accepted and is no sentence |
| CommandTrees.SecondCreateHasNoTable | includes/sql/sql.cpp:50-51 | its tree has an empty list of table names |
| CommandTrees.AcceptedHasTable | includes/parser/parser.cpp:97-154 | every accepted text without a second `create` has exactly one table name and a list of fields or values that is not empty |
| CommandParser.ParsedIsAccepted | includes/parser/parser.cpp:93-154 | a tree is built exactly for the accepted part lists |
| CommandParser.Parser.Tokenize | includes/parser/parser.cpp:208-250 | collects the classified lexemes and the quoted literals, or nothing if one is unknown or a quote stays open |
| CommandParser.Parser.ParseTree | includes/parser/parser.cpp:87-154 | the tree of the command, empty exactly if it is rejected |
| CommandPrinter.ReadInside | includes/parser/parser.cpp:217-226 | whatever tokens a quoted text falls into, they add up to it |
| CommandPrinter.PrintReadsBack | includes/parser/parser.cpp:208-250 | printed lexemes read back unchanged |
| CommandPrinter.ParseCondition | includes/parser/parser.cpp:136-145 | every condition takes the automaton through its words and into the tree |
| CommandPrinter.ParsedList | includes/parser/parser.cpp:93-154 | `create` and `insert` give exactly their table name and list |
| CommandPrinter.ParsedSelect | includes/parser/parser.cpp:93-154 | `select` gives exactly its table, columns and condition words |
| CommandRoundTrip.RoundTrip | includes/parser/parser.cpp:77-154 | printing any command with quoted literals, reading and parsing it gives back its tree |
| CommandRoundTrip.ConditionIsKept | includes/parser/parser.cpp:144 | the condition list is complete exactly if no word is `where` |
| CommandRoundTrip.DroppedIsRefused | includes/parser/parser.cpp:144 | a condition with the operand `where` is always refused |
| CommandRoundTrip.KeptMeans | includes/sql/sql.cpp:60-69 | the words left in the tree select if and only if no operand is a word of the language and every field is known, and then exactly the rows that meet the condition |
| CommandRoundTrip.ParseText | includes/parser/parser.cpp:77-154 | the parser object does so |
| SqlCommands.CreateNamed | includes/sql/sql.cpp:51-56 | succeeds exactly for identifiers, a legal schema and no existing files; otherwise no file changes; stopped anywhere, the next open shows no table or the new one |
| SqlCommands.InsertNamed | includes/sql/sql.cpp:51-59 | for every image the next open would show: opens the files and adds the row if and only if the image is extendable and the row fits, otherwise keeps the image; stopped anywhere, the next open shows the image before or the image after |
| SqlCommands.SelectNamed | includes/sql/sql.cpp:60-69 | for any columns and condition words: exactly the records the words select with the chosen columns in table order, or an error exactly for a bad name, an unknown column or words that are refused; the image is kept, stopped anywhere or not |
| SqlCommands.Dispatch | includes/sql/sql.cpp:50-69 | on any tree with a command, a table name and, for a `select`, a column: the answer and the files of the statement it names; a bad name is refused with the files untouched |
| CommandAnswers.WordsMean | includes/sql/sql.cpp:60-69 | what the words of a condition select is what the condition means: exactly the rows that meet it, each once, or an error exactly for an unknown field or an operand of the language |
| CommandAnswers.AnswerPrints | includes/table/table.cpp:220-235 | the answer of a `select` is printed as the chosen columns of its rows if and only if no column was chosen twice or it has no rows |
| CommandAnswers.RunText | includes/sql/sql.cpp:38-78 | any text: one that is not accepted is refused with the files untouched, the tree of an accepted one is dispatched |
| CommandAnswers.RunCommand | includes/sql/sql.cpp:38-78 | all three statements from the text of any command |
| StoredQueries.QueryIndex | includes/storage/storage_v2.cpp:1357-1379 | for every image the next open would show: the matching records of the field's index, or an error exactly for a missing field or an unknown operator on a table with rows; the image is kept, stopped anywhere or not |
| StoredQueries.SelectReopened | includes/table/table.cpp:238-258 | a comparison that opens the files anew gives what the opened table gives, as long as the files show the image it was opened from |
| EndToEnd.InsertThenSelect | includes/sql/sql.cpp:38-78 | from any crash state: an `insert` command, a new process and a `select` command; the answer is that of the old table with the row |

## Left out

- ImageBuilder.BuildImage: assumes that the pages a table may need stay below the reserved page number, and that generation and row count fit 64 bits; the code's own overflow errors for these are not modelled.
- IncrementalInsert.BuildIncrementalInsert: assumes room for the pages of one more row below the reserved page number.
- Statements.InsertRow: has the same assumption on the image the next open shows; so have SqlCommands.InsertNamed, SqlCommands.Dispatch, CommandAnswers.RunText, CommandAnswers.RunCommand and EndToEnd.InsertThenSelect.
- PageCodec.OneByteCorruptionIsDetected: speaks of one changed byte; nothing is claimed about wider corruption or checksum collisions.
- PageCodec.DecodePage: pages are sequences of 4096 bytes, not a fixed array.
- Ordering.SortEntriesSorts: the library sort, like `std::unique`, `std::set_intersection` and the bound searches, is a specification function, not an implementation.
- Validator.ValidateIndexNode: the minimum and maximum keys the validator also computes are read by nobody and are not part of the model.
- CrashRuns.NextOpenShows: kills in an exposed stage are allowed only without power losses, because together they can break it, see the runs of MixedCrashes.
- Engine.Store.Recover: the two files are an abstract disk; POSIX calls, interrupted system calls and write errors are not modelled.
- HeapErase.Erase: takes the key of the item to erase; node deallocation is not modelled, a dropped node is just no longer reachable.
- WithstoodRuns.HarmlessInRun: ends with the first power loss that strikes where the needed part is not synced and named; nothing is claimed about what a store does that such a loss ruined.
- CrashModel.PagesSurvive: an interrupted page write may leave anything in a page but for the eight generation bytes of page zero, which are written in order.
- Selection.LoadedTable.FromRecordFiles: starts from the rows of the record files; the fixed-width record format and its error cases are not modelled.
- Selection.LoadedTable.SelectHelp: scans the indexes of the table that was opened. The code opens the database anew for each comparison; SelectReopened shows that this gives the same list unless somebody else writes the files in between, which is not modelled.
- Projection.PrintsRowsExactly: speaks of cells and rows; column widths and the stream are not modelled.
- CommandParser.Parser.ParseTree: the tree is a map from keys to lists; that a multimap on a 2-3 tree behaves so is shown for record numbers.
- CommandRoundTrip.RoundTrip: literals contain neither a double quote nor a NUL byte, which the command syntax cannot express.
- CommandAnswers.RunText: one store stands for the files of the named table; file names, error texts and the result kept between commands are not modelled. A text whose tree has no table name, such as `create create`, or no column for a `select`, is left out, because the code then reads element 0 of an empty list.
- Linked-list stack and queue: sequences.
- Migration from the old format, batch files, table printing and inspection output: user interface and file plumbing.
- The file tokenizer, `count`, `print`, `size_list` and the array constructor of the tree: not used by the behaviour above.
