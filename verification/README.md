# Proofs about mysql-backup

mysql-backup dumps MySQL databases to text, encrypts and stores the dumps, restores
them, prunes old ones and does all this on a timer. This project models the parts in
which state, arithmetic or concurrency make that hard, and proves what they promise
for all inputs, all cuts of a stream, all interleavings and all points of failure.

Text is modelled byte by byte: a `string` holds one character per byte, so lengths are
the lengths the Go code takes, and Unicode white space is the one, two or three bytes
it has in UTF-8. An object whose methods update its fields is a class, with its total
input kept in a ghost field; loops are loops. Database results, the server's refusals,
block ciphers, key derivation, storage failures and the clock are parameters.

## Parts

| module | about |
|---|---|
| `Numerals`, `Sequences`, `Text` | decimal numerals; joining sequences; trimming, suffixes, white space and "ink" (what is not white space) |
| `Cells`, `Packing`, `Table`, `PacketLimit` | printing rows as SQL literals, packing them into INSERT statements, `baseTable.Next` and `Stream`, and when their statements fit the server's limit |
| `SqlReader`, `InsertReader`, `DumpReadsBack` | an independent reader of INSERT statements (sections String Literals, with table 9.1, Numeric Literals and Schema Object Names of the MySQL 8.0 Reference Manual), and reading dumps back |
| `Splitter`, `Expansion`, `Renaming`, `AnyCase`, `Restoring` | the statement splitter of `Restore` as a fold over lines, the replacement templates of Go's regexp package, the regular expressions, keywords in any case, and the loops over lines and readers |
| `Layout`, `Routines`, `StatementLines`, `Sections`, `DataSection`, `CompactHeader`, `CompactTable`, `FullDump`, `Conservation` | dump and restore together: layouts undone, table data and whole dumps executed as they were printed, when renaming is consistent, text conserved |
| `Cbc`, `CbcWriters`, `Aes256Cbc`, `Pbkdf2` | one-shot CBC (section 6.2 of NIST SP 800-38A) with PKCS#7 padding (section 6.3 of RFC 5652), and the streaming writers proved against it |
| `ParallelDump` | `database.Dump` as interleaved steps |
| `BackupNames`, `Retention`, `Pruning`, `PruneRun` | file names and dates, retention strings, laws of retention, prune runs under failure |
| `Schedule`, `TimerRuns` | delays, and the tick protocol as interleaved steps |

The main results: `DumpReadsBack.StreamReadsBack`, `StreamFillsColumns` and
`StreamIsOptimal`, `DataSection.RestoreExecutesStream` and `RestoreFillsColumns`,
`FullDump.FileRestored`, `Layout.SplitUndoesLayout`, `Routines.RoutineRestored`,
`Renaming.RenamedExactlyWhenLiteral` with `CompactHeader.RenamingIsConsistent`,
`Conservation.SplitConservesText`, `Restoring.Restore` with `RestoreOne`,
`Aes256Cbc.EncryptAll`, `DecryptAll` and `ThereAndBack`,
`ParallelDump.EveryRunIsSafe`, `BoundIsReached`, `EveryRunReturns` and `StepDecreases`,
`PruneRun.PruneTarget`, `PruneByWeeks` and `PruneByCount` with
`Pruning.CountTwiceAsOnce` and `TimePrunedTwice`,
`TimerRuns.EveryRunIsSafe`, `AlwaysOneMore` and `OnceExactlyWhenReady`,
`Schedule.BeginAtClock`.

Where the code falls short of what it seems to promise, the code is modelled as it is,
and the exact condition is proved:

- An empty blob prints as NULL, and a float that is no number as a word, so a cell of a
  known type reads back exactly when it is faithful
  (`DumpReadsBack.ReadsBackExactlyWhenFaithful`).
- A connection lost while rows are read looks like the end of the table, and nothing
  reads the error that a failed Scan leaves: a table is dumped whole if and only if no
  fetch fails (`DumpReadsBack.StreamReadsBack`), and one cut short without any error is
  given (`DumpReadsBack.TruncatedDump`).
- `Next` crashes exactly for a table without columns, whose cursor `Start` does not open
  (`Table.BaseTable.Next`).
- A statement can exceed the packet limit by one byte, as the size test leaves out
  the comma and the semicolon uses the spare byte: exactly when rows and commas fill
  the limit (`Packing.StatementSize`). So all statements stay within a server's limit
  if and only if the limit given is at least one byte below it
  (`PacketLimit.LimitExact`).
- The template of a compact table puts no line feed between INSERT statements, so
  restore sends them to the server as one: they are executed as streamed if and only
  if there is at most one (`CompactTable.CompactExecutesStream`).
- A blank line inside a routine is dropped by the splitter, and a carriage return at
  the end of a line too: a routine comes through unchanged if and only if it has no
  such line and no DELIMITER line, and no white space at its ends
  (`Routines.RoutineRestored`); a blank line lost inside a string literal is given
  (`Routines.BlankLineLost`).
- A new database name goes into a replacement template, where `$` can start an
  expansion: a statement gets the name if and only if none does
  (`Renaming.RenamedExactlyWhenLiteral`, for statements without `$`; with one, an
  expansion can happen to give the right text, as `CompactHeader.DollarCoincidence`
  shows). A name that ends in `$` breaks the statement
  (`CompactHeader.DollarNameBreaks`).
- Comments in front of a statement stop it from being renamed. In a full dump they
  stand before CREATE DATABASE but not before USE: under a map from A to B, restore
  creates A and uses B (`FullDump.FullHeaderRestored`).
- An IV that is neither empty nor a block long crashes the encrypter, after it is
  written out if it is to be prepended (`Aes256Cbc.AES256CBC.Encrypt`), and a
  negative parallelism crashes the dump (`ParallelDump.Dump`).
- With Once the command runs exactly once if and only if the consumer is waiting when
  the single tick is sent; a run in which it is lost is given
  (`TimerRuns.OnceCanBeLost`).
- A retention in hours, or a begin delay in minutes, is exact if and only if the
  product fits 64 bits (`Retention.HoursRead`, `Schedule.BeginInMinutes`).

## Model

| member | source | states |
|---|---|---|
| Cells.RowBuffer | pkg/database/mysql/table.go:207-305 | the buffer loop prints the row: every cell by its kind, in order, separated by commas, in parentheses |
| Cells.PrintOneLine | pkg/database/mysql/sanitize.go:12-24 | a printed cell holds a raw CR or LF exactly when text that fmt wrote unescaped does; sanitize leaves none |
| Cells.PrintCellsOneLine | pkg/database/mysql/table.go:207-305 | a row whose unescaped texts have no line break prints on one line |
| SqlReader.ReadSanitized | pkg/database/mysql/sanitize.go:10-27 | the reference literal reader undoes sanitize for every byte string and stops at the closing quote |
| Numerals.DigitsAppend | pkg/database/mysql/table.go:232-251 | numbers are printed in the decimal system |
| SqlReader.ReadDecimal | pkg/database/mysql/table.go:232-251 | every printed integer, of either sign, reads back as itself |
| SqlReader.ReadFraction | pkg/database/mysql/table.go:252-255 | a float as fmt writes finite ones reads back as the number written, and not as text |
| SqlReader.ReadPrint | pkg/database/mysql/table.go:227-300 | every faithful cell reads back as its meaning, leaving exactly what follows it |
| SqlReader.ReadPrintRow | pkg/database/mysql/table.go:207-305 | a printed row of faithful cells reads back as its cells, in order |
| DumpReadsBack.ReadsBackExactlyWhenFaithful | pkg/database/mysql/table.go:227-297 | a cell of a known type reads back exactly if it is faithful: an empty blob does not, nor a float that is not written in digits |
| Table.BaseTable.Start | pkg/database/mysql/table.go:151-177 | opens the cursor at the first row; fails when one is open or the query fails; a table without columns opens nothing and is no failure |
| Table.BaseTable.Next | pkg/database/mysql/table.go:179-201 | hands out the rows one by one; false at the end and at a fetch that fails, where the cursor is closed, and at a failed Scan or query, of which alone the error is kept; crashes exactly for a table without columns |
| Table.BaseTable.Stream | pkg/database/mysql/table.go:307-352 | the statements sent are the groups, greedily packed or single, of the rows before the first fetch that fails; afterwards the error is set exactly if it was, or the query or a Scan failed |
| Packing.TestDecidesFits | pkg/database/mysql/table.go:329 | the source's test on buffer and row lengths, which leaves out the comma, decides whether the extended group is within the limit |
| Packing.PackPacks | pkg/database/mysql/table.go:328-345 | the packing keeps every row once and in order, and every group passes the size test |
| Packing.PackIsGreedy | pkg/database/mysql/table.go:328-345 | no group could have taken in the first row of the next |
| Packing.PackOptimal | pkg/database/mysql/table.go:328-345 | no order-preserving grouping under the same size test has fewer groups |
| Packing.StatementSize | pkg/database/mysql/table.go:328-348 | one row: exactly header, row and semicolon; more rows: at most the packet limit plus one, and over the limit exactly when rows and commas fill it |
| Packing.StatementSizeIsTight | pkg/database/mysql/table.go:328-348 | for every header there are rows and a limit for which the packed statement is one byte over the limit |
| PacketLimit.LimitExact | pkg/database/mysql/table.go:328-348 | in extended mode, for a server limit that leaves room for a header and two short rows: every statement stays within it, for all rows that each fit it alone, if and only if the dump limit is at least one byte below |
| DumpReadsBack.ReadPacked | pkg/database/mysql/table.go:335-344 | any packing of the printed rows reads back as the rows, once each and in order |
| DumpReadsBack.RowsReadBack | pkg/database/mysql/table.go:307-352 | in either mode the statements for any faithful rows read back as exactly these rows |
| DumpReadsBack.StreamReadsBack | pkg/database/mysql/table.go:179-201 | the statements sent read back as all rows of the query if and only if no fetch fails, and otherwise as those before it |
| InsertReader.ReadWhole | pkg/database/mysql/table.go:317-320 | a statement with a quoted table, a list of quoted columns and rows reads as that table, these columns in order and the rows |
| DumpReadsBack.StreamFillsColumns | pkg/database/mysql/table.go:307-352 | for names without backticks, every statement sent inserts into the table and its columns in their order, and all of them together the rows before the first fetch that fails: all rows if and only if none does |
| DumpReadsBack.SkippingSendsSingles | pkg/database/mysql/table.go:314-327 | without extended inserts every statement inserts one row, in order |
| DumpReadsBack.TruncatedDump | pkg/database/mysql/table.go:195-199 | a table whose connection is lost after a row: the rest is missing and no error is kept |
| DumpReadsBack.StreamIsOptimal | pkg/database/mysql/table.go:307-352 | the extended mode sends no more statements than any packing under the same test |
| DumpReadsBack.StreamSizes | pkg/database/mysql/table.go:316-348 | the size of every statement sent, in both modes |
| Renaming.FindMatchExact | pkg/database/restore.go:14-15 | the modelled matcher finds a reading of the expression if there is one, and the one that greedy matching from the left prefers |
| Expansion.LiteralExpands | pkg/database/restore.go:87 | a name in which no `$` starts an expansion, with the reference behind it, expands to itself and what the reference stands for |
| Expansion.NotLiteralShows | pkg/database/restore.go:87 | any other name does not, as long as the groups hold no `$` |
| Renaming.RenameIsLocal | pkg/database/restore.go:83-95 | a statement changes only when its whole text is a USE or CREATE DATABASE form with a mapped name, and then what stands before the name stays and the expanded template follows; it is never both forms |
| Renaming.RenamedExactlyWhenLiteral | pkg/database/restore.go:83-95 | such a statement changes in the name only, to the new name, if no `$` in the new name starts an expansion, and, for a statement without `$`, only then |
| Renaming.OrdinaryUnchanged | pkg/database/restore.go:83-95 | text that starts like neither form is executed as it is, under any map |
| Expansion.ReferenceExpands | pkg/database/restore.go:87 | a name in braces, or the longest name without, stands for its value, and `$$` for a dollar sign |
| Expansion.ValueExactly | pkg/database/restore.go:87 | a number stands for the group of that number, and any other name for nothing |
| AnyCase.UseRecognised | pkg/database/restore.go:14 | a USE in letters of either case and with any white space is read as one |
| AnyCase.UseRenamed | pkg/database/restore.go:90-95 | and renamed, all else staying as it is |
| AnyCase.CreateRecognised | pkg/database/restore.go:15 | so is a CREATE DATABASE without comments |
| AnyCase.DelimiterRecognised | pkg/database/restore.go:48-54 | a DELIMITER line in letters of either case and with any white space is recognised, and its delimiter read |
| AnyCase.LongS | pkg/database/restore.go:14 | the rune U+017F counts as an s in USE, as regular expressions without case have it |
| AnyCase.DotlessI | pkg/database/restore.go:48 | the rune U+0131 counts as an I in DELIMITER, as strings.ToUpper has it |
| AnyCase.BareDelimiter | pkg/database/restore.go:48-62 | without a delimiter on it, such a line ends what was pending and changes no delimiter |
| Text.SpaceIsUnicode | pkg/database/restore.go:78 | what trimming takes for white space at the start of a text is the UTF-8 of a rune of white space, and all of those are |
| Restoring.LineReader.ReadString | pkg/database/restore.go:35 | a line up to and including its line feed, or what is left together with the condition that ended it |
| Restoring.AddLine | pkg/database/restore.go:48-76 | the first half of the loop body is one step of the splitter: a line adds to the text or completes it, and a DELIMITER line sets the delimiter |
| Restoring.TodoNext | pkg/database/restore.go:34-106 | reading a line takes exactly the statement it completes off what is still to be executed; white space completes nothing |
| Restoring.RestoreOne | pkg/database/restore.go:29-113 | the loop over one reader ends; it succeeds exactly when the reader can be read and every statement is accepted, and then it has executed the split of the file |
| Restoring.RestoreReader | pkg/database/restore.go:25-117 | one transaction to a reader, committed whole exactly if it can be begun and committed, the reader can be read and no statement is refused, and otherwise not at all |
| Restoring.Restore | pkg/database/restore.go:18-120 | each reader before the first that fails is committed whole in its own transaction, in order; nothing of the failing or later ones is; what was committed earlier stays; success means exactly that every reader could be restored, a failing begin or commit included |
| Restoring.DoneAt | pkg/database/restore.go:25-117 | each of the transactions done is one whole reader, and could be begun, executed and committed under its number |
| Restoring.AcceptedExactly | pkg/database/restore.go:98-101 | statements are accepted exactly if the server refuses none after those before it |
| Splitter.KindsOfUnlines | pkg/database/restore.go:35-47 | lines read back as they were written, CR and LF stripped; the last may lack its line feed |
| Splitter.FinalLineFeedOptional | pkg/database/restore.go:41-45 | whether a file ends in a line feed makes no difference to what is executed |
| Splitter.SectionsApart | pkg/database/restore.go:34-113 | sections that leave nothing pending are executed one after the other as if each were a file |
| Layout.SplitUndoesLayout | pkg/database/restore.go:48-113 | for any mix of blank lines, comments, statements and DELIMITER bodies each item is executed trimmed, with pending comments in front and the custom delimiter cut off, and what is pending at the end is executed last |
| Layout.RunItem | pkg/database/restore.go:48-106 | the same for one item from any pending text: what it executes and what it leaves pending |
| Layout.CutDelimiter | pkg/database/restore.go:55-59 | leaving a scope removes the custom delimiter and the white space in front of it, and nothing else |
| Layout.DelimiterLine | pkg/database/restore.go:48-62 | a printed DELIMITER line is recognised, and its delimiter read, for every delimiter that is one field |
| Routines.RoutineRestored | pkg/database/mysql/dump.go:505-507 | a routine's CREATE text comes back as one unchanged statement, whatever semicolons it holds, if and only if no line is blank, ends in a carriage return or is a DELIMITER line, and the text is trimmed and not empty |
| Routines.RoutineRenamed | pkg/database/mysql/dump.go:505-507 | under any map what comes back is that text, renamed as a whole |
| Routines.BlankLineDropped | pkg/database/restore.go:42-47 | a blank line between the first line and the last is lost |
| Routines.BlankLineLost | pkg/database/restore.go:42-47 | a routine with a blank line in a string literal comes back as another routine |
| Sections.RunSection | pkg/database/restore.go:48-106 | what comments, statements of one line, statements over several lines and DELIMITER scopes execute, with pending comments in front, and what they leave pending |
| Sections.SplitSections | pkg/database/restore.go:34-113 | a file of such sections is executed section by section, comments with the statement behind them, the rest last |
| Sections.OneLinersUnchanged | pkg/database/restore.go:83-95 | statements of one line that start like neither form are executed as they are, under any map |
| DataSection.SectionSplits | pkg/database/mysql/table.go:412-422 | the data section of the template splits into its statements, and nothing stays pending |
| DataSection.RestoreExecutesStream | pkg/database/mysql/table.go:412-422 | restoring a table's data section executes exactly the statements Stream emitted, one Exec each, under any database map |
| DataSection.RestoreGivesBackRows | pkg/database/mysql/table.go:412-422 | read by the reference reader, what restore executes is all rows of the query if and only if no fetch failed |
| DataSection.RestoreFillsColumns | pkg/database/mysql/table.go:412-422 | read as whole statements, what restore executes goes into the table and its columns, all rows if and only if no fetch failed |
| DataSection.DataLinesExactly | pkg/database/mysql/table.go:411-423 | the lines of the data section, one by one |
| CompactTable.CompactRestored | pkg/database/mysql/table.go:425-431 | of a compact table the definition is executed, and then all INSERT statements as one |
| CompactTable.CompactExecutesStream | pkg/database/mysql/table.go:425-431 | what Stream sent is executed statement by statement if and only if it sent at most one |
| FullDump.FullHeaderRestored | pkg/database/mysql/dump.go:83-108 | under a map from A to B the header of a full dump creates A and uses B |
| FullDump.DoesJoin | pkg/database/restore.go:34-113 | parts of a dump with known statements, put together, execute the statements of the one and then of the other, pending comments with the first |
| FullDump.DoesBlock | pkg/database/mysql/dump.go:491-515 | the block of a routine, with its DROP, or of a trigger (pkg/database/mysql/dump.go:446-462): its SET lines and its text, each executed once and whole |
| FullDump.DoesStructure | pkg/database/mysql/table.go:401-410 | the structure of a table, or of a view (pkg/database/mysql/view.go:143-155): its statements of one line and its definition |
| FullDump.DoesView | pkg/database/mysql/view.go:157-181 | the final view: under any map its USE keeps the name in the dump, as it has comments in front |
| FullDump.FileRestored | pkg/database/mysql/dump.go:136-264 | a whole full dump, tables with data and triggers, temporary views, routines, views and footer in the order of Data.Dump, executes the statements it was printed from, in order, each once and whole, under any map; only the USE of the header can be renamed |
| CompactHeader.OneReading | pkg/database/restore.go:14-15 | with only the two backticks of the form there is one way to read it |
| CompactHeader.CommentExactly | pkg/database/restore.go:15 | a comment is one exactly if it has no line feed |
| CompactHeader.RenameUse | pkg/database/restore.go:90-95 | a USE statement is renamed to its mapped name if no `$` in it starts an expansion, and, for an old name without `$`, only then |
| CompactHeader.RenameCreate | pkg/database/restore.go:84-89 | the printed CREATE DATABASE is renamed to its mapped name, its comments kept, if no `$` in it starts an expansion |
| CompactHeader.CreateSpelled | pkg/database/mysql/dump.go:105-106 | the CREATE DATABASE of the template, letter by letter |
| CompactHeader.RenamedTogether | pkg/database/restore.go:83-95 | one condition decides CREATE DATABASE and USE together, although the templates differ |
| CompactHeader.RenamingIsConsistent | pkg/database/mysql/dump.go:105-108 | the compact header and the USE line of a compact view (pkg/database/mysql/view.go:191-192) printed for A under a map from A to B execute as those printed for B without a map, if no `$` in B starts an expansion, and, for an A without `$`, only then |
| CompactHeader.DollarNameBreaks | pkg/database/restore.go:90-95 | a map from a to `db$` leaves a USE without its backtick and semicolon |
| CompactHeader.DollarCoincidence | pkg/database/restore.go:90-95 | an old name with `$` can make an expansion in the new name come out right |
| Conservation.ConserveLine | pkg/database/restore.go:48-99 | one line conserves text: what it completes, what is cut off and what stays pending make up what was there |
| Conservation.SplitConservesText | pkg/database/restore.go:34-113 | with an empty map, the characters executed, with the cuts put back in place, are those of the non-DELIMITER lines in order, white space aside |
| Conservation.OneCutPerReturn | pkg/database/restore.go:55-59 | at most one custom delimiter is cut off for each return to the semicolon |
| Conservation.NoReturnsNothingLost | pkg/database/restore.go:34-113 | a dump without such returns is executed to the last character |
| Cbc.DecryptInvertsEncrypt | pkg/encrypt/aes256cbc.go:149-196 | one-shot CBC decryption undoes encryption, for every cipher whose block decryption does |
| Cbc.EncryptedBlock | pkg/encrypt/aes256cbc.go:49-56 | every block of ciphertext is the encryption of the plaintext block xored with the ciphertext block before it, the first with the IV |
| Cbc.EncryptAppend | pkg/encrypt/aes256cbc.go:49-56 | encrypting in two calls that share the chaining value is encrypting once |
| Cbc.DecryptAppend | pkg/encrypt/aes256cbc.go:102-111 | decrypting in two calls that share the chaining value is decrypting once |
| Cbc.PadIsPadded | pkg/encrypt/aes256cbc.go:67-70 | padded text is whole blocks, ends as PKCS#7 asks, and gives back the text |
| Cbc.PadUnique | pkg/encrypt/aes256cbc.go:128-138 | a valid padding determines the text it pads |
| CbcWriters.EncryptWriter.Write | pkg/encrypt/aes256cbc.go:38-59 | after any writes the output is the CBC image of the longest whole-block prefix, the rest is buffered, and all bytes are counted |
| CbcWriters.EncryptWriter.Close | pkg/encrypt/aes256cbc.go:61-79 | the output becomes the CBC image of the padded input; a second Close changes nothing |
| CbcWriters.FillBlock | pkg/encrypt/aes256cbc.go:49-56 | completing a block extends the output by its ciphertext and empties the buffer |
| CbcWriters.FillPadding | pkg/encrypt/aes256cbc.go:67-74 | padding the buffered tail completes the one-shot ciphertext |
| CbcWriters.PlainStep | pkg/encrypt/aes256cbc.go:102-111 | decrypting one more block extends the plaintext by that block |
| CbcWriters.UnpadLast | pkg/encrypt/aes256cbc.go:128-138 | only the last block decides how a plaintext unpads |
| CbcWriters.StripPadding | pkg/encrypt/aes256cbc.go:128-139 | the padding check of Close: its verdict and what remains |
| CbcWriters.DecryptWriter.Write | pkg/encrypt/aes256cbc.go:91-114 | the state depends only on the total received: all complete blocks but the one held back are passed on; returns the bytes passed on |
| CbcWriters.DecryptWriter.Close | pkg/encrypt/aes256cbc.go:116-140 | outcome and output are those of decoding the whole stream at once; a second Close changes nothing |
| CbcWriters.HeldBack | pkg/encrypt/aes256cbc.go:122-124 | exactly one block is held back at Close if and only if the stream is at least 32 bytes and a multiple of 16 |
| Aes256Cbc.AES256CBC.Encrypt | pkg/encrypt/aes256cbc.go:166-196 | a key of 32 bytes gives a fresh writer with the chosen IV, written out first if it is to be prepended; another key an error; an IV of another length than 0 or 16 a crash, after it is written out |
| Aes256Cbc.AES256CBC.Decrypt | pkg/encrypt/aes256cbc.go:149-164 | a key of 32 bytes gives a fresh writer; another key an error |
| Aes256Cbc.EncryptAll | pkg/encrypt/aes256cbc.go:38-79 | any chunking, closed twice as the archiver and the dump do (pkg/archive/tar.go:22, pkg/core/dump.go:175): the IV if prepended and the CBC image of the padded whole |
| Aes256Cbc.DecryptAll | pkg/encrypt/aes256cbc.go:91-140 | any chunking of a stream has the outcome and output of the whole stream |
| Aes256Cbc.RoundTrip | pkg/encrypt/aes256cbc.go:149-196 | decoding the IV and the ciphertext of padded data succeeds with the data |
| Aes256Cbc.ThereAndBack | pkg/encrypt/aes256cbc.go:38-140 | writing any chunks through the encrypter, cutting its output anywhere and writing that through the decrypter gives the chunks back |
| Aes256Cbc.AcceptedExactlyWhenPadded | pkg/encrypt/aes256cbc.go:116-140 | Close succeeds exactly on an IV and whole blocks whose plaintext is a PKCS#7 padding; it reports an incomplete block exactly under 32 bytes or off a multiple of 16 |
| Pbkdf2.DecryptReader.Write | pkg/encrypt/pbkdf2aes256cbc.go:86-118 | under any chunking, buffers 16 bytes of salt and then feeds the rest to the decrypt writer of the derived key; returns the bytes taken as salt and those of plaintext passed on |
| Pbkdf2.DecryptReader.Close | pkg/encrypt/pbkdf2aes256cbc.go:120-129 | outcome and output are those of stripping 16 bytes and decoding the rest; without a whole salt there is neither output nor error |
| ParallelDump.StepInv | pkg/database/dump.go:45-83 | every step of the spawner or a worker keeps the invariant of counters, phases, order and errors |
| ParallelDump.NeverPanics | pkg/database/dump.go:52-78 | no send on a closed channel, no negative wait group, no double close |
| ParallelDump.SendNeverBlocks | pkg/database/dump.go:71 | a worker that reports an error finds room in the channel |
| ParallelDump.DeadlockFree | pkg/database/dump.go:48-83 | in every reachable state that has not returned some actor can step |
| ParallelDump.StepDecreases | pkg/database/dump.go:48-83 | every step decreases a measure |
| ParallelDump.EveryRunIsSafe | pkg/database/dump.go:41-83 | in every interleaving, once the semaphore could be made: no crash, at most `parallelism` workers (0 meaning 1) at once, every writer's schemas in order up to its first failure, bounded length |
| ParallelDump.BoundIsReached | pkg/database/dump.go:41-50 | for every call some schedule has that many writers dumping at once, or all if there are fewer |
| ParallelDump.EveryRunReturns | pkg/database/dump.go:77-89 | every run that cannot go on has returned, with exactly one error per failing writer, none if and only if all dumps succeed |
| ParallelDump.Dump | pkg/database/dump.go:41-90 | under any scheduling the call terminates with exactly those errors; a negative parallelism crashes it, and nothing else does |
| BackupNames.SecondsInOrder | pkg/core/prune.go:90-92 | the times of valid dates compare field by field |
| BackupNames.SecondsExact | pkg/core/prune.go:88-92 | the time of a date counts 86400 seconds to a day, and days as the Gregorian calendar does, by a formula that knows no leap years or months |
| BackupNames.DaysFollow | pkg/core/prune.go:88-92 | the day after a valid date is one, and numbered one more |
| BackupNames.BackupRecognised | pkg/core/prune.go:22 | every name that a dump gives under the default pattern, in any directory, with any zone and with or without safe characters, is recognised with the time in it |
| BackupNames.MatchesExactly | pkg/core/prune.go:22 | a name is taken for a backup exactly if it is spelled `db_backup_`, a date, a time, a zone, a dot and an extension |
| BackupNames.OthersIgnored | pkg/core/prune.go:76-82 | a file whose name starts otherwise is ignored, in any directory |
| BackupNames.SlashesDropped | pkg/core/prune.go:76 | neither the directory in front of a name nor slashes behind it matter |
| BackupNames.ZoneSpelled | pkg/core/dump.go:262 | a zone east of UTC is named with a plus sign, one west with a minus sign |
| BackupNames.NameSpelled | pkg/core/dump.go:262 | a name that a dump gives under the default pattern, letter by letter |
| Retention.HoursRead | pkg/core/prune.go:157-185 | n with h, d, w, m or y keeps n, 24 n, 168 n, 720 n or 8760 n hours, exactly when these are positive and fit an int |
| Retention.HoursWrap | pkg/core/prune.go:176-177 | hours that do not fit wrap around |
| Retention.OthersRefused | pkg/core/prune.go:157-209 | anything but digits and one of the six letters is refused |
| Retention.CountRead | pkg/core/prune.go:189-209 | a count is read as itself exactly when it is positive and fits an int |
| Retention.PolicyPositive | pkg/core/prune.go:44-48 | an accepted retention keeps a positive time or number, according to its letter |
| Pruning.TimePrunedTwice | pkg/core/prune.go:105-117 | two prunes by time leave what one with the later cutoff leaves |
| Pruning.CountPrunedTwice | pkg/core/prune.go:118-135 | keeping c1 and then c2 is a way to keep the smaller |
| Pruning.KeptSince | pkg/core/prune.go:118-135 | as many of the kept files are from a time on as can be |
| Pruning.KeptTimes | pkg/core/prune.go:120-134 | however the unstable sort breaks ties, the same times are kept |
| Pruning.CountTwiceAsOnce | pkg/core/prune.go:118-135 | pruning to c1 and then c2 leaves the same times as pruning once to the smaller |
| PruneRun.SortedNames | pkg/core/prune.go:120-129 | any sorting by time, reversed, lists the names newest first |
| PruneRun.NewestKept | pkg/core/prune.go:130-135 | the names from the count on are candidates; exactly min(count, dated) dated files stay, none older than a candidate, and all others stay |
| PruneRun.ExpiredGone | pkg/core/prune.go:105-117 | the candidates by age are exactly the dated files at least that old |
| PruneRun.WithTimesExact | pkg/core/prune.go:76-102 | exactly the files with a matching name and a valid date are considered |
| PruneRun.Choose | pkg/core/prune.go:104-139 | the candidates are what the policy lets go, once each |
| PruneRun.RemoveAll | pkg/core/prune.go:143-148 | removes the candidates in order up to the first that cannot be removed |
| PruneRun.PruneTarget | pkg/core/prune.go:58-152 | at every point of failure the files removed are a prefix of the candidates and nothing else changes |
| PruneRun.Prune | pkg/core/prune.go:25-55 | bad options change nothing; no target ever loses a file the policy keeps; success prunes every target; failure means that one cannot be read or a file not removed |
| PruneRun.PruneByWeeks | pkg/core/prune.go:25-152 | a prune with nw that succeeds removes exactly the backups dated at least 7 n days before now, and one that fails removes no others |
| PruneRun.PruneByCount | pkg/core/prune.go:25-152 | a prune with nc that succeeds leaves n backups, or all if there are fewer, none older than one removed |
| PruneRun.KeptByAge | pkg/core/prune.go:105-117 | what a policy of hours keeps is all but the backups at least that many times 3600 seconds old |
| Schedule.ClockDelayMinutes | pkg/core/timer.go:131-148 | the wait is a whole number of minutes, to the time on this day or the next |
| Schedule.BeginAtClock | pkg/core/timer.go:131-148 | for a time of day the wait is the least positive number of minutes, at most a day, that ends in that minute |
| Schedule.ClockDelayPositive | pkg/core/timer.go:131-148 | for any two pairs of digits the wait is positive |
| Schedule.BeginInClock | pkg/core/timer.go:131-148 | four digits are read as an hour and a minute |
| Schedule.BeginInMinutes | pkg/core/timer.go:125-130 | a delay in minutes is exact if and only if it fits a duration |
| Schedule.OthersRefused | pkg/core/timer.go:112-150 | anything but a plus sign with digits, or four digits, is refused |
| Schedule.FrequencyDelayExact | pkg/core/timer.go:83-94 | a positive frequency F gives a delay of 1 to F minutes with elapsed plus delay a multiple of F; zero panics; a negative one is not in the future |
| TimerRuns.StepKeepsInv | pkg/core/timer.go:28-105 | every step keeps: runs apart, at most one tick with Once, ticks at least a minute apart with a positive frequency |
| TimerRuns.EveryRunIsSafe | pkg/core/timer.go:65-186 | in every run, command runs never overlap, each has a tick of its own, ticks of a positive frequency are at least a minute apart, a tick during a run is dropped and leaves no trace, and Once gives at most one |
| TimerRuns.EndsOnFailureOnly | pkg/core/timer.go:98-186 | without Once the call returns exactly if a run of the command has failed, and with that error; the channel is never closed |
| TimerRuns.AlwaysOneMore | pkg/core/timer.go:76-186 | without Once, with a cron schedule or a positive frequency, a run that is not done can always go on to one more run of the command |
| TimerRuns.NextTickExact | pkg/core/timer.go:76-103 | after a tick the next comes no sooner than the delay announced, and can come then |
| TimerRuns.ProducerNeverBlocks | pkg/core/timer.go:28-34 | the ticking goroutine can always go on |
| TimerRuns.OnceEnds | pkg/core/timer.go:69-73 | with Once a run can always go on until the call returns, and every step brings that nearer |
| TimerRuns.OnceCanBeLost | pkg/core/timer.go:69-73 | a run with Once in which the command never runs |
| TimerRuns.OnceExactlyWhenReady | pkg/core/timer.go:69-73 | with Once the command runs exactly once if and only if the consumer is waiting at the tick, and otherwise never |

## Left out

- Connections, SMB, S3, SCP, tar, compression, scripts, tracing, command-line flags and configuration: I/O and libraries.
- Block ciphers, PBKDF2, age, S/MIME and ChaCha20-Poly1305 themselves: a cipher is any pair of block functions in which decryption undoes encryption.
- Round trip of the PBKDF2 format: the encrypter writes an 8-byte salt after `Salted__` and derives the IV, the decrypter takes all 16 bytes as salt and the IV from the stream, so only the decrypter's own behaviour is stated.
- Errors of the underlying writer, and writes after Close, in the encryption writers.
- Formatting of floats, dates and unknown types by fmt: such a cell holds the formatted text. Dates are read back as their text.
- `LockTables`, the sorting of tables and views by name, full dumps without the USE statement (`SuppressUseDatabase`), and the default packet limit of 4194304 bytes that replaces 0: the limit is a parameter.
- The wording of the SET lines, comments and definitions in a full dump: `FullDump` takes any lines that are statements of one line, any comments, and any definitions without blank lines of which only the last line ends in a semicolon.
- A `rows.Next()` that fails behind the last row, which loses nothing, is like the end of the rows; so is what `rows.Err()` says after a Scan that succeeded.
- Which bytes of names in a replacement template are Unicode letters or digits beyond ASCII: the set of these characters is a parameter.
- The channel between `Stream` and the template: the statements sent are collected in order.
- The pooled connection that a restored USE and its transaction get.
- Statements executed before a failure inside a transaction that is then rolled back: only what is committed is stated.
- Conservation.SplitConservesText: requires delimiters that do not start in the middle of a UTF-8 sequence, because white space could otherwise be joined across the cut; in valid UTF-8 all delimiters are such.
- Layout.SplitUndoesLayout: bodies with a line that is itself a DELIMITER line, which the splitter takes for one.
- Filename patterns other than the default (pkg/core/dump.go:262): a dump can give names that prune then ignores.
- Zone offsets in backup names are recognised and ignored, as in the code; ages are exact integers, not floats, and do not saturate.
- The sort of the Go library: any sorted permutation is allowed for; an insertion sort stands in for it.
- Overflow when a frequency in minutes is turned into a duration, cron expressions (any delay is allowed) and the two readings of the clock between which a frequency delay counts.
