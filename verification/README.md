# A verified model of the Btrieve-over-SQL driver

The repository answers Btrieve calls out of a SQL database. This project models its navigation
engine and the codecs and readers around it in Dafny 4.11, and proves what they are for. To verify it:

    dafny verify dfyconfig.toml

Automatic induction is turned off for every lemma, so each induction is written out.

## What is modelled

- **Tables and backends** (`Relation`, `SqlValues`, `SqlText`, `SqlReading`, `Schema`). A table is a
  finite set of rows with a record number each. A backend is an object that is sent TEXT: it lexes and
  parses the WHERE clause and the ORDER BY list by SQL-92's rules for delimited identifiers and for AND
  over OR, evaluates them, and may break ties as it likes. What a clause means is therefore never assumed.
  Numbers compare by size, false before true (`SqlValues.LiteralOrder`), text by characters
  (`SqlValues.TextLessIff`), and no comparison with NULL holds (`Relation.NullNeverPasses`).
- **Fetched rows** (`Selected`, `StepRecords`). The columns a SELECT asks for, the record number taken from
  the first of them, the record packed from the texts taken for the fields, as Get operations do it and as
  step operations do it, and the key values converted from those texts.
- **The keyset compiler** (`Keyset`, `KeysetMeaning`, `FilterMeaning`). The loops that build key
  searches, continuations, filters and sort lists, in three dialects, and the meaning of what they build.
- **Get and extended Get** (`HandleState`, `GetOps`, `IndexChoice`, `Walks`, `WalkConditions`, `CursorRuns`,
  `Descriptor`, `FilterBytes`, `Batches`, `Reply`, `GetExt`). The handle is a class; each operation is a
  method proved against a relation between old and new cursor; the walk theorems are about runs of those
  relations. `IndexChoice` and `FilterBytes` tell the index a key number means and what a descriptor asks from
  the metadata and the bytes alone; a descriptor that cannot be read is refused
  (`FilterBytes.UnreadableRefused`).
- **Step with read-ahead** (`StepOps`, `StepExt`, `StepRuns`).
- **Records and keys** (`Bytes`, `Decimal`, `TextUtil`, `RecordCodec`, `CodecRoundTrip`, `StringRoundTrips`,
  `FieldTypes`, `KeyBuffer`, `KeyReuse`, `KeyTypes`). `KeyReuse` goes the whole way of a key search, from the
  caller's key buffer to the row and back into the buffer. `FieldTypes` and `KeyTypes` go through the types by
  number: what a field is packed as and read as, byte by byte, also where nothing comes back
  (`FieldTypes.NoNumberBytes`, `FieldTypes.LogicalBytes`, `FieldTypes.NoDateReads`, `FieldTypes.OtherTypesRead`),
  what a key segment is read as (`KeyTypes.OtherKeyReads`, `KeyTypes.NumberKeyReads`,
  `KeyTypes.OtherValuesRead`, `KeyTypes.PieceBytes`) and what is kept of a fetched text (`KeyTypes.KeptValue`,
  `KeyTypes.FirstColumnAsNumber`). What trimming, UTF-8 and a plus sign do is stated beside them
  (`TextUtil.TrimIs`, `TextUtil.Utf8CharReads`, `Decimal.PlusSign`).
- **Update, Update Chunk, Delete, direct access, percentiles** (`Chunks`, `UpdateOps`, `UpdateStores`,
  `DirectOps`, `Percent`).
- **Transactions and sessions** (`Txn`, `Sessions`). The driver's flag, the backend's transaction and the
  handles; runs of reads, steps, writes and transactions of any number of handles, on a table the writes
  change and a connection on which statements can be refused. Operations out of turn are refused by the
  driver itself (`Txn.OutOfTurn`).
- **INT files** (`IntLines`, `IntFiles`, `IntReading`, `IntRoundTrip`, `IntRerender`, `IntLiteral`).
  `IntLiteral` spells the format out: its words, the numbers and options that count
  (`IntLiteral.HeaderNumbers`, `IntLiteral.HeaderOptions`, `IntLiteral.FieldNumbers`, `IntLiteral.FieldOpens`,
  `IntLiteral.FlagBeyond`), and the lines the renderer never writes.
- **.B files** (`BFile`, `BFileRoundTrip`, `BFileWriter`): the reader, and a writer it is proved against; the chain
  of deleted records is told pointer by pointer (`BFileRoundTrip.PointerIs`).
  **Calendar arithmetic** (`Calendar`).

## What turned out not to hold everywhere

Where a property the code is written for fails on some inputs, the code is kept as it is and the exact
condition is proved.

- The record number is taken from the first selected column. Where the record number column is a field but
  not the first one, the number seen is another column's (`Selected.SeenIsRecnumIff`), and on every such
  table, whatever the index, Get First and then Get Next return one row for ever
  (`WalkConditions.RecnumNotFirstRepeats`, and at a literal table `WalkConditions.AutoincSecondRepeats`).
  The walk theorems ask for `RecnumFirst`, alone or inside `CanWalk`: the exact condition for the number to
  be the row's own.
- The key values a handle keeps are converted from text, and are those of the row if and only if these are
  64-bit numbers in integer fields and text in all others (`Selected.KeptIsOwnIff`). The walk theorems ask for
  this of the key columns, inside `RowsOk`; a LOGICAL key column is where it fails.
- Step operations ask for one column more than there are fields and drop the first. Their texts are the
  fields' own if and only if the record number is no field (`Selected.StepTextsOwnIff`); otherwise the
  records handed out are shifted by one field (`StepRecords.AutoincSecondShifts`).
- Only first, last and by-key reads store the index's descending flags. After any run the flags are those of
  the index if and only if such a read happened since the last rollback or the index is ascending
  (`CursorRuns.FlagsRightIff`), and the continuation is right about every row if and only if they agree in
  every segment that can decide (`WalkConditions.ContinuationExactIff`). Where they do not, walks lose rows:
  for every index with a deciding descending segment there are two rows of which a walk on a handle just
  opened returns one and ends (`WalkConditions.DescendingSegmentMisses`; at a literal table
  `WalkConditions.DescendingAMisses`).
- Get First and Get Last sort without the record number, so a walk from them can miss rows that share the
  first key, and misses exactly a stated set (`Walks.WalkFromEndMisses`, at a literal table
  `WalkConditions.EqualKeysMiss`). It misses nothing whatever row is picked if and only if there is only one
  to pick (`Walks.WalkFromEndSafeIff`).
- Key searches ignore directions: Get Greater, Greater-or-Equal, Less and Less-or-Equal follow the index if
  and only if no segment that can decide is descending (`WalkConditions.KeySearchFollowsIndexIff`; at a
  literal table `WalkConditions.DescendingAGreaterMisses`).
- A search key comes through whole if and only if it is zero beyond the length its key number carries; key
  number -1 carries 255, so longer keys are cut there (`KeyReuse.SearchKeyWholeIff`, `KeyReuse.LongKeyIsCut`).
- An index none of whose segments the table knows returns the same row for ever
  (`WalkConditions.RepeatsIffNoSegment`, at a literal table `WalkConditions.MissingFieldRepeats`).
- Reset, Find Percentage and Insert move the physical position and leave the read-ahead queue in place. When
  the next step still is the one from the new position is stated for any such move
  (`StepRuns.MovedUnderQueueIff`), for Reset (`StepRuns.ResetRestartsIff`, and a literal run in
  `StepRuns.ResetSkips`), for Find Percentage (`Percent.StepAfterSeekIff`) and for Insert
  (`StepRuns.StepAfterInsertIff`).
- Columns that are never set (auto-increment, the record number) swallow what Update Chunk writes into
  them (`UpdateOps.StoredIsRecordIff`, at a literal table `UpdateOps.AutoincNotStored`).
- The transaction flag and the backend part when a write ends the transaction, with the connection or
  without it, or a commit or rollback is refused, and at no other step of the machine
  (`Txn.AgreementKeptIff`). End reports success also where a refused statement has doomed the transaction; the
  table then is as at Begin, while the handles keep the positions they got inside (`Sessions.SessionEnds`).
- Rendering an INT file, parsing it and rendering again gives the same text if and only if the table is
  settled; well-formed names and a segment in every index are not enough, the indexes must be in order
  (`IntRerender.RerenderSameIff`, `IntRerender.OutOfOrderChanges`). After one trip a file is settled unless
  its indexes are derived from fields of which some, but not all, are numbered 0
  (`IntRerender.NormalFormSettlesIff`).
- In version 5 .B files the head of the chain of deleted records is read from the bytes that hold the record
  length and the key count (`BFile.ChainStartAliasesLengths`). A slot of a flagged page is read if and only if
  its offset is not on that chain (`BFile.SlotReadIff`), so the slot at the offset made of the two numbers is
  lost (`BFile.AliasedSlotLost`, in a literal file `BFile.FirstSlotLost`).
- In version 5 files records start at byte 4 of a page while byte 5 is taken for the page's flag, so the flag
  is the second byte of the page's first record. A record is read if and only if that byte is at least 0x80
  and its own offset is off the chain (`BFileRoundTrip.Version5RecordReadIff`). A file written from records
  comes back if and only if this holds on every page (`BFileWriter.WriteThenRead5Iff`), and one written from
  ASCII records gives nothing (`BFileWriter.WriteThenReadAscii5`).
- In version 6 files a used slot is read if and only if it has room for the usage count and the record
  (`BFile.UsedSlotReadIff`, in a literal file `BFile.UsedSlotLost`), though files with tighter slots are
  accepted (`BFile.TightSlotsGiveNothing`).
- ZSTRING slots must be zero from the first zero on (`CodecRoundTrip.ZStringRoundTripIff`). STRING slots
  come back if and only if they are ASCII followed by a beginning of the one byte word that starts
  0xC3 0x83 0xC2 0x83 and widens to itself (`StringRoundTrips.StringRoundTripIff`).

The comments in the code say that Find Percentage does not affect currency; the code moves the physical
position, and so does the model.

## Model

| member | source | states |
|---|---|---|
| Walks.FreshWalkVisitsAll | crates/wxbtrv-core/src/ops/get.rs:432-588 | Where the record number is selected first: from a handle without position, Get Next (or Get Previous) until status 9 returns every row of the table exactly once, in strictly increasing (key segments, record number) order |
| Walks.WalkVisitsAhead | crates/wxbtrv-core/src/ops/get.rs:432-588 | Any number of Get Next calls in one direction returns a prefix of the rows ahead in order, and what remains ahead is exactly the rest |
| Walks.WalkEnds | crates/wxbtrv-core/src/ops/get.rs:432-588 | A walk returns 9 exactly when every row ahead at its start has been returned, and never any other failure |
| Walks.ThereAndBack | crates/wxbtrv-core/src/ops/get.rs:432-588 | Get Previous after a successful Get Next (and the other way round) returns to the row left |
| Walks.DeletedRowKeepsNeighbours | crates/wxbtrv-core/src/ops/get.rs:432-588 | After the current row is deleted, Get Next and Get Previous give its old neighbours |
| Walks.WalkFromEndMisses | crates/wxbtrv-core/src/ops/get.rs:296-409 | A walk begun by Get First or Get Last visits every row but those that share the first key and lie on the wrong side of the row the backend happened to pick: exactly the set the missing tie-break loses |
| Walks.WalkFromEndSafeIff | crates/wxbtrv-core/src/ops/get.rs:296-409 | A walk from Get First or Get Last misses nothing, whatever row the backend picks, if and only if there is only one row to pick |
| WalkConditions.EqualKeysMiss | crates/wxbtrv-core/src/ops/get.rs:296-409 | Literally: of two rows A = 1 the backend may give the second for Get First, and Get Next then returns 9 |
| Walks.PassesIsAfter | crates/wxbtrv-core/src/ops/sql_helpers.rs:302-350 | The continuation sent from a cursor selects a row exactly when it is lexicographically after the kept (keys, record number) in the sort list the same call orders by |
| Walks.AheadShrinks | crates/wxbtrv-core/src/ops/get.rs:432-498 | Moving onto the first row ahead leaves exactly the other rows ahead, filtered or not |
| WalkConditions.ContinuationExactIff | crates/wxbtrv-core/src/ops/get.rs:432-498 | From the keys and number of any row, on any index, the continuation is right about every row if and only if the flags kept on the handle are those of the index in every segment that can decide |
| WalkConditions.RepeatsIffNoSegment | crates/wxbtrv-core/src/ops/get_ext.rs:133-145 | Where the record number is selected first, a walk returns the same row twice in succession if and only if the index names no field of the table: the empty key list reads as no position |
| WalkConditions.MissingFieldRepeats | crates/wxbtrv-core/src/ops/get_ext.rs:133-145 | Literally: under an index on a field there is not, the row A = 1 is returned again and again |
| WalkConditions.RecnumNotFirstRepeats | crates/wxbtrv-core/src/state.rs:116-122 | Every table of distinct field names whose integer record number column is a field but not the first has, for every index, a row that Get First and every Get Next return for ever |
| WalkConditions.SameRowForEver | crates/wxbtrv-core/src/ops/sql_helpers.rs:36-62 | So does any one row with typed keys whose number is read too small |
| WalkConditions.AutoincSecondRepeats | crates/wxbtrv-core/src/state.rs:116-122 | Literally: fields F1 INT and F2 AUTOINC, primary index on F2, row F1 = 0, F2 = 1 |
| WalkConditions.DescendingSegmentMisses | crates/wxbtrv-core/src/ops/get.rs:432-498 | For every index with a deciding descending segment, field names being distinct as columns must be and the record number an integer, there are two rows of which a walk on a handle without flags returns one and then 9 |
| WalkConditions.DescendingAMisses | crates/wxbtrv-core/src/ops/get.rs:432-498 | Literally: of A = 1 and A = 2 under a descending index, Get Next on a handle just opened returns A = 2 and then 9 |
| WalkConditions.DescendingAGreaterMisses | crates/wxbtrv-core/src/ops/get.rs:25-120 | There Get Greater from A = 2 finds nothing, although A = 1 comes after it in the index |
| WalkConditions.KeySearchFindsNearest | crates/wxbtrv-core/src/ops/get.rs:25-120 | On an ascending index each of the five key searches, with or without wildcard segments, returns a row that qualifies with no qualifying row nearer, or its not-found status exactly when no row qualifies |
| WalkConditions.KeySearchFollowsIndexIff | crates/wxbtrv-core/src/ops/sql_helpers.rs:256-295 | From the keys of any row, on any index, Get Greater, Greater-or-Equal, Less and Less-or-Equal select the rows on their side in the order of the index if and only if no segment that can decide is descending: the key search takes no direction flags |
| CursorRuns.StepKeepsCursorOk | crates/wxbtrv-core/src/ops/get.rs:86-119 | Every operation leaves as many key values as the index has known segments; the descending flags come only from placing reads and go only with a rollback |
| CursorRuns.RunKeepsCursorOk | crates/wxbtrv-core/src/ops/get.rs:296-588 | After any run over changing tables the cursor carries its index's descending flags exactly when some read placed it since the last rollback, and none otherwise |
| CursorRuns.FlagsRightIff | crates/wxbtrv-core/src/ops/get.rs:432-588 | After any run the flags are right for the index in use if and only if some read placed the cursor since the last rollback or the index is ascending throughout |
| GetOps.GetAdjacent | crates/wxbtrv-core/src/ops/get.rs:432-588 | Get Next and Get Previous return the first row ahead, its record packed from the texts fetched, and move every field of the cursor, key values converted from those texts and the number from the first column, or return 9 and move nothing |
| GetOps.GetEnd | crates/wxbtrv-core/src/ops/get.rs:296-409 | Get First and Get Last return a row with the least (greatest) key, set the cursor with its converted key values and the index's flags, or return 9 unchanged |
| GetOps.GetByKey | crates/wxbtrv-core/src/ops/get.rs:66-120 | A key search for decoded segments returns a minimal matching row and places the cursor on it, or the not-found status with the cursor unchanged; a key made of wildcards only is not found (`KeyReuse.GetByKeyBuffer` is the whole way from the key buffer) |
| IndexChoice.EndByNumber | crates/wxbtrv-core/src/ops/sql_helpers.rs:165-185 | Get First and Get Last with key number k from 0 to 255: status 0, a row none comes before by the segments of the index numbered k + 1, and that index in use afterwards; status 9 when no index is numbered so or the table is empty |
| IndexChoice.EndOfMeant | crates/wxbtrv-core/src/ops/sql_helpers.rs:165-185 | The same for any key number and the index it means: -1 the one in use, 0 to 255 by number, any other by the key length in its low byte, a length no index has meaning the first |
| IndexChoice.EndOfNone | crates/wxbtrv-core/src/ops/sql_helpers.rs:165-185 | A key number that means no index, length 0 among them, gives 9 and changes nothing |
| IndexChoice.SearchByNumber | crates/wxbtrv-core/src/ops/get.rs:51-120 | A key search with key number k from 0 to 255 on an ascending index: the nearest qualifying row of the index numbered k + 1, which is in use afterwards, or not found exactly when no row qualifies |
| IndexChoice.SearchOfMeant | crates/wxbtrv-core/src/ops/sql_helpers.rs:165-185 | A key search with any key number that means an index is a search in that index |
| IndexChoice.SearchOfNone | crates/wxbtrv-core/src/ops/sql_helpers.rs:165-185 | and with one that means none it finds nothing |
| IndexChoice.BufferOfMeant | crates/wxbtrv-core/src/ops/get.rs:51-120 | From buffer to buffer: the segments are decoded, and the key written back, by the index meant |
| GetOps.FetchAdjacent | crates/wxbtrv-core/src/ops/get_ext.rs:103-160 | The text built from position and filter, read by the backend, fetches exactly the first row strictly after the position that passes the filter |
| GetOps.FetchKeysetOne | crates/wxbtrv-core/src/ops/sql_helpers.rs:19-129 | At most one row: a minimal matching one, taken apart into the number in the first column and the record; status 4 when nothing matches, 20 for a table without columns |
| Selected.TakeRow | crates/wxbtrv-core/src/ops/sql_helpers.rs:31-94 | A fetched row is the number in its first column and the record packed from the fields' texts, whether or not the first column is a field |
| Selected.SeenIsRecnumIff | crates/wxbtrv-core/src/ops/sql_helpers.rs:36-62 | The record number seen is every row's own if and only if the record number column is no field or the first |
| Selected.StepTextsOwnIff | crates/wxbtrv-core/src/ops/step.rs:59-77 | Step operations take every row's own texts for its fields if and only if the record number is no field |
| Selected.StepImageIsOwn | crates/wxbtrv-core/src/ops/step.rs:59-77 | Then they pack the same record from a row as Get operations |
| StepRecords.AutoincSecondShifts | crates/wxbtrv-core/src/ops/step_ext.rs:118-128 | At a literal table whose record number is its second field a Get hands out the record and a step one whose second field is 0 |
| GetOps.CombinedSelects | crates/wxbtrv-core/src/ops/get_ext.rs:133-156 | Whatever of continuation and filter is present, the backend selects exactly the rows after the position that pass the filter |
| KeysetMeaning.ContinuationMeaning | crates/wxbtrv-core/src/ops/sql_helpers.rs:302-350 | For any number of segments, any mix of ascending and descending and either direction, the OR-of-ANDs holds of a row exactly when the row is strictly after (keys, record number) lexicographically |
| KeysetMeaning.KeySearchMeaning | crates/wxbtrv-core/src/ops/sql_helpers.rs:256-295 | For =, >, >=, < and <= the key clause is lexicographic comparison of the key tuples |
| KeysetMeaning.ContinuationNumbered | crates/wxbtrv-core/src/ops/sql_helpers.rs:302-350 | Placeholders are numbered consecutively in text order from any starting count; with n segments there are (n+1)(n+2)/2 |
| KeysetMeaning.KeySearchNumbered | crates/wxbtrv-core/src/ops/sql_helpers.rs:256-295 | The same for key searches: n parameters for equality, n(n+1)/2 for an inequality |
| KeysetMeaning.EmptyContinuation | crates/wxbtrv-core/src/ops/sql_helpers.rs:322-326 | Without key columns only the record number is compared |
| Keyset.BuildContinuationWhere | crates/wxbtrv-core/src/ops/sql_helpers.rs:302-350 | The loops produce the text of the clause tree and append its parameters after those already there |
| Keyset.BuildKeyWhere | crates/wxbtrv-core/src/ops/sql_helpers.rs:256-295 | The same for the key search, with `1=1` for no columns |
| Keyset.BuildOrderByCols | crates/wxbtrv-core/src/ops/sql_helpers.rs:230-249 | The sort text lists the segments, each reversed by the direction, then the record number as tie-break or when there is no segment |
| Keyset.BuildFilterWhere | crates/wxbtrv-core/src/ops/sql_helpers.rs:530-558 | The filter text is that of the grouped clause tree, its values appended after those already there |
| Keyset.TriClosedForm | crates/wxbtrv-core/src/ops/sql_helpers.rs:329-347 | The parameter count summed clause by clause is the triangular number |
| FilterMeaning.FilterSays | crates/wxbtrv-core/src/ops/sql_helpers.rs:530-558 | The grouped filter clause means the connector chain read with AND binding tighter than OR, for every list of terms |
| FilterMeaning.FilterNumbered | crates/wxbtrv-core/src/ops/sql_helpers.rs:530-558 | A filter's placeholders continue consecutively from the incoming count, one per term |
| FilterMeaning.BothHolds | crates/wxbtrv-core/src/ops/get_ext.rs:151-156 | `(b) AND (f)` holds exactly when both parts do |
| FilterMeaning.BothText | crates/wxbtrv-core/src/ops/get_ext.rs:151-156 | The text put together by the caller is the text of that conjunction |
| FilterMeaning.BothNumbered | crates/wxbtrv-core/src/ops/get_ext.rs:132-156 | Its placeholders are still numbered in text order |
| FilterMeaning.WalkTextMeaning | crates/wxbtrv-core/src/ops/get_ext.rs:132-157 | The combined text, lexed and parsed by a backend of any dialect, selects exactly the rows after the position that pass the filter |
| FilterMeaning.CombinedReads | crates/wxbtrv-core/src/ops/get_ext.rs:151-156 | All four combinations of start and filter are read back as that combination |
| FilterMeaning.CombinedHolds | crates/wxbtrv-core/src/ops/get_ext.rs:151-156 | and hold exactly of rows past the start that pass the filter |
| SqlReading.CondTextRoundTrip | crates/wxbtrv-core/src/ops/sql_helpers.rs:256-350 | For every column name and dialect the WHERE text is lexed (SQL-92 section 5.2 delimited identifiers) and parsed (section 8.12, AND over OR) back to the condition it was written from, with `?` and `$n` binding the same parameters |
| SqlReading.SortTextRoundTrip | crates/wxbtrv-core/src/ops/sql_helpers.rs:230-249 | The ORDER BY text is read back as the sort list, for every column name and dialect |
| SqlReading.QuotedBodyReads | crates/wxbtrv-core/src/dialect.rs:90-150 | Doubling the closing quote makes every name, also one full of quotes, readable back |
| SqlReading.MarkerReads | crates/wxbtrv-core/src/dialect.rs:103-162 | A placeholder in any dialect is one token that names its parameter |
| Selected.KeptKeysAligned | crates/wxbtrv-core/src/ops/sql_helpers.rs:142-158 | Column references and the key values kept stay aligned segment by segment, also when the index names missing fields, and each value is its own column's text converted for the field |
| Selected.KeptIsOwnIff | crates/wxbtrv-core/src/ops/sql_helpers.rs:203-227 | The key values kept, converted from text, are those of the row in the table if and only if these are 64-bit numbers in integer fields and text in all others |
| Schema.FindIndexIsFirst | crates/wxbtrv-core/src/ops/sql_helpers.rs:165-191 | A number finds the first index that carries it, and nothing exactly when none does |
| Schema.ByKeyLenPicks | crates/wxbtrv-core/src/state.rs:144-153 | A key length finds the first index whose key is that long, else the first of all |
| Schema.FieldPosIsLast | crates/wxbtrv-core/src/ops/sql_helpers.rs:192-199 | A field number finds the last field that carries it, and nothing exactly when none does |
| Schema.PickedAgain | crates/wxbtrv-core/src/ops/sql_helpers.rs:165-185 | Whatever key number picked an index, key number -1 picks an index of that number while it is the one in use |
| Schema.RefsOfKnownSegments | crates/wxbtrv-core/src/ops/sql_helpers.rs:188-200 | The column references are those of the segments that name a field, in order, each with its own direction, however short the list of directions is |
| Relation.AnswerIsPrefix | crates/wxbtrv-core/src/dialect.rs:194-221 | A SELECT that may break ties freely has only one answer when the order decides: the first n matching rows in order |
| Relation.SortedUnique | crates/wxbtrv-core/src/ops/sql_helpers.rs:230-249 | There is only one way to put rows in a strict order |
| Relation.SortedElements | crates/wxbtrv-core/src/ops/sql_helpers.rs:230-249 | Sorting loses and invents no row |
| Relation.Backend.Select | crates/wxbtrv-core/src/dialect.rs:194-221 | A backend reads WHERE, parameters and ORDER BY as text and returns at most n rows in order with no better row left out |
| GetExt.ExtendedRunVisitsAhead | crates/wxbtrv-core/src/ops/get_ext.rs:103-298 | Over a fixed table, for any run of extended calls with any buffers, limits and extracts: the rows returned, put together, followed by what is still ahead, are the filtered rows ahead at the start; no gap, no repeat |
| GetExt.ExtendedRunEnds | crates/wxbtrv-core/src/ops/get_ext.rs:163-298 | After any run a readable call ends the walk (64 with a filter, 9 without) exactly when everything has been returned; it succeeds exactly when it returns a row; 22 leaves the position unchanged |
| GetExt.ReplyIsExact | crates/wxbtrv-core/src/ops/get_ext.rs:226-289 | A successful reply is at most the capacity, stops only at the limit, the end of the rows, or a record that does not fit, and decodes to exactly the projected records returned |
| GetExt.CallIsFitting | crates/wxbtrv-core/src/ops/get_ext.rs:163-298 | One call, refined: fetching one row at a time and keeping it while it fits returns the longest fitting run of the rows ahead |
| GetExt.CallAdvances | crates/wxbtrv-core/src/ops/get_ext.rs:163-298 | A call takes the rows it returns, and no others, off the front of those ahead |
| GetExt.RunExtended | crates/wxbtrv-core/src/ops/get_ext.rs:163-298 | The loop's status, rows, reply and cursor are those of the batch specification; every refusal leaves the cursor alone |
| GetExt.FillBatch | crates/wxbtrv-core/src/ops/get_ext.rs:226-266 | The batch loop takes exactly the rows the specification takes and moves the cursor with each |
| Batches.BatchTakesFitting | crates/wxbtrv-core/src/ops/get_ext.rs:226-266 | Taking items one at a time while they fit, position moving along, yields the longest fitting run of any walk |
| Batches.FittingFits | crates/wxbtrv-core/src/ops/get_ext.rs:232-257 | What is taken fits the capacity, and one more would not or is not wanted |
| Reply.WriteReply | crates/wxbtrv-core/src/ops/get_ext.rs:274-289 | Count and records are written in order |
| Reply.FittingReply | crates/wxbtrv-core/src/ops/get_ext.rs:226-289 | The reply of a fitting run meets every promise made of a reply |
| Descriptor.ParseFilterTerms | crates/wxbtrv-core/src/ops/sql_helpers.rs:470-519 | Parsing term by term, every byte read inside the buffer, gives the resolved terms and the end offset, or nothing for a truncated or unresolvable list |
| Descriptor.TermsRoundTrip | crates/wxbtrv-core/src/ops/sql_helpers.rs:470-519 | Encoded terms are read back as those terms, whatever follows, ending where they end |
| Descriptor.TermsAreEncoded | crates/wxbtrv-core/src/ops/sql_helpers.rs:470-519 | Conversely, whatever is read from a buffer, encoded again, is what stands at the head of the buffer |
| Descriptor.ParseGne | crates/wxbtrv-core/src/ops/get_ext.rs:34-73 | The descriptor parser computes the descriptor reading, header, terms and extracts |
| Descriptor.GneRoundTrip | crates/wxbtrv-core/src/ops/get_ext.rs:34-73 | Encoding any descriptor and parsing it gives its counts, terms and extracts, whatever follows it in the buffer |
| FilterBytes.ParsedAsks | crates/wxbtrv-core/src/ops/sql_helpers.rs:409-519 | What the parsed terms ask of a row is what the bytes of the buffer ask, read directly: count at byte 6, terms from byte 8, codes 0 to 5 for equal, greater, not less, less, not greater, different, connector 2 for OR and any other for AND, the first field at the offset, the value cut or zero-extended to its width |
| FilterBytes.ReadableIff | crates/wxbtrv-core/src/ops/get_ext.rs:34-73 | A descriptor can be read if and only if its terms fit with a known code and a field each, and the record limit and extracts fit behind them |
| FilterBytes.ExtendedReturnsAsked | crates/wxbtrv-core/src/ops/get_ext.rs:163-298 | Every row a successful extended Get returns is one the bytes ask for, and of those ahead it leaves out only such as come after the last one returned |
| FilterBytes.ExtendedEndsIff | crates/wxbtrv-core/src/ops/get_ext.rs:163-298 | Status 9 without terms, 64 with terms, exactly when the bytes ask for no row ahead; otherwise 0 or 22 |
| FilterBytes.StepReturnsAsked | crates/wxbtrv-core/src/ops/step_ext.rs:132-250 | The same of a successful extended step and the rows beyond the position |
| FilterBytes.StepEndsIff | crates/wxbtrv-core/src/ops/step_ext.rs:132-250 | Status 9 exactly when the bytes ask for no row beyond the position; otherwise 0 or 22 |
| FilterBytes.ExtendedReplyLimit | crates/wxbtrv-core/src/ops/get_ext.rs:200-298 | The record limit stands behind the terms and 0 means 65535: the reply holds at most that many, and stops short of it only at the end or where the next record does not fit |
| FilterBytes.StepReplyLimit | crates/wxbtrv-core/src/ops/step_ext.rs:132-250 | For an extended step 0 means 256, and no limit is above 1024 |
| Descriptor.ExtractsRoundTrip | crates/wxbtrv-core/src/ops/get_ext.rs:53-63 | Encoded extracts are read back |
| Descriptor.Project | crates/wxbtrv-core/src/ops/get_ext.rs:77-96 | The projection is the extracts one after another, zero-filled past the end of the record |
| Descriptor.ReplyRoundTrip | crates/wxbtrv-core/src/ops/get_ext.rs:274-289 | A reply decodes back to exactly the record numbers and bytes it was written from |
| StepRuns.ReadAheadIsInvisible | crates/wxbtrv-core/src/ops/step.rs:13-199 | For every chunk size and every run of step and extended step operations on a fixed table: statuses, records, replies and positions equal those of chunk size 1, and the queue stays the next rows in its direction |
| StepRuns.StepReadsAhead | crates/wxbtrv-core/src/ops/step.rs:13-114 | A step that finds nothing read ahead reads the 256 rows beyond the position, or one when the table is not cached, hands out the first and keeps the others |
| StepRuns.OpenedHandleReadAheadIsInvisible | crates/wxbtrv-core/src/ops/step.rs:13-97 | In particular from a handle just opened |
| StepRuns.StepIsUncached | crates/wxbtrv-core/src/ops/step.rs:13-97 | One cached step returns the first row beyond the position, or 9 with the position unchanged, and keeps the queue right through reversal and refill |
| StepRuns.StepsServeAhead | crates/wxbtrv-core/src/ops/step.rs:148-199 | k steps in one direction serve the rows ahead in order and then 9, whatever the chunk size |
| StepRuns.ExtendedStepAdvances | crates/wxbtrv-core/src/ops/step_ext.rs:132-250 | An extended step takes the rows it returns off the front of those ahead; 9 exactly when nothing is ahead; a failure changes nothing |
| StepRuns.ExtendedStepReply | crates/wxbtrv-core/src/ops/step_ext.rs:204-250 | Its reply fits, and decodes to exactly the projected records returned |
| StepRuns.ResetRestartsIff | crates/wxbtrv-core/src/ops/session.rs:75-87 | The first step after Reset starts over if and only if the queue is empty or runs the other way, or nothing lies at or before the position left: Reset does not empty the queue |
| StepRuns.MovedUnderQueueIff | crates/wxbtrv-core/src/ops/step.rs:13-97 | After any operation that moves the position and leaves the queue, the next step is the one from the new position if and only if the queue is empty or runs the other way, or the same rows lie beyond both positions |
| StepRuns.StepAfterInsertIff | crates/wxbtrv-core/src/ops/insert.rs:63-71 | The first step after Insert goes to the neighbour of the new row if and only if the queue is empty or runs the other way, or none of the other rows lies between the position left and the new row |
| StepRuns.ResetSkips | crates/wxbtrv-core/src/ops/session.rs:75-87 | With two rows and read-ahead: Step First, Reset, Step Next gives the second row instead of the first |
| StepOps.StepCached | crates/wxbtrv-core/src/ops/step.rs:13-97 | Pop, clear and refill do what the queue specification does to status, row and all five position fields; the record handed out is packed from the texts after the first |
| StepOps.StepEnd | crates/wxbtrv-core/src/ops/step.rs:116-178 | Step First and Step Last are a cached step from a forgotten position |
| StepOps.FetchStepBatch | crates/wxbtrv-core/src/ops/step_ext.rs:84-130 | The text sent fetches the first n rows beyond the record number that pass the filter, in record number order; what is made of each is `Selected.StepRead` |
| StepOps.StepTextSelects | crates/wxbtrv-core/src/ops/sql_helpers.rs:356-388 | Start and filter texts, together or alone, select exactly the rows beyond the record number that pass the filter |
| StepOps.StepWhere | crates/wxbtrv-core/src/ops/sql_helpers.rs:356-388 | No start condition without a position, otherwise the record number compared in the direction |
| StepExt.RunStepExtended | crates/wxbtrv-core/src/ops/step_ext.rs:132-250 | Status, records, reply and position of an extended step are those of the longest fitting run; the queue is emptied only on success |
| StepExt.FillReply | crates/wxbtrv-core/src/ops/step_ext.rs:187-226 | Writing record by record stops at the longest run that fits, with its count in front |
| CodecRoundTrip.RecordRoundTrip | crates/wxbtrv-core/src/record.rs:70-219 | For records in the codec's exact range, unpack then pack reproduces every byte some field writes, also where fields overlap, and leaves zeros elsewhere |
| CodecRoundTrip.PackAllCopies | crates/wxbtrv-core/src/record.rs:70-219 | The same over any buffer, field after field |
| CodecRoundTrip.SlotRoundTrip | crates/wxbtrv-core/src/record.rs:399-517 | Field by field: decoding a slot in the exact range and packing the value writes the same bytes and touches no others |
| CodecRoundTrip.IntRoundTrip | crates/wxbtrv-core/src/record.rs:420-432 | INT and AUTOINC of width 1, 2, 4 or at least 8 come back (wider slots: their first eight bytes) |
| CodecRoundTrip.DecimalRoundTrip | crates/wxbtrv-core/src/record.rs:491-496 | DECIMAL comes back for every width, on its first eight bytes |
| CodecRoundTrip.DateRoundTrip | crates/wxbtrv-core/src/record.rs:463-482 | A valid DATE comes back byte for byte |
| CodecRoundTrip.TimeRoundTrip | crates/wxbtrv-core/src/record.rs:483-490 | A TIME below 10^8 with zero hundredths comes back byte for byte |
| CodecRoundTrip.ZStringRoundTripIff | crates/wxbtrv-core/src/record.rs:413-419 | An ASCII ZSTRING slot comes back if and only if it is zero from its first zero byte to the end |
| StringRoundTrips.StringRoundTripIff | crates/wxbtrv-core/src/record.rs:70-110 | A STRING slot comes back if and only if it is ASCII followed by a beginning of one fixed byte word: every byte above 0x7F is read as a character and written back as two bytes |
| StringRoundTrips.FixedWordStarts | crates/wxbtrv-core/src/record.rs:70-110 | The word starts 0xC3 0x83 0xC2 0x83, so a slot of the one byte 0xE9 does not come back |
| StringRoundTrips.FixedWordStays | crates/wxbtrv-core/src/record.rs:70-110 | That word comes back at every length |
| StringRoundTrips.OnlyFixedWord | crates/wxbtrv-core/src/record.rs:70-110 | Nothing else that starts above 0x7F does |
| FieldTypes.StringBytes | crates/wxbtrv-core/src/record.rs:99-107 | Text packed into a STRING slot, or one of any type without a rule, is its bytes and then blanks |
| FieldTypes.PackedStringReads | crates/wxbtrv-core/src/record.rs:99-412 | Read back it is the text cut to the width and filled with blanks |
| FieldTypes.FittedIsText | crates/wxbtrv-core/src/record.rs:99-107 | and, trailing blanks aside, the text its own aside |
| FieldTypes.LStringBytes | crates/wxbtrv-core/src/record.rs:108-120 | An LSTRING slot holds the length kept, the bytes and then blanks |
| FieldTypes.ZStringBytes | crates/wxbtrv-core/src/record.rs:121-130 | A ZSTRING slot holds the bytes up to the last byte but one and then zeros |
| FieldTypes.PackedZStringReads | crates/wxbtrv-core/src/record.rs:121-419 | Text without a NUL packed into a ZSTRING is read back cut to one byte less than the slot |
| FieldTypes.NumberBytes | crates/wxbtrv-core/src/record.rs:131-160 | A number between white space is packed as its low bytes, at most eight, low byte first; the rest of the slot stays |
| FieldTypes.NumberReads | crates/wxbtrv-core/src/record.rs:420-432 | One byte is read unsigned, two and four signed, eight or more as 64 bits, any other width as 0 |
| FieldTypes.DecimalReads | crates/wxbtrv-core/src/record.rs:491-496 | DECIMAL is read unsigned from up to seven bytes and signed from eight |
| FieldTypes.LogicalComesBack | crates/wxbtrv-core/src/record.rs:161-462 | Any byte but 0 is read as true and comes back as 0xFF |
| FieldTypes.DateBytes | crates/wxbtrv-core/src/record.rs:172-482 | A date slot of day, month and year reads as the digits YYYY-MM-DD and is written from them |
| FieldTypes.DateTextBytes | crates/wxbtrv-core/src/record.rs:172-189 | Date text counts by its first eight digits; fewer, NULL in any case, or a slot below four bytes leave the slot alone |
| FieldTypes.TimeBytes | crates/wxbtrv-core/src/record.rs:190-490 | A time slot of hours, minutes and seconds reads as the digits HH:MM:SS and is written from them |
| FieldTypes.TimeTextBytes | crates/wxbtrv-core/src/record.rs:190-209 | Time text counts by its first six digits, without hundredths |
| FieldTypes.TimeReads | crates/wxbtrv-core/src/record.rs:483-490 | Any time slot reads as the three pairs of digits of its number without the last two; a slot below four bytes as midnight |
| FieldTypes.NullColumnBytes | crates/wxbtrv-core/src/record.rs:70-219 | A NULL column fills a text field with blanks, an LSTRING behind length 0 and a ZSTRING with zeros |
| FieldTypes.NullColumnNumbers | crates/wxbtrv-core/src/record.rs:70-219 | A NULL column is packed as 0 and false, and leaves dates and times unwritten |
| FieldTypes.LiteralLogical | crates/wxbtrv-core/src/record.rs:161-462 | Literally: LOGICAL 1 is true and comes back as 0xFF, "true" is written as 0xFF |
| FieldTypes.LiteralNumbers | crates/wxbtrv-core/src/record.rs:420-496 | Literally: INT 200, INT FF FF, DECIMAL FF FF |
| FieldTypes.LiteralDate | crates/wxbtrv-core/src/record.rs:172-482 | Literally: the leap day of 2024 in bytes and as text |
| FieldTypes.LiteralString | crates/wxbtrv-core/src/record.rs:99-107 | Literally: AB in a STRING of five bytes |
| RecordCodec.PackRow | crates/wxbtrv-core/src/record.rs:70-219 | Packing in place, later fields over earlier ones, fields that do not fit skipped; the output is always the record length |
| KeyBuffer.KeyBufferDecodes | crates/wxbtrv-core/src/ops/helpers.rs:57-86 | After a Get, decoding the key buffer it wrote gives segment by segment the values kept as last keys, also when the index names missing fields |
| KeyBuffer.KeyReads | crates/wxbtrv-core/src/record.rs:524-665 | Packing a canonical value (INT/AUTOINC, full-width ASCII STRING, non-zero DATE or TIME) and decoding it as a key segment gives the value kept |
| KeyBuffer.KeyIsCut | crates/wxbtrv-core/src/record.rs:524-560 | A key is cut into exactly the pieces it was put together from |
| KeyBuffer.CutsDecode | crates/wxbtrv-core/src/record.rs:524-665 | The pieces decode to the values kept for their fields |
| KeyBuffer.WriteKeyBuf | crates/wxbtrv-core/src/ops/helpers.rs:57-86 | The key written is the segments' bytes one after another, unknown fields skipped; nothing for an unknown index |
| KeyBuffer.UnpackKeyFields | crates/wxbtrv-core/src/record.rs:524-665 | The segment loop decodes each known field at its running offset, null wildcards as none |
| KeyReuse.GetByKeyBuffer | crates/wxbtrv-core/src/ops/get.rs:25-112 | A key search from buffer to buffer: packed key length, zero fill, decoding, search, record, and the key written back |
| KeyReuse.SearchKeyWholeIff | crates/wxbtrv-core/src/ops/get.rs:55-63 | A key as long as the index's comes through whole if and only if it is zero beyond the length its key number carries |
| KeyReuse.LongKeyIsCut | crates/wxbtrv-core/src/ops/get.rs:55-63 | Literally: with key number -1 a key of 256 bytes is searched for with its last byte zero |
| KeyTypes.SearchedByte | crates/wxbtrv-core/src/ops/get.rs:55-66 | Byte by byte the key searched for is the buffer up to the length the key number carries, then zeros |
| KeyTypes.SegmentsByPiece | crates/wxbtrv-core/src/record.rs:524-665 | Every segment is its piece of the key: a wildcard where these are allowed and all bytes are the null byte of its own segment, else the value of its field |
| KeyTypes.TextKeyReads | crates/wxbtrv-core/src/record.rs:560-665 | Text segments end at the first zero, and an LSTRING segment starts behind its length byte |
| KeyTypes.PackedStringKey | crates/wxbtrv-core/src/record.rs:560-665 | A STRING segment of a packed record is the text filled with blanks |
| KeyReuse.KeyLenIsWritten | crates/wxbtrv-core/src/state.rs:96-114 | Where field numbers are distinct, an index's key length is the length of every key written |
| KeyReuse.WrittenKeySearches | crates/wxbtrv-core/src/ops/helpers.rs:57-86 | For key values in the canonical range, and a key number that carries the whole key: the key a read of a row leaves in the buffer is searched for as exactly the key values the handle keeps |
| KeyReuse.GetEqualFindsAgain | crates/wxbtrv-core/src/ops/get.rs:25-120 | Then Get Equal with the key buffer a Get of a row wrote succeeds, with a row that has the same keys, on tables with typed keys |
| UpdateOps.UpdateChunk | crates/wxbtrv-core/src/ops/update.rs:150-347 | Every status but success leaves the table untouched; success stores the old record with the chunks laid on |
| Chunks.LaterChunksWin | crates/wxbtrv-core/src/ops/update.rs:329-347 | Every byte of the result is that of the last chunk over it, or the record's own |
| Chunks.LaidIff | crates/wxbtrv-core/src/ops/update.rs:329-347 | Chunks can be laid exactly when each lies inside the record and all their data is there |
| UpdateOps.RectangleUpdateIsRandomUpdate | crates/wxbtrv-core/src/ops/update.rs:226-347 | Update Chunk with a Rectangle descriptor and with the Random descriptor of the same chunks: same status, same table, always |
| Chunks.RandomReads | crates/wxbtrv-core/src/ops/update.rs:228-261 | An encoded Random descriptor is read back as its chunks and data |
| Chunks.RectangleReads | crates/wxbtrv-core/src/ops/update.rs:262-286 | An encoded Rectangle descriptor is read back as the grid of chunks it stands for |
| Chunks.LayChunks | crates/wxbtrv-core/src/ops/update.rs:329-347 | The in-place loop lays the chunks or returns the status of the first one that cannot be laid |
| Chunks.ParsePlan | crates/wxbtrv-core/src/ops/update.rs:177-288 | The descriptor parser computes the flavour and chunk list, with each malformed case's status |
| UpdateOps.StoredColumns | crates/wxbtrv-core/src/ops/update.rs:16-55 | Afterwards a settable column holds the record's value and any other keeps its own |
| UpdateOps.StoredIsRecordIff | crates/wxbtrv-core/src/ops/update.rs:16-55 | The stored row is the record if and only if the columns that are never set agree with it already |
| UpdateOps.AutoincNotStored | crates/wxbtrv-core/src/ops/update.rs:16-55 | Literally: storing F1 = 0, F2 = 5 over F1 = 0, F2 = 1, with F2 the record number, changes nothing |
| UpdateOps.StoredImage | crates/wxbtrv-core/src/ops/update.rs:16-55 | Then an exact-range record is stored byte for byte wherever a field writes |
| UpdateOps.Update | crates/wxbtrv-core/src/ops/update.rs:81-122 | 8 without a position, 22 for empty data or nothing to set, else only the row stood on changes |
| UpdateStores.UpdateHolds | crates/wxbtrv-core/src/ops/update.rs:16-122 | On a table with distinct names, no field of type 14 or 15 and none for the record number: Update with an exact-range record gives 0, the row then has the record's byte wherever a field writes, and every other row is as it was |
| UpdateStores.ChunkUpdateHolds | crates/wxbtrv-core/src/ops/update.rs:150-368 | The same for Update Chunk and the old record with the chunks laid over it |
| UpdateStores.UpdatedColumn | crates/wxbtrv-core/src/ops/update.rs:16-55 | Field by field on any table: types 14 and 15, and a record number other than MDS_RECNUM compared ignoring case, keep their value; every other column holds the record's |
| UpdateStores.UpdateStatusIs | crates/wxbtrv-core/src/ops/update.rs:81-122 | 8 without a position, 22 for an empty record or a table of such fields only, else 0 |
| UpdateStores.SignatureDecides | crates/wxbtrv-core/src/ops/update.rs:184-224 | 0xFFFF_FFFE and 0x4000_0000 truncate: 28 below the record length, else 0, and nothing changes; 22 for a short rectangle, 62 for an unknown signature |
| Chunks.LaidFails | crates/wxbtrv-core/src/ops/update.rs:330-350 | The first chunk that cannot be laid decides: 22 when its data runs out, 103 when it leaves the record |
| UpdateOps.Delete | crates/wxbtrv-core/src/ops/delete.rs:32-69 | 8 without a position, else exactly the row stood on is removed |
| DirectOps.TokenLeadsBack | crates/wxbtrv-core/src/ops/position.rs:30-121 | The token Get Position returns leads Get Direct back to the row from any cursor while the row exists |
| DirectOps.GetPosition | crates/wxbtrv-core/src/ops/position.rs:30-45 | The token reads back as the last record number while four bytes can hold it, and as 0 without one |
| DirectOps.GetDirect | crates/wxbtrv-core/src/ops/position.rs:71-121 | 22 for a short token, 9 for a missing row, otherwise the row with that number and the cursor on it, index and flags untouched |
| Percent.SeekAfterLookup | crates/wxbtrv-core/src/ops/position.rs:144-307 | Standing on row i of n, taking its percentile and seeking it lands at most one row after i and less than n/10000 rows before it; with n <= 10000 on i or i+1 |
| Percent.SeekInvertsLookup | crates/wxbtrv-core/src/ops/position.rs:185-259 | The same bound on the formulas alone |
| Percent.SeekLandsOn | crates/wxbtrv-core/src/ops/position.rs:185-259 | With at most 10000 rows, exactly when it lands on the row itself |
| Percent.SeekMonotone | crates/wxbtrv-core/src/ops/position.rs:259-259 | A larger percentile never seeks an earlier row |
| Percent.PercentileBounded | crates/wxbtrv-core/src/ops/position.rs:162-185 | A percentile never exceeds 10000 |
| Percent.UpToIndex | crates/wxbtrv-core/src/ops/position.rs:162-181 | The counting query at row i counts i + 1 rows |
| Percent.FindPercent | crates/wxbtrv-core/src/ops/position.rs:220-307 | The row at the offset becomes the physical position; 9 for an empty table |
| Percent.StepAfterSeekIff | crates/wxbtrv-core/src/ops/position.rs:293-303 | The first step after Find Percentage goes to the neighbour of the row found if and only if the queue is empty or runs the other way, or no row lies between the position left and the row found |
| Percent.GetPercent | crates/wxbtrv-core/src/ops/position.rs:144-196 | The percentile of the current row as four bytes |
| Txn.FlagTracksBackend | crates/wxbtrv-core/src/sql.rs:317-373 | Over every run in which no write ends the transaction and no commit or rollback is refused, in particular any run without backend failure, the flag is up exactly when a backend transaction is open |
| Txn.AgreementKeptIff | crates/wxbtrv-core/src/sql.rs:293-373 | One step keeps that agreement if and only if it is none of the listed failures, whichever of five ways its statement ends |
| Txn.LostIsForgotten | crates/wxbtrv-core/src/sql.rs:293-373 | After a lost connection Begin keeps failing with 37, and the next End or Abort restores agreement |
| Txn.AbortRestores | crates/wxbtrv-core/src/ops/txn.rs:92-104 | Begin, any writes and further Begins, refused or doomed ones too, then Abort: the table is as at Begin |
| Txn.EndKeeps | crates/wxbtrv-core/src/ops/txn.rs:73-84 | Begin, any writes, End: the table keeps what was written, unless a refused write has doomed the transaction; then it is as at Begin |
| Txn.Driver.BeginTxn | crates/wxbtrv-core/src/sql.rs:317-344 | Status, flag and backend as the transaction machine says; 37 inside a transaction |
| Txn.Driver.EndTxn | crates/wxbtrv-core/src/sql.rs:346-355 | 39 outside a transaction; the flag goes down whatever the backend answers |
| Txn.Driver.AbortTxn | crates/wxbtrv-core/src/ops/txn.rs:92-104 | After a rollback every open handle has no position and an empty queue, and keeps its index; otherwise no handle changes |
| Txn.Driver.UpdateRow | crates/wxbtrv-core/src/ops/update.rs:81-122 | An Update through an open handle is a write of the transaction, or a status and no change |
| Txn.Driver.UpdateRowChunk | crates/wxbtrv-core/src/ops/update.rs:150-347 | and so is an Update Chunk |
| Txn.Driver.DeleteRow | crates/wxbtrv-core/src/ops/delete.rs:32-69 | and a Delete |
| Sessions.NoWritesAfterAbort | crates/wxbtrv-core/src/ops/txn.rs:16-27 | Among any number of handles, whatever is done after a rollback by any of them and however it ends, Update, Update Chunk and Delete return 8 on every handle and change nothing until an operation of that handle has brought a row |
| Sessions.NoRowNoPosition | crates/wxbtrv-core/src/ops/txn.rs:16-27 | An operation that brings no row, refused or not, gives no position to a handle without one |
| Sessions.NoPositionNoWrite | crates/wxbtrv-core/src/ops/delete.rs:43-45 | Without a position the three writes return 8 and change nothing |
| Sessions.SessionRolledBack | crates/wxbtrv-core/src/ops/txn.rs:92-104 | Begin, any reads, steps, updates, chunk updates, deletes and inserts of any handles, refused or dooming ones too, Abort: the table is as at Begin and no handle has a position or rows read ahead |
| Sessions.SessionEnds | crates/wxbtrv-core/src/ops/txn.rs:73-84 | The same up to End, which reports success: the writes are kept if and only if no refused statement doomed the transaction; if one did, the table is as at Begin and every handle keeps the positions and the queue it got inside |
| Sessions.SessionKeepsFlag | crates/wxbtrv-core/src/sql.rs:293-373 | Over a whole session of any handles the flag is up exactly when a transaction is open, as long as no statement ends the transaction and no commit or rollback is refused |
| Sessions.ActKeepsSession | crates/wxbtrv-core/src/ops/update.rs:16-122 | Whatever is done and however it ends, record numbers stay unique and positions together, so a session can always go on |
| Txn.Driver.InvalidateAllCurrency | crates/wxbtrv-core/src/ops/txn.rs:16-27 | The loop over the handle map clears every handle's positions and queue |
| IntRoundTrip.ParseRendered | crates/btr-types/src/parser/int.rs:4-277 | Parsing a rendered INT file gives the table back in normal form (null values 0, segment counts recomputed, segmentless indexes dropped, indexes derived from the fields when none are left, unrendered metadata defaulted) |
| IntRerender.RerenderSameIff | crates/db-config/src/export.rs:5-84 | Render, parse, render gives the same text if and only if the table is settled: nothing the parser drops, and either every index has a segment naming a field and they are in order, or the indexes are those the fields derive |
| IntRerender.OutOfOrderChanges | crates/db-config/src/export.rs:5-84 | Counterexample: a well-formed table with a segment in every index whose text changes on the second rendering |
| IntRerender.NormalFormSettlesIff | crates/db-config/src/export.rs:5-84 | A second trip changes nothing any more if and only if an index written out has a segment that names a field, or of the fields that carry an index number all or none are numbered 0 |
| IntRerender.WrittenIndexesSettle | crates/db-config/src/export.rs:5-84 | In particular whenever some index written out names a field |
| IntRoundTrip.RenderedFields | crates/btr-types/src/parser/int.rs:56-169 | The pending-field scan of the rendered lines flushes exactly the normalised fields |
| IntRoundTrip.RenderedIndexes | crates/btr-types/src/parser/int.rs:171-246 | The pending-index scan of the rendered lines flushes exactly the normalised indexes |
| IntRoundTrip.RenderedHeader | crates/btr-types/src/parser/int.rs:279-293 | Every header key of the rendered lines holds the value rendered for it |
| IntRerender.SortSorts | crates/btr-types/src/parser/int.rs:248-277 | Sorting by number gives a sorted permutation |
| IntFiles.Parse | crates/btr-types/src/parser/int.rs:4-143 | The parser computes the line specification, with its missing-name error |
| IntFiles.ParseFields | crates/btr-types/src/parser/int.rs:56-112 | The field loop with its pending values and flushes equals the fold over the field entries |
| IntFiles.ParseIndexes | crates/btr-types/src/parser/int.rs:171-229 | The index loop with its pending segment equals the fold over the index entries |
| IntLiteral.WordIsKey | crates/btr-types/src/parser/int.rs:10-230 | The 28 words of the format, in any case, are taken for their keys |
| IntLiteral.SegmentLines | crates/btr-types/src/parser/int.rs:171-230 | Four literal lines give a segment with its field, direction, null value and flag, or nothing for field 0 or flag -1; a null value beyond a byte is 0 |
| IntLiteral.HeaderSkips | crates/btr-types/src/parser/int.rs:279-293 | Comments, empty lines and lines without a value leave the header alone |
| IntLiteral.TwoWordValue | crates/btr-types/src/parser/int.rs:171-230 | An index value of several words keeps one blank between them |
| IntLiteral.GroupedSegments | crates/btr-types/src/parser/int.rs:248-277 | The indexes made of FIELD_INDEX: one for every number named, its plain segments those of the fields that name it, in order and counted |
| IntFiles.ParseKvLines | crates/btr-types/src/parser/int.rs:279-293 | The header map is the last value of every key |
| IntFiles.BuildIndexesFromFieldIndex | crates/btr-types/src/parser/int.rs:248-277 | The derived indexes are the fields grouped by index number, sorted |
| IntFiles.Render | crates/db-config/src/export.rs:5-53 | The text is the document's entries, one line each |
| IntFiles.RenderField | crates/db-config/src/export.rs:55-68 | A field's lines, the optional ones only when present |
| IntFiles.RenderIndex | crates/db-config/src/export.rs:70-84 | An index's lines, a direction only for descending segments, and the closing pair |
| IntLines.LinesOfUnlines | crates/db-config/src/export.rs:5-84 | Lines written one by one are the lines read |
| IntLines.LinesOfCrLf | crates/btr-types/src/parser/int.rs:65-66 | Lines that end in a carriage return and a newline are read the same, and a last line without an end counts |
| BFile.ReadAll | crates/btr-import/src/bfile.rs:73-149 | Opening and iterating to the end is the reading of the file, records of the live places in order, cut at the declared count, or the header's error; the round trips below are about that reading |
| BFile.RecordIter.Next | crates/btr-import/src/bfile.rs:224-298 | Each call returns the record of the next remaining live place and leaves exactly the others |
| BFile.RecordIter.NextInPage | crates/btr-import/src/bfile.rs:246-291 | The inner loop stops at the first live slot of the page or exhausts it |
| BFile.LiveFromOrdered | crates/btr-import/src/bfile.rs:224-298 | Live places are listed in strictly increasing (page, slot) order, so each at most once |
| BFile.LiveFromComplete | crates/btr-import/src/bfile.rs:224-298 | Every live place is listed |
| BFile.PlaceInBounds | crates/btr-import/src/bfile.rs:237-290 | Every page and slot lies inside the data: no index is out of bounds and the overflow break is never taken |
| BFile.YieldStep | crates/btr-import/src/bfile.rs:224-298 | Taking one live place advances the declared-count cut by one |
| BFile.FollowChain | crates/btr-import/src/bfile.rs:184-218 | The guarded pointer chase collects the chain of deleted offsets |
| BFile.ChainMembers | crates/btr-import/src/bfile.rs:184-218 | The set holds exactly the pointers within the step limit, also for circular chains |
| BFile.ChainStartAliasesLengths | crates/btr-import/src/bfile.rs:41-49 | In a version 5 file the chain's head overlaps the record length and key count, so an offset made of them counts as deleted unless both are 0xFFFF |
| BFile.SlotReadIff | crates/btr-import/src/bfile.rs:184-293 | In version 5 a slot of a flagged page is read if and only if its offset is not on the chain that starts at the number made of record length and key count |
| BFile.AliasedSlotLost | crates/btr-import/src/bfile.rs:184-293 | So the slot at that offset is never read, whatever it holds |
| BFile.FirstSlotLost | crates/btr-import/src/bfile.rs:41-49 | Literally: a one-page file of 4-byte records without keys loses its first slot |
| BFile.TightSlotsGiveNothing | crates/btr-import/src/bfile.rs:73-138 | A version 6 file whose slots have no room for the usage count passes the header checks and gives no records |
| BFile.UsedSlotReadIff | crates/btr-import/src/bfile.rs:262-279 | In version 6 a used slot of a flagged page is read if and only if it has room for the usage count and the record |
| BFile.UsedSlotLost | crates/btr-import/src/bfile.rs:262-279 | Literally: a one-page file of 4-byte records in 5-byte slots does not give its used slot |
| BFile.ReadHeader | crates/btr-import/src/bfile.rs:73-138 | An accepted header has a page size and record length the iterator can divide by |
| BFileRoundTrip.HeaderReadIff | crates/btr-import/src/bfile.rs:31-138 | A header is accepted with exactly the numbers at its literal byte offsets, version by version, the lengths being in order |
| BFileRoundTrip.RecordBytes | crates/btr-import/src/bfile.rs:246-291 | Every byte of a record by its offset in the file: behind 6 + 2 bytes of its page and slot in version 6, behind 4 in version 5 |
| BFileRoundTrip.LiveBytes | crates/btr-import/src/bfile.rs:246-291 | Which slots count, by the bytes at their offsets |
| BFileRoundTrip.DeletedIff | crates/btr-import/src/bfile.rs:184-218 | An offset counts as deleted exactly when it is one of the first million pointers of the version 5 chain that starts at byte 0x10 |
| BFileRoundTrip.ReadsVersion6 | crates/btr-import/src/bfile.rs:73-298 | A version 6 file whose used slots are those of given records is read as these, up to the declared count |
| BFileRoundTrip.Version5RecordReadIff | crates/btr-import/src/bfile.rs:246-291 | A record of a version 5 file is read if and only if the second byte of the first record on its page is at least 0x80 and its offset is off the chain: the page flag is record data |
| BFileRoundTrip.AsciiVersion5GivesNothing | crates/btr-import/src/bfile.rs:246-291 | A version 5 file of records whose second bytes are below 0x80 gives no records |
| BFileWriter.WriteThenRead6 | crates/btr-import/src/bfile.rs:73-298 | A version 6 file written from records, byte by byte, is read as exactly those records |
| BFileWriter.WriteThenRead5Iff | crates/btr-import/src/bfile.rs:73-298 | A version 5 file written from records, its chain leading out of the file, is read as those records if and only if every page starts with a record whose second byte is at least 0x80 |
| BFileWriter.WriteThenReadAscii5 | crates/btr-import/src/bfile.rs:73-298 | and written from ASCII records it gives none |
| Calendar.CivilFromDaysIsRight | crates/wxbtrv-core/src/trace.rs:180-190 | For every day number the closed form gives the valid date that many days after 1970-01-01, counted by year and month lengths |
| Calendar.DaysToYmd | crates/db-config/src/db/migration.rs:88-124 | The counting loops give the same year, month and day as the closed form |
| Calendar.CivilIncreases | crates/wxbtrv-core/src/trace.rs:180-190 | Later days have later dates |
| Calendar.DayNumberIncreases | crates/db-config/src/db/migration.rs:88-124 | The day number is strictly increasing in date order, so no two dates share one |
| Calendar.ClockFieldsAgree | crates/wxbtrv-core/src/trace.rs:176-194 | Hours, minutes and seconds taken from the second of the day or from all seconds agree, and make up the second of the day |
| Calendar.IsoStamp | crates/wxbtrv-core/src/trace.rs:168-195 | The trace stamp is the date and clock of its second; up to 9999 its digits, read back, are that day and second |
| Calendar.EpochToIso | crates/db-config/src/db/migration.rs:79-86 | The migration stamp is the same date and clock, and reads back likewise |

## Left out

- FLOAT and MONEY fields, and floating-point and byte-string parameters: binary floating point text is lossy and not the point. `NoFloats` in a precondition says so.
- Real drivers, connection strings, locks, tracing, result marshalling: a backend is an object with a table.
- SQL NULL in key columns: a comparison with NULL is false in the model's evaluation, and the walk theorems ask for key columns without NULL.
- Collations: text is compared character by character. The backend compares identifiers exactly, while the driver ignores case when it asks whether the record number column is a field, so a field that differs from it in case only is another column to the backend.
- The text of UPDATE, INSERT, DELETE and COUNT statements: what they do is carried out directly.
- Quoting happens when a clause is rendered, not when column references are collected; the text is the same.
- Rows hold typed values, and a fetched column's text is the value written out; a backend's own formatting of dates, times and padded text is not part of this model.
- Fixed-width overflow: lengths, offsets and record numbers are unbounded; where the code narrows to 16 or 32 bits the round-trip theorems ask for values that fit.
- Non-ASCII text: UTF-8 decoding replaces every non-ASCII byte, and the exact ranges ask for ASCII.
- LSTRING, alternate ZSTRING and AUTOINCREMENT round trips: the typed decoder sends them to its generic branch, so no inverse is intended.
- The INSERT itself: in `Sessions` it adds a row with a fresh record number and moves the position there. Open, Create, Close and the null, owner and directory operations; the untyped decoder used for display.
- Copying a reply or record into the caller's buffer cuts it at the buffer's length (`write_data`); the model returns the whole.
- `parse_sne` and the step operations' `project` are the same code as `parse_gne` and `project`; one model serves both.
- Reset, Find Percentage and Insert are kept out of the read-ahead runs, where they would break the claim; the exact conditions are proved beside them.
- LOGICAL key segments are in no canonical range: the value kept is text, the one decoded a truth value, and how a backend compares the two is not modelled.
- Several tables under one transaction, and Stop inside a transaction: one table per driver.
- Which of the five ways a statement ends (carried out, refused, refused and the transaction doomed, rolled back, connection lost) is the backend's choice: a parameter in `Txn`, and a step of its own in `Sessions`, where what an operation leaves of its handle when a statement fails is stated and not derived from the methods, which are about statements that are carried out.
- INT metadata that is not rendered (source path and directory) and the MDS and DDL renderers.
- Record numbers are unique by assumption: they are the table's identity column.
- Relation.Backend.Select: takes the clauses and a row limit; the SELECT text around them (column list, TOP or LIMIT, the ROW_NUMBER subquery of Find Percentage) is not read. Which columns it asks for, and that a column it does not have reads as empty, is stated in `Selected`.
- GetOps.GetEnd: the row returned is any row with the least key, because nothing in the code breaks the tie.
- Txn.FlagTracksBackend: covers runs of Begin, End, Abort and writes on one connection.
