# StackExchange dump importer — a Dafny model

`stackoverflow-import.php` loads one XML file of the StackExchange data
dump (`Users.xml`, `Badges.xml`, `Posts.xml`, `Posthistory.xml`,
`Comments.xml`, `Votes.xml`) into the MySQL table of the same name. It
works as follows:

- An importer class per entity declares three things:
  - its attribute map, from XML attribute to destination column, in order;
  - its default parameters;
  - for Badges only, a lookup. The badge `Name` text is replaced by the id
    of a row in the side table `BadgeTypes`, and each distinct text is
    inserted there once.
- `load` walks the file's nodes and skips every node that is not a `row`
  element.
- For each record, `load` builds the parameter array from four layers, in
  this order:
  1. a null for every column;
  2. the defaults (`array_merge`, so the defaults win);
  3. the lookup id;
  4. every attribute PHP finds truthy. An absent attribute, `""` and `"0"`
     do not count.
- It inserts the record with one prepared statement. It commits every
  10000 records, opens a new PDO connection every 80 commits, and commits
  once more at the end.

The model has nine modules, one file each:

| file | module | what it holds |
|---|---|---|
| `values.dfy` | `Values` | the reader's nodes; PHP values and truthiness; the record filter |
| `schema.dfy` | `Schema` | the six importer classes as constant `Mapping` values, and their well-formedness |
| `sql.dfy` | `Sql` | the SQL text of both prepared statements, a parser that reads it back, and the sequence name passed to `lastInsertId` |
| `params.dfy` | `Params` | the parameter array as a function; the loop that builds it as a method |
| `store.dfy` | `Store` | the database behind PDO as a value (the details follow this table) |
| `pipeline.dfy` | `Pipeline` | the read loop as a fold over the nodes, and the lemmas about it |
| `importer.dfy` | `Importer` | the class `XmlImport`, with its connection, statements and cache as fields |
| `scenarios.dfy` | `Scenarios` | small end-to-end Badges runs |
| `selector.dfy` | `Selector` | the choice of importer from the file name |

The `Db` value in `Store` holds:
- the committed rows and the rows pending in the transaction;
- the side table;
- counters of statements, commits and connections;
- the current connection's last insert id.

Whether the database accepts a statement is an oracle parameter.

How the pieces fit:
- The methods of `Importer.XmlImport` are proved equal to the functions of
  `Pipeline`, and the properties are proved about those functions.
- `Pipeline` takes a flag `rp`:
  - `false` is the code as written;
  - `true` prepares both statements again after each reconnect. This is
    the corrected variant; see Findings.

Where the code departs from what one would expect of an importer, the
model follows the code:
- A failed side-table insert makes `lookup` return PHP `false`. That value
  is bound as the record's type id and the load goes on. It is not a null
  key, and the run does not stop.
- The thresholds 10000 and 80 are constants, not configuration.
- `"0"` counts as a missing attribute, just like `""`.

## Model

| member | source | states |
|---|---|---|
| `Values.RowsOf` | stackoverflow-import.php:107-110 | the records of a node sequence: `CountRows` of them, all `row` elements, and each `row` element of the input at its own position among them, in input order |
| `Values.Truthy` | stackoverflow-import.php:122 | PHP truthiness of an attribute (absent, `""` and `"0"` are false); its effect on the parameters is proved in `Params.OverlayAt`, `Params.DefaultWhenFalsy` and `Params.CommentWithUserZero` |
| `Values.IsRow` | stackoverflow-import.php:108 | the record filter; `Pipeline.RunFilter` proves that the other nodes change nothing |
| `Schema.AllWellFormed` | stackoverflow-import.php:152-280 | each of the six classes has distinct source attributes and distinct columns; its defaults and lookup key name mapped columns |
| `Schema.MappingOf` | stackoverflow-import.php:152-280 | the six classes as data; their properties are `Schema.AllWellFormed`, `Schema.AllReadBack` and the column lemmas |
| `Schema.AllReadBack` | stackoverflow-import.php:75-87 | for each of the six classes, the prepared insert reads back as its table, its columns in order and their placeholders |
| `Schema.BadgesLookupReadsBack` | stackoverflow-import.php:50-53 | the Badges side-table insert reads back as table BadgeTypes, column Description, placeholder `:Description` |
| `Schema.SchemaSizes` | stackoverflow-import.php:161-280 | the classes map 12, 4, 19, 10, 5 and 5 attributes |
| `Schema.BadgesColumns` | stackoverflow-import.php:184-191 | Badges' columns in order: BadgeId, BadgeTypeId, UserId, CreationDate |
| `Sql.InsertRoundTrip` | stackoverflow-import.php:75-87 | reading the generated insert back gives the table, the columns in order and their placeholders |
| `Sql.InsertSql` | stackoverflow-import.php:75-87 | the main insert text; `Sql.InsertRoundTrip` and `Schema.AllReadBack` prove what it contains |
| `Sql.SplitJoin` | stackoverflow-import.php:79-85 | the comma-joined list splits back into its parts when no part holds a comma |
| `Sql.LookupInsertIsInsert` | stackoverflow-import.php:50-53 | the side-table statement is the main-table insert on table name + "s" with the single column Description |
| `Sql.LookupInsertShape` | stackoverflow-import.php:50-53 | the side-table statement reads back as the table name + "s", column Description and placeholder `:Description` |
| `Sql.LookupInsertSql` | stackoverflow-import.php:50-53 | the side-table insert text; `Sql.LookupInsertIsInsert` and `Sql.LookupInsertShape` prove what it contains |
| `Sql.SequenceNameOfBadgeType` | stackoverflow-import.php:68-69 | the Badges sequence name is `badgetypes_badgetypeid_seq` |
| `Sql.SequenceName` | stackoverflow-import.php:68-69 | the lower-cased sequence name; `Sql.SequenceNameOfBadgeType` gives its value for Badges |
| `Store.Connect` | stackoverflow-import.php:140-141 | a new connection: numbered one higher, no transaction, nothing pending, no insert id; committed rows and side table kept |
| `Store.Begin` | stackoverflow-import.php:98 | opens a transaction, which PDO refuses to nest; `Pipeline.Tick` and `Pipeline.Start` only call it with none open |
| `Store.Commit` | stackoverflow-import.php:136 | the pending rows are appended to the committed ones, the transaction closes and the commit count rises by one; nothing else changes |
| `Store.Execute` | stackoverflow-import.php:127-132 | one main insert: pending inside the current connection's transaction, committed at once otherwise, dropped when refused |
| `Store.ExecuteSide` | stackoverflow-import.php:61 | a side-table insert appends its text on success; the insert id moves only when the statement belongs to the current connection |
| `Params.OverlayKeys` | stackoverflow-import.php:121-125 | the attribute loop adds no key |
| `Params.OverlayAt` | stackoverflow-import.php:121-125 | after the attribute loop, a column holds its attribute when that is truthy and its earlier value otherwise |
| `Params.ParamsColumns` | stackoverflow-import.php:112-125 | every parameter array has exactly the mapped columns as keys |
| `Params.ParamsPrecedence` | stackoverflow-import.php:112-125 | each column holds the truthy attribute; failing that, the lookup result (for the lookup key), then the default, then null |
| `Params.ParamsChosen` | stackoverflow-import.php:112-125 | the whole array: exactly the mapped columns, each holding the value that precedence chooses |
| `Params.Params` | stackoverflow-import.php:112-125 | the parameter array of a record; `Params.ParamsChosen` gives its keys and every value |
| `Params.BuildParams` | stackoverflow-import.php:112-125 | the building code computes the parameter array, with exactly those keys and those values |
| `Params.OverlayAttributes` | stackoverflow-import.php:121-125 | the `foreach` loop computes the attribute overlay |
| `Params.DefaultWhenFalsy` | stackoverflow-import.php:116-125 | a falsy attribute with a default, in a class without a lookup, yields the default |
| `Params.CommentWithUserZero` | stackoverflow-import.php:253-266 | a comment with `UserId="0"` gets the default user `-1` |
| `Params.PostWithoutCounts` | stackoverflow-import.php:194-229 | a post without Score and ViewCount gets `"0"` for both |
| `Params.BadgeTypeIdPrecedence` | stackoverflow-import.php:117-125 | a truthy BadgeTypeId attribute overrides the lookup result; otherwise the lookup result is bound |
| `Pipeline.ResolveCached` | stackoverflow-import.php:56-73 | a cached text returns its id and leaves the store and the cache alone |
| `Pipeline.ResolveNew` | stackoverflow-import.php:56-73 | on a statement of the current connection, when the side insert is accepted, a new text adds one side row and caches and returns that row's id |
| `Pipeline.ResolveFailed` | stackoverflow-import.php:61-67 | a refused side insert returns `false`, caches nothing and adds no row |
| `Pipeline.ResolveStale` | stackoverflow-import.php:68-70 | through a statement of an earlier connection, the new text is cached under the current connection's last insert id |
| `Pipeline.ResolveKeys` | stackoverflow-import.php:56-73 | a lookup forgets no cached text and caches at most its own |
| `Pipeline.ResolveCaches` | stackoverflow-import.php:56-73 | when side inserts succeed, the lookup leaves its text cached |
| `Pipeline.ResolveKeepsMemo` | stackoverflow-import.php:56-73 | on a statement of the current connection, a lookup keeps the cache in one-to-one agreement with the added side rows |
| `Pipeline.ResolveCount` | stackoverflow-import.php:56-73 | on a current or a stale statement, a lookup keeps the cached texts equal to the distinct texts of the added side rows |
| `Pipeline.Resolve` | stackoverflow-import.php:56-73 | `lookup`; its cases are `Pipeline.ResolveCached`, `Pipeline.ResolveNew`, `Pipeline.ResolveStale` and `Pipeline.ResolveFailed` |
| `Pipeline.RunFilter` | stackoverflow-import.php:107-110 | the read loop over all nodes equals the loop over the records alone |
| `Pipeline.LoadFilter` | stackoverflow-import.php:107-110 | a load sees only the records of the document |
| `Pipeline.LoadMemo` | stackoverflow-import.php:56-73 | with the statements prepared again after each reconnect (`rp` = true): from an empty cache, each distinct text gets at most one side row and is cached under that row's id; with every side insert accepted, exactly one row per distinct text read |
| `Pipeline.LoadOneRowPerText` | stackoverflow-import.php:56-73 | for any number of records, as written or not: from an empty cache, no text gets two side rows and the cached texts are those of the added rows; with every side insert accepted, the added rows' texts are exactly the distinct texts read, one row each |
| `Pipeline.LoadMemoBelowRenewal` | stackoverflow-import.php:134-145 | as written, memoisation is right for fewer than 800000 records |
| `Pipeline.TickCounts` | stackoverflow-import.php:134-145 | `$i` counts the records and `$j` the full batches of 10000; the store sees one commit per batch and one reconnect per 80 |
| `Pipeline.TickDelivers` | stackoverflow-import.php:134-145 | the counter step loses no row; a reconnect leaves nothing pending and no insert id, and the statements follow only when prepared again |
| `Pipeline.Tick` | stackoverflow-import.php:134-145 | the counter step; `Pipeline.TickCounts`, `Pipeline.TickDelivers` and `Pipeline.RenewalStrands` state what it does |
| `Pipeline.Step` | stackoverflow-import.php:107-146 | one pass of the read loop; `Pipeline.RunFilter`, `Pipeline.RunCounts` and `Pipeline.RunDelivers` state what runs of it do |
| `Pipeline.RunCounts` | stackoverflow-import.php:105-146 | over any nodes: rows = records read, batches = rows div 10000, commits and connections as those batches dictate |
| `Pipeline.LoadCounts` | stackoverflow-import.php:91-149 | after n records: n div 10000 + 1 commits, 1 + n div 800000 connections, no transaction open |
| `Pipeline.Load` | stackoverflow-import.php:91-149 | `load`: a new connection and transaction, the read loop, the final commit; its properties are the `Pipeline.Load…` lemmas |
| `Pipeline.ThresholdCommit` | stackoverflow-import.php:134-137 | exactly 10000 records: one threshold commit plus the final one, one connection |
| `Pipeline.OneRenewal` | stackoverflow-import.php:138-143 | 800001 records: exactly one renewal, 81 commits |
| `Pipeline.TickNoRenewal` | stackoverflow-import.php:138-143 | below the 80th commit, preparing again after a reconnect would change nothing |
| `Pipeline.LoadAgree` | stackoverflow-import.php:139-141 | for fewer than 800000 records the code as written and the corrected variant agree exactly |
| `Pipeline.RenewalStrands` | stackoverflow-import.php:139-144 | the 800000th record reconnects; as written, both statements stay on the old connection |
| `Pipeline.LoadDelivers` | stackoverflow-import.php:107-147 | a load commits, after the earlier rows, exactly the accepted parameter arrays in input order; each has the mapped columns |
| `Pipeline.RunAccepted` | stackoverflow-import.php:112-132 | without a lookup and with every insert accepted, one parameter array is accepted per record, in order |
| `Pipeline.LoadAccepted` | stackoverflow-import.php:91-149 | in that case a load commits one row per record, in order |
| `Pipeline.LoadTwice` | stackoverflow-import.php:91-149 | for a class without a lookup, loading the same document twice commits every row twice; nothing is deduplicated |
| `Pipeline.RunAcceptsAll` | stackoverflow-import.php:112-132 | with every main insert accepted, any class accepts one parameter array per record |
| `Pipeline.LoadAllAccepted` | stackoverflow-import.php:91-149 | with every insert accepted, a lookup class commits one row per record and the added side rows hold exactly the distinct texts read, one row each |
| `Pipeline.LoadTwiceWithLookup` | stackoverflow-import.php:91-149 | a lookup class loaded by two runs of the program: every record committed twice; each run's added side rows hold exactly the distinct texts read, so the side table grows by twice their number |
| `Scenarios.BadgeStep` | stackoverflow-import.php:56-73 | a Badges record on a current statement binds the cached id or a new side row's id |
| `Scenarios.RepeatThenNew` | stackoverflow-import.php:91-149 | Badges x, x, y with x ≠ y: side rows x and y; three main rows, the first two sharing the type id |
| `Scenarios.ScholarScholarEditor` | stackoverflow-import.php:179-192 | Scholar, Scholar, Editor: side rows Scholar and Editor; three main rows committed, the first two type ids equal, the third different |
| `Scenarios.StrandedStep` | stackoverflow-import.php:68-70 | a new name read through stale statements binds and caches id 0, and its row is committed at once |
| `Scenarios.StrandedLookup` | stackoverflow-import.php:139-141 | as written, a new name after the reconnect gets type id 0 instead of its own row's id, outside the transaction |
| `Scenarios.ReprepareLookup` | stackoverflow-import.php:139-141 | with the statements prepared again, that name gets its own row's id |
| `Importer.XmlImport.constructor` | stackoverflow-import.php:43-48 | `initAttr` gives the class's mapping; nothing prepared, empty cache |
| `Importer.XmlImport.PrepareInsert` | stackoverflow-import.php:75-89 | the insert statement text, prepared on the current connection |
| `Importer.XmlImport.PrepareLookupInsert` | stackoverflow-import.php:50-54 | the side-table statement text, prepared on the current connection |
| `Importer.XmlImport.Lookup` | stackoverflow-import.php:56-73 | the method's store, cache and result are the functional lookup's |
| `Importer.XmlImport.Record` | stackoverflow-import.php:112-132 | lookup, parameter array and insert as the functional model computes them |
| `Importer.XmlImport.Advance` | stackoverflow-import.php:134-145 | the counter and commit step, without preparing again |
| `Importer.XmlImport.Visit` | stackoverflow-import.php:107-146 | one pass of the read loop is one step of the functional loop, as written |
| `Importer.XmlImport.Load` | stackoverflow-import.php:91-149 | the method ends in the state of the functional `Load` as written, both statements prepared on its one new connection |
| `Selector.TrimSlashes` | stackoverflow-import.php:305 | `basename` ignores trailing slashes |
| `Selector.AfterSlash` | stackoverflow-import.php:305 | the last path component: a slash-free suffix preceded by a slash or the path's start |
| `Selector.Basename` | stackoverflow-import.php:305 | the base name holds no slash |
| `Selector.UcfirstCaseless` | stackoverflow-import.php:306-308 | upper-casing the first letter makes no difference once case is ignored |
| `Selector.NamesDistinct` | stackoverflow-import.php:308-313 | no two importer classes have the same name, whatever the case |
| `Selector.ClassFor` | stackoverflow-import.php:308-313 | a name selects an importer exactly when it equals that class name, ignoring case |
| `Selector.FileSelects` | stackoverflow-import.php:305-313 | `dir/stem.xml` and `stem.xml` select an importer exactly when its name is the stem, ignoring case |

## Left out

- XMLReader itself is not modelled. A document is the sequence of nodes
  the reader visits, each with its type, local name and attributes.
  Malformed XML and unreadable files are not modelled.
- PDO and MySQL appear only as the `Db` value and the acceptance oracle:
  - connection errors are not modelled;
  - PDO's exception error mode is not modelled. A refused statement makes
    `execute` return false, which is what the code tests for;
  - statement caching and the wire protocol are not modelled.
- The echo and print diagnostics are left out; they only report. This
  includes the refused rows and `errorInfo`.
- The command line is left out: `getopt`, the option defaults, the DSN,
  `is_file` and the exit codes. These are process I/O.
- `Selector.ClassFor` covers only the six importer classes. Any other
  class that `class_exists` accepts (say `XMLReader`) is out of scope.
- Side-table inserts are modelled as never rolled back. In the code a
  failed main-table insert rolls nothing back either.
- `Pipeline.Step` runs the lookup before it builds the nulls and the
  defaults. The code builds them first. Building them is pure, so the
  order changes nothing.
- `Store.LastInsertId` returns a number, not PHP's numeric string. The
  string is bound to the parameter as that number.
- `Store.Connect` models a statement left on the old connection as
  running in autocommit mode. That is, it assumes its connection has no
  open transaction, since the code committed it just before discarding
  the connection.
- `Store.LastInsertId` answers as MySQL does: per connection, ignoring the
  sequence name. PostgreSQL's per-sequence answer is not modelled; the DSN
  names `mysql:`.
- PHP's integer keys for numeric array keys are not modelled as
  different from strings. The conversion is injective, so the cache
  behaves the same.
- `Selector.Ucfirst` and `Sql.Lower` handle ASCII letters only.
  Locale-dependent case mapping is out of scope.

## Findings

| source | as written | input that shows it | evidently intended | confidence | as-written member | corrected member |
|---|---|---|---|---|---|---|
| stackoverflow-import.php:139-141 | after 80 commits `$this->pdo` is replaced by a new connection, but `$this->stmt` and `$this->lookupStmt` are not prepared again, so they keep using the old connection | a Badges file with more than 800000 rows whose 800001st row carries a badge Name not seen before | prepare both statements again on the new connection, so that rows stay in the transaction and each new name is cached under its own row's id | not executed; it rests on a PDO statement keeping the connection that prepared it, and on MySQL's per-connection insert id | `Scenarios.StrandedLookup` | `Pipeline.LoadMemo` |

The consequences of the finding:
- On the old connection both inserts run in autocommit mode. Every later
  row is then committed on its own. `Pipeline.LoadDelivers` still holds,
  but the batching is lost.
- `lastInsertId` is asked of the new connection, which has inserted
  nothing, so it returns 0 (`Pipeline.ResolveStale`).
- The new name is bound and cached with type id 0. Every later badge with
  that name gets 0 too (`Scenarios.StrandedLookup`).
- When the statements are prepared again (`rp` = true), memoisation holds
  for a load of any length (`Pipeline.LoadMemo`), and the same input binds
  the new row's own id (`Scenarios.ReprepareLookup`).
- Below 800000 records the two variants agree exactly
  (`Pipeline.LoadAgree`).
