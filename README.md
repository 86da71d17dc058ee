# SQLite driver core: column identity, occurrence-filtered decode, SQL serialisers

This project models four sequential, self-contained parts of a Swift driver
for SQLite and proves properties of the model.

- **Result-set columns** (`SQLiteColumn`, module `SQLiteColumn`). A column is
  an optional table, a name and an occurrence counter that defaults to 1.
  The model covers the initialisers, `incrementOccurrence`, the `==`
  operator, the shape of `hashValue`, `description`, and the
  `firstValue(forColumn:inTable:)` lookup over a row.
  `==` compares table and name only, while `hashValue` and `description`
  both include the occurrence. The model makes this explicit.
  `HashDisagreesWithEquality` and `IncrementBreaksHashable` show that
  Swift's `Hashable` rule (equal values hash equally) fails for a column and
  its incremented copy whenever the two occurrences hash differently. The
  model keeps the source's `==` as it is.
- **Connection** (`SQLiteConnection`, module `SQLiteConnection`). A class
  holding the `isClosed` flag, which `init` clears and `close()` sets. It
  also models the guard and filter of `decode(_:from:table:occurrence:)`:
  with no table the call fails with `Invalid table: nil.` and never reaches
  the decoder. Otherwise the decoder receives exactly the entries whose
  column table equals the requested table and whose occurrence equals the
  requested occurrence.
- **Function calls** (`SQLiteFunction`, module `SQLiteFunction`). `COUNT(*)`,
  `function(_:_:)` and `serialize`, which writes
  `name(arg1, arg2, ...)` and passes the bind list through each argument's
  serialiser from left to right.
- **DROP INDEX** (`SQLiteDropIndex`, module `SQLiteDropIndex`). The
  statement's serialiser, the builder class, and `drop(index:)`.

Modelling choices:

- A row is the sequence of `Entry(key, value)` pairs its dictionary iteration
  visits. Swift's `Dictionary` relies on hashing and `==`, and the two
  disagree for these keys. `firstValue` and the decode filter both scan the
  entries in iteration order, and neither hashes.
- `UInt` and `Int` are 64-bit ranges (`UInt64`, `Int64`). `&+` is written
  out as wrapping addition.
- The library hashes of `String` and `UInt` are function parameters. Only
  the hash's structure is modelled: which parts it combines, in which order.
- `description` renders the occurrence in decimal, as Swift's string
  interpolation does (`Strings.DecimalString`). `Strings.DecimalRoundTrip`
  proves that rendering injective.
- The argument serialiser, the identifier serialiser and the row decoder
  live outside this driver. They are function parameters. Each serialiser
  takes the current binds and returns its text and the binds after it.
- The code throws `Invalid table` whenever the table is missing, whatever the
  occurrence (`Sources/SQLite/Database/SQLiteConnection.swift:71-73`). The
  model follows the code.
- Swift picks the overload that needs no default arguments. So a direct call
  that leaves out `occurrence:` reaches the table-only `decode` (lines
  65-67), which filters nothing. The default `occurrence: UInt = 1` (line 70)
  may never be used by such calls. `DecodeFirstOccurrence` models that
  declared default as written. This point rests on Swift's overload
  ranking, not on anything the driver's code states.

## Model

| member | source | states |
|---|---|---|
| `SQLiteColumn.Create` | Sources/SQLite/Row/SQLiteColumn.swift:13-16 | `init(table:name:)` stores table and name unchanged; occurrence is 1 |
| `SQLiteColumn.Copy` | Sources/SQLite/Row/SQLiteColumn.swift:19-23 | `init(column:)` gives a column equal to its argument in all three fields |
| `SQLiteColumn.FromLiteral` | Sources/SQLite/Row/SQLiteColumn.swift:44-46 | the string-literal init is `init(name:)`: no table, the literal as name, occurrence 1 |
| `SQLiteColumn.IncrementOccurrence` | Sources/SQLite/Row/SQLiteColumn.swift:25-27 | the new column has occurrence one higher and the same table and name; requires no `UInt` overflow |
| `SQLiteColumn.IncrementKeepsIdentity` | Sources/SQLite/Row/SQLiteColumn.swift:25-27 | incrementing keeps the column `==` to the original, keeps occurrence >= 1, and always changes the value |
| `SQLiteColumn.Equal` | Sources/SQLite/Row/SQLiteColumn.swift:62-64 | `==` holds exactly when the two columns agree once occurrence is set aside, i.e. same table and same name |
| `SQLiteColumn.EqualIsEquivalence` | Sources/SQLite/Row/SQLiteColumn.swift:62-64 | `==` is reflexive, symmetric and transitive |
| `SQLiteColumn.EqualIgnoresOccurrence` | Sources/SQLite/Row/SQLiteColumn.swift:62-64 | columns differing only in occurrence are `==`; `==` columns differ at most in occurrence |
| `SQLiteColumn.WrappingAdd` | Sources/SQLite/Row/SQLiteColumn.swift:53-55 | `&+` on `Int` equals mathematical addition modulo 2^64 |
| `SQLiteColumn.Hash` | Sources/SQLite/Row/SQLiteColumn.swift:51-57 | `hashValue` is the sum, modulo 2^64, of the table hash (when there is a table), the occurrence hash and the name hash |
| `SQLiteColumn.HashDisagreesWithEquality` | Sources/SQLite/Row/SQLiteColumn.swift:51-57 | on both branches of `hashValue`, two `==` columns whose occurrences hash differently get different hashes |
| `SQLiteColumn.IncrementBreaksHashable` | Sources/SQLite/Row/SQLiteColumn.swift:51-64 | a fresh column and its incremented copy are `==` yet hash differently when `UInt` hashes of 1 and 2 differ |
| `SQLiteColumn.Description` | Sources/SQLite/Row/SQLiteColumn.swift:69-75 | the description ends with `.` + name; it starts with table + `.` when there is a table; between them (or before `.name` with no table) is exactly the decimal rendering of the occurrence |
| `SQLiteColumn.DescriptionDeterminesOccurrence` | Sources/SQLite/Row/SQLiteColumn.swift:69-75 | `==` columns with equal descriptions have equal occurrences, so the description tells occurrences apart |
| `SQLiteColumn.FirstValue` | Sources/SQLite/Row/SQLiteColumn.swift:32-39 | the result is none iff no entry matches; a result is the value of the first matching entry in iteration order (a missing table on either side matches any table) |
| `SQLiteConnection.Connection.constructor` | Sources/SQLite/Database/SQLiteConnection.swift:44-49 | a new connection keeps its database and is not closed |
| `SQLiteConnection.Connection.Close` | Sources/SQLite/Database/SQLiteConnection.swift:119-121 | afterwards the connection is closed, from either state, with no failure; nothing else changes |
| `SQLiteConnection.FilterOccurrence` | Sources/SQLite/Database/SQLiteConnection.swift:74 | the sub-row holds only row entries with exactly that table and occurrence, holds every such entry, and never holds a column without a table |
| `SQLiteConnection.FilterKeepsMultiplicity` | Sources/SQLite/Database/SQLiteConnection.swift:74 | each selected entry appears in the sub-row as often as in the row; unselected entries never appear |
| `SQLiteConnection.FilterIdempotent` | Sources/SQLite/Database/SQLiteConnection.swift:74 | filtering the sub-row again returns it unchanged |
| `SQLiteConnection.DecodeOccurrence` | Sources/SQLite/Database/SQLiteConnection.swift:70-76 | no table: fails with `Invalid table: nil.` whatever the decoder; a table: the decoder's result on the filtered sub-row and the original table |
| `SQLiteConnection.DecodeFirstOccurrence` | Sources/SQLite/Database/SQLiteConnection.swift:70 | the declared default: leaving out the occurrence of this overload decodes occurrence 1 (a direct call without `occurrence:` may resolve to the table-only overload instead) |
| `SQLiteFunction.Count` | Sources/SQLite/SQL/SQLiteFunction.swift:7-9 | `count` is named `COUNT` with the single argument `.all` |
| `SQLiteFunction.Call` | Sources/SQLite/SQL/SQLiteFunction.swift:12-14 | `function(_:_:)` stores name and arguments unchanged |
| `SQLiteFunction.SerializeArguments` | Sources/SQLite/SQL/SQLiteFunction.swift:24 | one text per argument; no arguments leave the binds unchanged |
| `SQLiteFunction.Serialize` | Sources/SQLite/SQL/SQLiteFunction.swift:23-25 | the output starts with name + `(` and ends with `)` |
| `SQLiteFunction.SerializeArgumentsConcat` | Sources/SQLite/SQL/SQLiteFunction.swift:24 | arguments are serialised left to right: a later run of arguments starts from the binds the earlier run left |
| `SQLiteFunction.SerializeNoArguments` | Sources/SQLite/SQL/SQLiteFunction.swift:24 | with no arguments the output is name + `()` and the binds are unchanged |
| `SQLiteFunction.SerializeOneArgument` | Sources/SQLite/SQL/SQLiteFunction.swift:24 | with one argument the output is name + `(` + its text + `)` and the binds are the ones its serialiser leaves |
| `SQLiteFunction.SerializeAppendArgument` | Sources/SQLite/SQL/SQLiteFunction.swift:24 | one more argument adds `, ` and its text before `)`, serialised after the earlier arguments' binds |
| `SQLiteFunction.CountSerializesAsStar` | Sources/SQLite/SQL/SQLiteFunction.swift:6-9 | if `.all` renders as `*` with no binds, `count` serialises as `COUNT(*)` with the binds unchanged |
| `SQLiteFunction.SerializeBindsInOrder` | Sources/SQLite/SQL/SQLiteFunction.swift:23-24 | when each argument appends its own values, the final binds are the input followed by each argument's values in argument order; the call adds none |
| `SQLiteFunction.SerializeKeepsBinds` | Sources/SQLite/SQL/SQLiteFunction.swift:23-24 | when argument serialisers only append, the input binds are a prefix of the output binds |
| `SQLiteDropIndex.Serialize` | Sources/SQLite/SQL/SQLiteDropIndex.swift:7-12 | the output is `DROP INDEX` + one space + the identifier's text, independent of the aliases; the binds are exactly those the identifier's serialiser leaves |
| `SQLiteDropIndex.DropIndexBuilder.constructor` | Sources/SQLite/SQL/SQLiteDropIndex.swift:31-34 | the builder stores the statement and the connection unchanged |
| `SQLiteDropIndex.DropIndexBuilder.Query` | Sources/SQLite/SQL/SQLiteDropIndex.swift:26-28 | the query is the drop-index case holding the builder's current statement |
| `SQLiteDropIndex.Drop` | Sources/SQLite/SQL/SQLiteDropIndex.swift:40-42 | a new builder on the given connection whose statement drops the given identifier, and whose query is that statement |

## Left out

- `query(_:_:)` (`Sources/SQLite/Database/SQLiteConnection.swift:88-116`) is left out. It submits work to a blocking-IO thread pool, sends rows back to the event loop and settles a promise. This is concurrency and foreign calls.
- `lastAutoincrementID` and `errorMessage` are left out. They are direct calls into the SQLite C API.
- The table-only `decode(_:from:table:)` (lines 65-67) is left out. It hands the row unchanged to the external row decoder.
- `SQLiteRowDecoder`, the argument serialiser and the identifier serialiser appear only as function parameters. Their code is not part of this model.
- The connection's `eventLoop`, `extend` and `logger` fields are left out. They belong to the event-loop and logging layers.
- `SQLiteColumn.HashDisagreesWithEquality`: the result depends on the library hashes, so the lemma assumes the two occurrences hash differently instead of using concrete hash values.
- `SQLiteFunction.SerializeBindsInOrder`: the lemma covers only argument serialisers that append a fixed list of values per argument. Arbitrary serialisers are covered by `SerializeArgumentsConcat`.
- `SQLiteColumn.IncrementOccurrence` requires an occurrence below `UInt.max`. Swift's checked `+` traps there, and the model does not cover the trap.
- `SQLiteColumn.Equal`, `SQLiteColumn.Matches` and `SQLiteConnection.Selected` compare strings as sequences of characters. Swift's `String ==` uses Unicode canonical equivalence, so `"\u{E9}"` and `"e\u{301}"` are equal in Swift but not in the model. This also affects `SQLiteColumn.FirstValue` and `SQLiteConnection.FilterOccurrence`.
- Dictionary semantics are not modelled: key uniqueness, unspecified iteration order, and a `filter` that returns a dictionary. A row is the sequence of its entries in iteration order.
- `count(as:)` on `SQLSelectExpression` (`Sources/SQLite/SQL/SQLiteFunction.swift:28-33`) is left out. It wraps `count` in select-expression types from the external SQL package.
- `Sources/SQLite/SQL/SQLiteCollation.swift` is left out because it always returns `X`. `Package.swift` is left out because it is package metadata.
