/** Identifiers of the SQL layer that the connection and the statements
    share: `SQLiteIdentifier` and `GenericSQLTableIdentifier`. */
module SQLiteIdentifiers {
  datatype Identifier = Identifier(name: string)
  datatype TableIdentifier = TableIdentifier(identifier: Identifier)
}

/** `SQLiteConnection`: the open/closed flag and the occurrence-filtered
    row decode. */
module SQLiteConnection {
  import opened Wrappers
  import opened SQLiteColumn
  import opened SQLiteIdentifiers

  datatype Problem = Error

  /** `SQLiteError`, and the failures the external row decoder reports. */
  datatype Failure =
    | SQLiteError(problem: Problem, reason: string)
    | DecodingFailure(reason: string)

  datatype Result<T> = Success(value: T) | Fail(failure: Failure)

  /** The thrown error of the table guard. The guard fails only for a
      missing table, and `String(describing:)` of a missing value is `nil`. */
  const InvalidTable: Failure := SQLiteError(Error, "Invalid table: nil.")

  /** The occurrence the decode uses when the caller gives none. */
  const DefaultOccurrence: UInt64 := 1

  /** The `SQLiteDatabase` a connection keeps alive. */
  class Database {
    constructor () {}
  }

  class Connection {
    /** The parent database, held so that its handle outlives the connection. */
    const database: Database
    var isClosed: bool

    constructor (database: Database)
      ensures this.database == database && !isClosed
    {
      this.database := database;
      isClosed := false;
    }

    /** `close()` only flips the flag; on a closed connection it changes
        nothing, and it never fails. */
    method Close()
      modifies this
      ensures isClosed
    {
      isClosed := true;
    }
  }

  /** The entries the filter keeps: those whose column's table is exactly
      `table` and whose occurrence is exactly `occurrence`. */
  predicate Selected<V>(e: Entry<V>, table: string, occurrence: UInt64) {
    e.key.table == Some(table) && e.key.occurrence == occurrence
  }

  /** `row.filter { $0.key.table == tableString && $0.key.occurrence == occurrence }`,
      scanning every entry in iteration order. */
  function FilterOccurrence<V>(row: seq<Entry<V>>, table: string, occurrence: UInt64): (sub: seq<Entry<V>>)
    ensures |sub| <= |row|
    ensures forall i :: 0 <= i < |sub| ==> sub[i] in row && Selected(sub[i], table, occurrence)
    ensures forall i :: 0 <= i < |row| && Selected(row[i], table, occurrence) ==> row[i] in sub
    ensures forall i :: 0 <= i < |sub| ==> sub[i].key.table.Some?
    decreases |row|
  {
    if |row| == 0 then []
    else
      var rest := FilterOccurrence(row[1..], table, occurrence);
      if Selected(row[0], table, occurrence) then [row[0]] + rest else rest
  }

  /** The filter keeps multiplicity: each selected entry appears in the
      sub-row as many times as in the row, and no other entry appears. */
  lemma {:induction false} FilterKeepsMultiplicity<V>(row: seq<Entry<V>>, table: string, occurrence: UInt64, e: Entry<V>)
    ensures multiset(FilterOccurrence(row, table, occurrence))[e] ==
            if Selected(e, table, occurrence) then multiset(row)[e] else 0
    decreases |row|
  {
    if |row| > 0 {
      FilterKeepsMultiplicity(row[1..], table, occurrence, e);
      assert row == [row[0]] + row[1..];
    }
  }

  /** Filtering an already filtered row changes nothing. */
  lemma {:induction false} FilterIdempotent<V>(row: seq<Entry<V>>, table: string, occurrence: UInt64)
    ensures var sub := FilterOccurrence(row, table, occurrence);
            FilterOccurrence(sub, table, occurrence) == sub
    decreases |row|
  {
    if |row| > 0 {
      FilterIdempotent(row[1..], table, occurrence);
      var rest := FilterOccurrence(row[1..], table, occurrence);
      if Selected(row[0], table, occurrence) {
        assert ([row[0]] + rest)[1..] == rest;
      }
    }
  }

  /** `decode(_:from:table:occurrence:)`: without a table it fails before
      the decoder is reached; with one, it hands the decoder exactly the
      entries of that table and occurrence, and the original table. */
  function DecodeOccurrence<V, D>(row: seq<Entry<V>>, table: Option<TableIdentifier>, occurrence: UInt64,
                                  decoder: (seq<Entry<V>>, Option<TableIdentifier>) -> Result<D>): (r: Result<D>)
    ensures table.None? ==> r == Fail(InvalidTable)
    ensures table.Some? ==> r == decoder(FilterOccurrence(row, table.value.identifier.name, occurrence), table)
  {
    match table
    case None => Fail(InvalidTable)
    case Some(t) =>
      var requested := FilterOccurrence(row, t.identifier.name, occurrence);
      decoder(requested, table)
  }

  /** The same decode with the occurrence argument left at its default. */
  function DecodeFirstOccurrence<V, D>(row: seq<Entry<V>>, table: Option<TableIdentifier>,
                                       decoder: (seq<Entry<V>>, Option<TableIdentifier>) -> Result<D>): (r: Result<D>)
    ensures r == DecodeOccurrence(row, table, 1, decoder)
  {
    DecodeOccurrence(row, table, DefaultOccurrence, decoder)
  }
}
