/** A column of a SQLite result set (`SQLiteColumn`): an optional table,
    a name, and an occurrence counter that tells apart columns of a joined
    result set sharing the same table and name. */
module SQLiteColumn {
  import opened Wrappers
  import opened Strings

  /** Swift's `UInt` on a 64-bit platform. */
  const UINT_MAX: int := 0xFFFF_FFFF_FFFF_FFFF
  type UInt64 = x: int | 0 <= x <= UINT_MAX

  /** Swift's `Int` on a 64-bit platform, the type of `hashValue`. */
  const INT_MIN: int := -0x8000_0000_0000_0000
  const INT_MAX: int := 0x7FFF_FFFF_FFFF_FFFF
  type Int64 = x: int | INT_MIN <= x <= INT_MAX

  datatype Column = Column(table: Option<string>, name: string, occurrence: UInt64)

  /** `init(table:name:)`: the stored property default gives occurrence 1. */
  function Create(table: Option<string>, name: string): (c: Column)
    ensures c.table == table && c.name == name && c.occurrence == 1
  {
    Column(table, name, 1)
  }

  /** `init(column:)`: a field-by-field copy. */
  function Copy(column: Column): (c: Column)
    ensures c == column
  {
    Column(column.table, column.name, column.occurrence)
  }

  /** `init(stringLiteral:)`: delegates to `init(name:)` with no table. */
  function FromLiteral(value: string): (c: Column)
    ensures c == Create(None, value)
    ensures c.table == None && c.name == value && c.occurrence == 1
  {
    Create(None, value)
  }

  /** The state `incrementOccurrence` leaves behind. */
  function Incremented(c: Column): Column
    requires c.occurrence < UINT_MAX
  {
    c.(occurrence := c.occurrence + 1)
  }

  /** `mutating incrementOccurrence()`. Swift's checked `+` traps when the
      counter is already `UInt.max`, so callers must stay below it. */
  method IncrementOccurrence(c: Column) returns (r: Column)
    requires c.occurrence < UINT_MAX
    ensures r == Incremented(c)
    ensures r.table == c.table && r.name == c.name
    ensures r.occurrence == c.occurrence + 1
  {
    r := c;
    r := r.(occurrence := r.occurrence + 1);
  }

  /** Incrementing keeps table and name, so it keeps a column `==` to
      itself, keeps occurrence at least 1, and always changes the value. */
  lemma IncrementKeepsIdentity(c: Column)
    requires c.occurrence < UINT_MAX
    ensures Equal(c, Incremented(c))
    ensures c.occurrence >= 1 ==> Incremented(c).occurrence >= 1
    ensures Incremented(c) != c
  {
  }

  /** `==`: table and name only; occurrence is not compared, so two columns
      are equal exactly when they agree once occurrence is set aside. */
  predicate Equal(lhs: Column, rhs: Column)
    ensures Equal(lhs, rhs) <==> lhs.(occurrence := rhs.occurrence) == rhs
  {
    lhs.table == rhs.table && lhs.name == rhs.name
  }

  /** `==` is an equivalence relation. */
  lemma EqualIsEquivalence(a: Column, b: Column, c: Column)
    ensures Equal(a, a)
    ensures Equal(a, b) <==> Equal(b, a)
    ensures Equal(a, b) && Equal(b, c) ==> Equal(a, c)
  {
  }

  /** Columns that differ only in occurrence compare equal, and any two
      equal columns differ at most in occurrence. */
  lemma EqualIgnoresOccurrence(a: Column, k: UInt64)
    ensures Equal(a, a.(occurrence := k))
    ensures forall b :: Equal(a, b) ==> b == a.(occurrence := b.occurrence)
  {
  }

  /** Swift's `&+` on `Int`: addition modulo 2^64 in two's complement. */
  function WrappingAdd(a: Int64, b: Int64): (r: Int64)
    ensures (r - (a + b)) % 0x1_0000_0000_0000_0000 == 0
  {
    var s := a + b;
    if s > INT_MAX then s - 0x1_0000_0000_0000_0000
    else if s < INT_MIN then s + 0x1_0000_0000_0000_0000
    else s
  }

  /** The structure of `hashValue`: the hashes of table (when present),
      occurrence and name, combined left to right with `&+`. The library
      hashes of `String` and `UInt` are parameters. The result is the sum
      of the part hashes, modulo 2^64. */
  function Hash(c: Column, hashString: string -> Int64, hashUInt: UInt64 -> Int64): (h: Int64)
    ensures c.table.Some? ==>
      (h - (hashString(c.table.value) + hashUInt(c.occurrence) + hashString(c.name))) % 0x1_0000_0000_0000_0000 == 0
    ensures c.table.None? ==>
      (h - (hashUInt(c.occurrence) + hashString(c.name))) % 0x1_0000_0000_0000_0000 == 0
  {
    match c.table
    case Some(t) =>
      var inner := WrappingAdd(hashString(t), hashUInt(c.occurrence));
      var h := WrappingAdd(inner, hashString(c.name));
      ModuloSum(h - (inner + hashString(c.name)), inner - (hashString(t) + hashUInt(c.occurrence)));
      h
    case None => WrappingAdd(hashUInt(c.occurrence), hashString(c.name))
  }

  /** Two differences that vanish modulo 2^64 add up to one that does. */
  lemma ModuloSum(x: int, y: int)
    requires x % 0x1_0000_0000_0000_0000 == 0 && y % 0x1_0000_0000_0000_0000 == 0
    ensures (x + y) % 0x1_0000_0000_0000_0000 == 0
  {
    var m := 0x1_0000_0000_0000_0000;
    assert x == (x / m) * m;
    assert y == (y / m) * m;
    assert x + y == (x / m + y / m) * m;
  }

  /** Swift's `Hashable` requires equal values to hash equally. Here two
      columns that are `==` get different hashes as soon as their
      occurrences hash differently, on either branch of `hashValue`. */
  lemma HashDisagreesWithEquality(a: Column, b: Column, hashString: string -> Int64, hashUInt: UInt64 -> Int64)
    requires Equal(a, b)
    requires hashUInt(a.occurrence) != hashUInt(b.occurrence)
    ensures Hash(a, hashString, hashUInt) != Hash(b, hashString, hashUInt)
  {
  }

  /** The concrete counterexample: a column and its incremented copy, as
      produced when a result set repeats a column, are `==` yet hash
      differently whenever the occurrences 1 and 2 hash differently (in
      Swift 4.0 and 4.1 `UInt.hashValue` is the bit pattern, so they always
      do; later versions seed integer hashes). */
  lemma IncrementBreaksHashable(table: Option<string>, name: string, hashString: string -> Int64, hashUInt: UInt64 -> Int64)
    requires hashUInt(1) != hashUInt(2)
    ensures var first := Create(table, name);
            var second := Incremented(first);
            Equal(first, second) && Hash(first, hashString, hashUInt) != Hash(second, hashString, hashUInt)
  {
  }

  /** `description`: `table.occurrence.name`, or `occurrence.name` without a
      table, with the occurrence in decimal. */
  function Description(c: Column): (s: string)
    ensures |s| > |c.name| && s[|s| - |c.name| - 1..] == "." + c.name
    ensures c.table.Some? ==> |s| > |c.table.value| && s[..|c.table.value| + 1] == c.table.value + "."
    ensures c.table.None? ==> AllDigits(s[..|s| - |c.name| - 1])
    ensures var p := if c.table.Some? then |c.table.value| + 1 else 0;
            p <= |s| - |c.name| - 1 && s[p..|s| - |c.name| - 1] == DecimalString(c.occurrence)
  {
    var prefix := if c.table.Some? then c.table.value + "." else "";
    var s := prefix + DecimalString(c.occurrence) + "." + c.name;
    assert s[|s| - |c.name| - 1..] == "." + c.name;
    assert c.table.Some? ==> s[..|c.table.value| + 1] == c.table.value + ".";
    assert c.table.None? ==> s[..|s| - |c.name| - 1] == DecimalString(c.occurrence);
    assert s[|prefix|..|s| - |c.name| - 1] == DecimalString(c.occurrence);
    s
  }

  /** Unlike `==`, the description tells apart columns that differ only in
      occurrence. */
  lemma DescriptionDeterminesOccurrence(a: Column, b: Column)
    requires Equal(a, b)
    requires Description(a) == Description(b)
    ensures a.occurrence == b.occurrence
  {
    var s := Description(a);
    var p := if a.table.Some? then |a.table.value| + 1 else 0;
    assert DecimalString(a.occurrence) == s[p..|s| - |a.name| - 1];
    assert DecimalString(b.occurrence) == s[p..|s| - |a.name| - 1];
    DecimalStringInjective(a.occurrence, b.occurrence);
  }

  /** One entry of a row dictionary, `[SQLiteColumn: Value]`. The dictionary
      is modelled as the sequence its iteration visits. */
  datatype Entry<V> = Entry(key: Column, value: V)

  /** The test inside `firstValue`: a missing table on either side matches
      any table. */
  predicate Matches(col: Column, name: string, table: Option<string>) {
    (col.table.None? || table.None? || col.table == table) && col.name == name
  }

  /** `firstValue(forColumn:inTable:)`: the value of the first entry, in
      iteration order, whose column matches; `None` when no entry does. */
  method FirstValue<V>(row: seq<Entry<V>>, name: string, table: Option<string>) returns (r: Option<V>)
    ensures r.None? <==> forall i :: 0 <= i < |row| ==> !Matches(row[i].key, name, table)
    ensures r.Some? ==> exists i :: 0 <= i < |row| && Matches(row[i].key, name, table) && row[i].value == r.value &&
                                    forall j :: 0 <= j < i ==> !Matches(row[j].key, name, table)
  {
    for i := 0 to |row|
      invariant forall j :: 0 <= j < i ==> !Matches(row[j].key, name, table)
    {
      if Matches(row[i].key, name, table) {
        return Some(row[i].value);
      }
    }
    return None;
  }
}
