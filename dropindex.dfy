/** `SQLiteDropIndex`: the `DROP INDEX` statement, its builder, and the
    connection's `drop(index:)` entry point. */
module SQLiteDropIndex {
  import opened Wrappers
  import opened Strings
  import opened SQLiteIdentifiers

  /** The serialiser of an identifier, which lives outside this driver: it
      takes the binds collected so far and gives the identifier's SQL text
      and the binds after it. */
  type IdentifierSerializer<!B> = (Identifier, seq<B>) -> (string, seq<B>)

  datatype DropIndex = DropIndex(identifier: Identifier)

  /** `SQLiteQuery`, reduced to the case this statement produces; every
      other kind of statement is `OtherQuery`. */
  datatype Query = DropIndexQuery(dropIndex: DropIndex) | OtherQuery

  /** `serialize(_:aliases:)`: collects the keyword and the identifier's
      text and joins them with one space. The aliases are accepted and not
      passed on, and the statement adds no binds of its own. */
  method Serialize<A, B>(d: DropIndex, binds: seq<B>, aliases: Option<A>, serialize: IdentifierSerializer<B>)
    returns (sql: string, out: seq<B>)
    ensures sql == "DROP INDEX " + serialize(d.identifier, binds).0
    ensures out == serialize(d.identifier, binds).1
  {
    var parts: seq<string> := [];
    parts := parts + ["DROP INDEX"];
    var id := serialize(d.identifier, binds);
    out := id.1;
    parts := parts + [id.0];
    sql := Join(parts, " ");
    assert parts == ["DROP INDEX", id.0];
    assert ["DROP INDEX", id.0][1..] == [id.0];
    assert Join([id.0], " ") == id.0;
    assert sql == "DROP INDEX" + " " + id.0;
    assert "DROP INDEX" + " " + id.0 == "DROP INDEX " + id.0;
  }

  /** `SQLiteDropIndexBuilder`: the statement being built and the
      connection it will run on. */
  class DropIndexBuilder<C> {
    var dropIndex: DropIndex
    var connection: C

    /** `query`: the statement currently held, as a query. */
    function Query(): (q: Query)
      reads this
      ensures q.DropIndexQuery? && q.dropIndex == dropIndex
    {
      DropIndexQuery(dropIndex)
    }

    constructor (dropIndex: DropIndex, connection: C)
      ensures this.dropIndex == dropIndex && this.connection == connection
    {
      this.dropIndex := dropIndex;
      this.connection := connection;
    }
  }

  /** `drop(index:)`: a new builder for `DROP INDEX identifier` on the
      given connection. */
  method Drop<C>(connection: C, identifier: Identifier) returns (b: DropIndexBuilder<C>)
    ensures fresh(b)
    ensures b.dropIndex.identifier == identifier && b.connection == connection
    ensures b.Query() == DropIndexQuery(DropIndex(identifier))
  {
    b := new DropIndexBuilder(DropIndex(identifier), connection);
  }
}
