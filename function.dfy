/** `SQLiteFunction`: a SQL function call such as `COUNT(*)`, and its
    serialisation into SQL text plus bind values. */
module SQLiteFunction {
  import opened Wrappers
  import opened Strings

  /** `GenericSQLFunctionArgument`: `*` or an expression. */
  datatype Argument<E> = All | Expression(expression: E)

  datatype Function<E> = Function(name: string, arguments: seq<Argument<E>>)

  /** The serialiser of one argument, which lives outside this driver: it
      takes the binds collected so far and the table aliases, and gives the
      argument's SQL text and the binds after it. */
  type ArgumentSerializer<!E, !A, !B> = (Argument<E>, seq<B>, Option<A>) -> (string, seq<B>)

  /** `count`: `COUNT(*)`. */
  function Count<E>(): (f: Function<E>)
    ensures f.name == "COUNT" && f.arguments == [All]
  {
    Function("COUNT", [All])
  }

  /** `function(_:_:)`. */
  function Call<E>(name: string, args: seq<Argument<E>>): (f: Function<E>)
    ensures f.name == name && f.arguments == args
  {
    Function(name, args)
  }

  /** `arguments.map { $0.serialize(&binds, aliases: aliases) }`: each
      argument in order, each seeing the binds its predecessors left. */
  function SerializeArguments<E, A, B>(args: seq<Argument<E>>, binds: seq<B>, aliases: Option<A>,
                                       serialize: ArgumentSerializer<E, A, B>): (r: (seq<string>, seq<B>))
    ensures |r.0| == |args|
    ensures |args| == 0 ==> r.1 == binds
    decreases |args|
  {
    if |args| == 0 then ([], binds)
    else
      var first := serialize(args[0], binds, aliases);
      var rest := SerializeArguments(args[1..], first.1, aliases, serialize);
      ([first.0] + rest.0, rest.1)
  }

  /** `serialize(_:aliases:)`: the name, then the argument texts joined by
      `", "` inside parentheses; the binds are those the arguments leave. */
  function Serialize<E, A, B>(f: Function<E>, binds: seq<B>, aliases: Option<A>,
                              serialize: ArgumentSerializer<E, A, B>): (r: (string, seq<B>))
    ensures |r.0| >= |f.name| + 2
    ensures r.0[..|f.name| + 1] == f.name + "("
    ensures r.0[|r.0| - 1] == ')'
  {
    var args := SerializeArguments(f.arguments, binds, aliases, serialize);
    var sql := f.name + "(" + Join(args.0, ", ") + ")";
    assert sql[..|f.name| + 1] == f.name + "(";
    (sql, args.1)
  }

  /** Serialising two runs of arguments one after the other is serialising
      them together: the second run starts from the binds the first left. */
  lemma {:induction false} SerializeArgumentsConcat<E, A, B>(xs: seq<Argument<E>>, ys: seq<Argument<E>>, binds: seq<B>,
                                                             aliases: Option<A>, serialize: ArgumentSerializer<E, A, B>)
    ensures var x := SerializeArguments(xs, binds, aliases, serialize);
            var y := SerializeArguments(ys, x.1, aliases, serialize);
            SerializeArguments(xs + ys, binds, aliases, serialize) == (x.0 + y.0, y.1)
    decreases |xs|
  {
    if |xs| == 0 {
      assert xs + ys == ys;
      var y := SerializeArguments(ys, binds, aliases, serialize);
      assert [] + y.0 == y.0;
    } else {
      var first := serialize(xs[0], binds, aliases);
      assert (xs + ys)[0] == xs[0];
      assert (xs + ys)[1..] == xs[1..] + ys;
      SerializeArgumentsConcat(xs[1..], ys, first.1, aliases, serialize);
      var x := SerializeArguments(xs[1..], first.1, aliases, serialize);
      var y := SerializeArguments(ys, x.1, aliases, serialize);
      assert [first.0] + (x.0 + y.0) == ([first.0] + x.0) + y.0;
    }
  }

  /** With no arguments the call is `name()` and the binds are untouched. */
  lemma SerializeNoArguments<E, A, B>(name: string, binds: seq<B>, aliases: Option<A>, serialize: ArgumentSerializer<E, A, B>)
    ensures Serialize(Call(name, []), binds, aliases, serialize) == (name + "()", binds)
  {
    assert name + "(" + "" + ")" == name + "()";
  }

  /** One argument: its text in parentheses, and the binds it leaves. */
  lemma SerializeOneArgument<E, A, B>(name: string, a: Argument<E>, binds: seq<B>, aliases: Option<A>,
                                      serialize: ArgumentSerializer<E, A, B>)
    ensures var one := serialize(a, binds, aliases);
            Serialize(Call(name, [a]), binds, aliases, serialize) == (name + "(" + one.0 + ")", one.1)
  {
  }

  /** One more argument adds `", "` and its text before the closing
      parenthesis, and its binds after those of the earlier arguments. */
  lemma SerializeAppendArgument<E, A, B>(name: string, args: seq<Argument<E>>, a: Argument<E>, binds: seq<B>,
                                         aliases: Option<A>, serialize: ArgumentSerializer<E, A, B>)
    requires |args| > 0
    ensures var before := SerializeArguments(args, binds, aliases, serialize);
            var last := serialize(a, before.1, aliases);
            Serialize(Call(name, args + [a]), binds, aliases, serialize) ==
              (name + "(" + Join(before.0, ", ") + ", " + last.0 + ")", last.1)
  {
    var before := SerializeArguments(args, binds, aliases, serialize);
    var last := serialize(a, before.1, aliases);
    SerializeArgumentsConcat(args, [a], binds, aliases, serialize);
    assert [a][1..] == [];
    assert [last.0] + [] == [last.0];
    assert SerializeArguments([a], before.1, aliases, serialize) == ([last.0], last.1);
    var all := SerializeArguments(args + [a], binds, aliases, serialize);
    assert all == (before.0 + [last.0], last.1);
    JoinSnoc(before.0, last.0, ", ");
    var joined := Join(all.0, ", ");
    assert joined == Join(before.0, ", ") + ", " + last.0;
    assert Serialize(Call(name, args + [a]), binds, aliases, serialize) == (name + "(" + joined + ")", all.1);
    assert name + "(" + joined + ")" == name + "(" + Join(before.0, ", ") + ", " + last.0 + ")";
  }

  /** `COUNT(*)` serialises as its comment says, adding no binds, given the
      usual rendering of `.all` as `*`. */
  lemma CountSerializesAsStar<E, A, B>(binds: seq<B>, aliases: Option<A>, serialize: ArgumentSerializer<E, A, B>)
    requires serialize(All, binds, aliases) == ("*", binds)
    ensures Serialize(Count<E>(), binds, aliases, serialize) == ("COUNT(*)", binds)
  {
    SerializeOneArgument("COUNT", All, binds, aliases, serialize);
    assert Count<E>() == Call("COUNT", [All]);
    assert "COUNT" + "(" + "*" + ")" == "COUNT(*)";
  }

  /** Concatenation of each argument's own bind values, left to right. */
  function Contributions<E, B>(args: seq<Argument<E>>, contribution: Argument<E> -> seq<B>): seq<B>
    decreases |args|
  {
    if |args| == 0 then [] else contribution(args[0]) + Contributions(args[1..], contribution)
  }

  /** When each argument appends its own bind values, the binds after the
      call are the input binds followed by every argument's values in
      argument order; the call adds none of its own. */
  lemma {:induction false} SerializeBindsInOrder<E, A, B>(f: Function<E>, binds: seq<B>, aliases: Option<A>,
                                                          serialize: ArgumentSerializer<E, A, B>,
                                                          contribution: Argument<E> -> seq<B>)
    requires forall a, bs :: serialize(a, bs, aliases).1 == bs + contribution(a)
    ensures Serialize(f, binds, aliases, serialize).1 == binds + Contributions(f.arguments, contribution)
  {
    ArgumentBindsInOrder(f.arguments, binds, aliases, serialize, contribution);
  }

  lemma {:induction false} ArgumentBindsInOrder<E, A, B>(args: seq<Argument<E>>, binds: seq<B>, aliases: Option<A>,
                                                         serialize: ArgumentSerializer<E, A, B>,
                                                         contribution: Argument<E> -> seq<B>)
    requires forall a, bs :: serialize(a, bs, aliases).1 == bs + contribution(a)
    ensures SerializeArguments(args, binds, aliases, serialize).1 == binds + Contributions(args, contribution)
    decreases |args|
  {
    if |args| > 0 {
      var next := serialize(args[0], binds, aliases).1;
      ArgumentBindsInOrder(args[1..], next, aliases, serialize, contribution);
      assert binds + contribution(args[0]) + Contributions(args[1..], contribution)
          == binds + (contribution(args[0]) + Contributions(args[1..], contribution));
    }
  }

  /** When every argument serialiser only appends, the input binds survive
      as a prefix of the output. */
  lemma {:induction false} SerializeKeepsBinds<E, A, B>(f: Function<E>, binds: seq<B>, aliases: Option<A>,
                                                        serialize: ArgumentSerializer<E, A, B>)
    requires forall a, bs :: bs <= serialize(a, bs, aliases).1
    ensures binds <= Serialize(f, binds, aliases, serialize).1
  {
    ArgumentsKeepBinds(f.arguments, binds, aliases, serialize);
  }

  lemma {:induction false} ArgumentsKeepBinds<E, A, B>(args: seq<Argument<E>>, binds: seq<B>, aliases: Option<A>,
                                                       serialize: ArgumentSerializer<E, A, B>)
    requires forall a, bs :: bs <= serialize(a, bs, aliases).1
    ensures binds <= SerializeArguments(args, binds, aliases, serialize).1
    decreases |args|
  {
    if |args| > 0 {
      var next := serialize(args[0], binds, aliases).1;
      ArgumentsKeepBinds(args[1..], next, aliases, serialize);
    }
  }
}
