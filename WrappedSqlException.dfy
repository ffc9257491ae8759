/**
 * `WrappedSqliteException`: the diagnostic text it keeps for a failed command.
 * A parameter is modelled by its name, whether its type is `SqlDbType.Int`,
 * and the `ToString()` text of its value, absent when the value is null.
 */
module WrappedSqlException {
  import opened Wrappers

  datatype Parameter = Parameter(name: string, isInt: bool, value: Option<string>)

  /** `string.Join(separator, items)` */
  function Join(separator: string, items: seq<string>): (r: string)
    ensures items == [] ==> r == ""
    ensures items != [] ==> |r| >= |items[0]| && r[..|items[0]|] == items[0]
  {
    if items == [] then ""
    else if |items| == 1 then items[0]
    else items[0] + separator + Join(separator, items[1..])
  }

  /** Joining one more item adds the separator and the item at the end. */
  lemma {:induction false} JoinSnoc(separator: string, items: seq<string>, x: string)
    requires items != []
    ensures Join(separator, items + [x]) == Join(separator, items) + (separator + x)
  {
    if |items| > 1 {
      JoinSnoc(separator, items[1..], x);
      assert (items + [x])[1..] == items[1..] + [x];
    }
  }

  /** The text of a parameter's value: bare for an `Int`, single-quoted otherwise; null gives nothing between the quotes. */
  function ValueText(p: Parameter): (r: string)
    ensures p.isInt && p.value.Some? ==> r == p.value.value
    ensures p.isInt && p.value.None? ==> r == ""
    ensures !p.isInt ==> |r| >= 2 && r[0] == '\'' && r[|r| - 1] == '\''
    ensures !p.isInt ==> r[1..|r| - 1] == (if p.value.Some? then p.value.value else "")
  {
    var text := if p.value.Some? then p.value.value else "";
    if p.isInt then text else "'" + text + "'"
  }

  /** `"@" + name + " = " + value` for one parameter. */
  function Entry(p: Parameter): string {
    "@" + p.name + " = " + ValueText(p)
  }

  /** The `Select` over the parameters: one entry per parameter, in parameter order. */
  function Entries(parameters: seq<Parameter>): (r: seq<string>)
    ensures |r| == |parameters|
    ensures forall i :: 0 <= i < |r| ==> r[i] == Entry(parameters[i])
  {
    seq(|parameters|, i requires 0 <= i < |parameters| => Entry(parameters[i]))
  }

  /**
   * `GetQuery(command)`: the command text alone when there are no parameters,
   * otherwise `exec <text> <entry>, <entry>, ...`.
   */
  function GetQuery(commandText: string, parameters: seq<Parameter>): (r: string)
    ensures parameters == [] ==> r == commandText
  {
    if |parameters| <= 0 then commandText
    else ExecPrefix(commandText) + Join(", ", Entries(parameters))
  }

  function ExecPrefix(commandText: string): string {
    "exec " + commandText + " "
  }

  /**
   * Adding one parameter at the end appends one entry: after `exec <text> `
   * for the first parameter, after `, ` for each later one. So the rendered
   * query lists one entry per parameter, in parameter order.
   */
  lemma GetQueryAppend(commandText: string, parameters: seq<Parameter>, p: Parameter)
    ensures GetQuery(commandText, parameters + [p]) ==
      (if parameters == [] then ExecPrefix(commandText) else GetQuery(commandText, parameters) + ", ") + Entry(p)
  {
    EntriesSnoc(parameters, p);
    JoinedAppend(ExecPrefix(commandText), Entries(parameters), Entry(p));
  }

  lemma JoinedAppend(head: string, items: seq<string>, x: string)
    ensures head + Join(", ", items + [x]) == (if items == [] then head else head + Join(", ", items) + ", ") + x
  {
    if items != [] {
      JoinSnoc(", ", items, x);
    } else {
      assert items + [x] == [x];
    }
  }

  lemma EntriesSnoc(parameters: seq<Parameter>, p: Parameter)
    ensures Entries(parameters + [p]) == Entries(parameters) + [Entry(p)]
  {
    var all := parameters + [p];
    assert forall i :: 0 <= i < |parameters| ==> all[i] == parameters[i];
  }

  /** `new WrappedSqliteException(innerException, command)`: the inner message and the rendered query. */
  datatype WrappedSqliteException = WrappedSqliteException(message: string, query: string) {

    /** `ToString()`, where `baseText` is what `Exception.ToString()` gives for this exception. */
    function ToString(baseText: string): (r: string)
      ensures |r| == 15 + |query| + |baseText|
      ensures r[..13] == "\r\nSql Query: "
      ensures r[13..13 + |query|] == query
      ensures r[13 + |query|..] == "\r\n" + baseText
    {
      "\r\nSql Query: " + query + "\r\n" + baseText
    }
  }

  function Wrap(innerMessage: string, commandText: string, parameters: seq<Parameter>): (e: WrappedSqliteException)
    ensures e.message == innerMessage
    ensures e.query == GetQuery(commandText, parameters)
    ensures parameters == [] ==> e.query == commandText
  {
    WrappedSqliteException(innerMessage, GetQuery(commandText, parameters))
  }
}
