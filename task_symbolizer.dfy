/**
 * The symbol table of a task document: one scope per item whose definition parsed, holding
 * the task's symbol. The query is not applied: every symbol is listed.
 */
module TaskSymbolizer {
  import opened Wrappers
  import opened Ranges
  import opened Dsl
  import opened Segmenter
  import opened SegmenterFacts
  import opened Symbols
  import opened TaskService
  import TaskLenser

  /** The scope of an item: its task symbol, named as the lenser names it; none for an unparsed definition. */
  function ItemScope(it: Item<TaskNode>): (r: Option<Scope>)
    requires ItemOk(TaskDialect, it)
    ensures r.Some? <==> it.definition.node.Some?
    ensures r.Some? ==> (
      && r.value.nested == [] && |r.value.symbols| == 1
      && r.value.symbols[0].kind == TaskClass
      && r.value.symbols[0].name == NameOrUnnamed(TaskLenser.TaskName(it.definition))
      && r.value.symbols[0].range == Some(Range(
           Position(it.definition.range.value.start.line, it.definition.node.value.startPos),
           Position(it.definition.range.value.start.line, it.definition.node.value.endPos))))
  {
    var def := it.definition;
    if def.node.None? then None
    else
      var line := def.range.value.start.line;
      var node := def.node.value;
      Some(Scope([Symbol(TaskClass, NameOrUnnamed(TaskLenser.TaskName(def)), None,
        Some(Range(Position(line, node.startPos), Position(line, node.endPos))), [])], []))
  }

  /** The scopes of the items whose definitions parsed, in item order. */
  function ScopesOf(items: seq<Item<TaskNode>>): (r: seq<Scope>)
    requires forall i :: 0 <= i < |items| ==> ItemOk(TaskDialect, items[i])
    ensures |r| <= |items|
    decreases |items|
  {
    if |items| == 0 then []
    else
      var scope := ItemScope(items[|items| - 1]);
      ScopesOf(items[..|items| - 1]) + (if scope.Some? then [scope.value] else [])
  }

  /** The items whose definitions parsed, in item order. */
  function ParsedItems(items: seq<Item<TaskNode>>): (r: seq<Item<TaskNode>>)
    ensures |r| <= |items|
    ensures forall j :: 0 <= j < |r| ==> r[j].definition.node.Some? && r[j] in items
    ensures forall i :: 0 <= i < |items| && items[i].definition.node.Some? ==> items[i] in r
    decreases |items|
  {
    if |items| == 0 then []
    else
      var last := items[|items| - 1];
      ParsedItems(items[..|items| - 1]) + (if last.definition.node.Some? then [last] else [])
  }

  /** Filtering keeps the order: the parsed items of two runs of items, one after the other. */
  lemma {:induction false} ParsedItemsAppend(xs: seq<Item<TaskNode>>, ys: seq<Item<TaskNode>>)
    ensures ParsedItems(xs + ys) == ParsedItems(xs) + ParsedItems(ys)
    decreases |ys|
  {
    if |ys| == 0 {
      assert xs + ys == xs;
    } else {
      var front := ys[..|ys| - 1];
      assert (xs + ys)[..|xs + ys| - 1] == xs + front;
      ParsedItemsAppend(xs, front);
    }
  }

  /** One scope per parsed item, in item order: the j-th scope is the j-th parsed item's. */
  lemma {:induction false} ScopesOfParsed(items: seq<Item<TaskNode>>)
    requires forall i :: 0 <= i < |items| ==> ItemOk(TaskDialect, items[i])
    ensures |ScopesOf(items)| == |ParsedItems(items)|
    ensures forall j :: 0 <= j < |ParsedItems(items)| ==>
      ItemOk(TaskDialect, ParsedItems(items)[j]) && ScopesOf(items)[j] == ItemScope(ParsedItems(items)[j]).value
    decreases |items|
  {
    if |items| > 0 {
      var front := items[..|items| - 1];
      assert forall i :: 0 <= i < |front| ==> front[i] == items[i];
      ScopesOfParsed(front);
    }
  }

  /** buildTable: a global scope nesting one scope per parsed task. */
  method BuildTable(items: seq<Item<TaskNode>>) returns (table: Scope)
    requires forall i :: 0 <= i < |items| ==> ItemOk(TaskDialect, items[i])
    ensures table == Scope([], ScopesOf(items))
  {
    var scopes: seq<Scope> := [];
    for i := 0 to |items|
      invariant scopes == ScopesOf(items[..i])
    {
      assert items[..i + 1][..i] == items[..i];
      var scope := ItemScope(items[i]);
      if scope.Some? {
        scopes := scopes + [scope.value];
      }
    }
    assert items[..|items|] == items;
    table := Scope([], scopes);
  }

  /** Every task symbol of the table belongs to a parsed item: there is one per parsed item. */
  lemma {:induction false} TaskSymbolsCount(items: seq<Item<TaskNode>>)
    requires forall i :: 0 <= i < |items| ==> ItemOk(TaskDialect, items[i])
    ensures |ScopesOf(items)| == ParsedCount(items)
    decreases |items|
  {
    if |items| > 0 {
      var front := items[..|items| - 1];
      assert forall i :: 0 <= i < |front| ==> front[i] == items[i];
      TaskSymbolsCount(front);
    }
  }

  /** How many of the items have a parsed definition. */
  function ParsedCount(items: seq<Item<TaskNode>>): nat
    decreases |items|
  {
    if |items| == 0 then 0
    else ParsedCount(items[..|items| - 1]) + (if items[|items| - 1].definition.node.Some? then 1 else 0)
  }
}
