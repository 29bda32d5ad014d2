/**
 * Linting of a stream document: for each item, the problem its definition line reported, then
 * a "Stream name missing" problem when the stream has neither a parsed name nor a `@name` line.
 */
module StreamLinter {
  import opened Wrappers
  import opened Text
  import opened Ranges
  import opened Dsl
  import opened Segmenter
  import opened SegmenterFacts
  import opened SegmenterShape
  import opened StreamService
  import StreamLenser

  const NameMissing := "Stream name missing"

  /** definitionProblem: the problem the definition line reported, if any. */
  function DefinitionProblem<N>(it: Item<N>): (r: seq<Problem>)
    ensures |r| <= 1
    ensures r == [] <==> it.definition.problem.None?
    ensures it.definition.problem.Some? ==> r == [it.definition.problem.value]
  {
    if it.definition.problem.Some? then [it.definition.problem.value] else []
  }

  /**
   * nameProblem: a problem over the whole item when the parsed stream name has no text and
   * there is no `@name` line, or only an empty one. Only the parsed name counts here; the
   * value of a `@name` line is never read.
   */
  function NameProblem(it: Item<StreamNode>): (r: Option<Problem>)
    ensures r.Some? <==>
      && !(StreamLenser.ParsedName(it.definition).Some? && HasText(StreamLenser.ParsedName(it.definition).value))
      && (it.definition.nameItem.None? || |it.definition.nameItem.value.text| < 1)
    ensures r.Some? ==> r.value == Problem(NameMissing, it.range)
  {
    var name := StreamLenser.ParsedName(it.definition);
    if name.Some? && HasText(name.value) then None
    else
      var nameItem := it.definition.nameItem;
      if nameItem.None? || |nameItem.value.text| < 1 then Some(Problem(NameMissing, it.range))
      else None
  }

  /** The problems of one item: the definition's, then the name's. */
  function ItemProblems(it: Item<StreamNode>): (r: seq<Problem>)
    ensures |r| <= 2
    ensures |r| == |DefinitionProblem(it)| + (if NameProblem(it).Some? then 1 else 0)
    ensures r[..|DefinitionProblem(it)|] == DefinitionProblem(it)
    ensures NameProblem(it).Some? ==> r[|r| - 1] == NameProblem(it).value
  {
    DefinitionProblem(it) + (if NameProblem(it).Some? then [NameProblem(it).value] else [])
  }

  /** The problems of the items, item after item. */
  function ProblemsOf(items: seq<Item<StreamNode>>): seq<Problem>
    decreases |items|
  {
    if |items| == 0 then []
    else ProblemsOf(items[..|items| - 1]) + ItemProblems(items[|items| - 1])
  }

  /** lint of a stream document. */
  function Lint(parse: StreamParser, doc: seq<string>): (r: seq<Problem>)
    ensures doc == [] ==> r == []
    ensures |r| <= 2 * |DocumentItems(parse, doc)|
  {
    var items := DocumentItems(parse, doc);
    ProblemsOfBound(items);
    if doc == [] then
      EmptyDocument(StreamDialect, StreamDelegate(parse));
      ProblemsOf(items)
    else ProblemsOf(items)
  }

  /**
   * On the scanner's items a `@name` line always silences the name problem, even one with no
   * value: its text holds at least the token.
   */
  lemma NameLineSilences(it: Item<StreamNode>)
    requires ItemOk(StreamDialect, it)
    ensures it.definition.nameItem.Some? ==> NameProblem(it).None?
  {
    if it.definition.nameItem.Some? {
      var m := it.definition.nameItem.value;
      assert StartsWithAt(m.text, NamePrefix, m.contentRange.start.character);
    }
  }

  /** Every problem of a scanned stream document is the problem of a definition line or a missing name. */
  lemma {:induction false} ProblemsOrigin(items: seq<Item<StreamNode>>)
    ensures forall p :: p in ProblemsOf(items) ==>
      exists i :: 0 <= i < |items| && (Some(p) == items[i].definition.problem || p == Problem(NameMissing, items[i].range))
    decreases |items|
  {
    if |items| > 0 {
      var front := items[..|items| - 1];
      ProblemsOrigin(front);
      forall p | p in ProblemsOf(items)
        ensures exists i :: 0 <= i < |items| && (Some(p) == items[i].definition.problem || p == Problem(NameMissing, items[i].range))
      {
        if p in ProblemsOf(front) {
          var i :| 0 <= i < |front| && (Some(p) == front[i].definition.problem || p == Problem(NameMissing, front[i].range));
          assert items[i] == front[i];
        } else {
          assert Some(p) == items[|items| - 1].definition.problem || p == Problem(NameMissing, items[|items| - 1].range);
        }
      }
    }
  }

  /** How many problems the items get: at most two each. */
  lemma {:induction false} ProblemsOfBound(items: seq<Item<StreamNode>>)
    ensures |ProblemsOf(items)| <= 2 * |items|
    decreases |items|
  {
    if |items| > 0 {
      ProblemsOfBound(items[..|items| - 1]);
    }
  }
}
