/**
 * How the two task services parse a definition line. A task must have a name: an inline
 * `name=` prefix of the line wins, otherwise the `@name` line in force supplies it, and
 * without either the item gets a "must have a name" problem and the task parser is not
 * consulted. The parser receives the name and the rest of the line after the `=`.
 */
module TaskService {
  import opened Wrappers
  import opened Text
  import opened Ranges
  import opened Dsl
  import opened Segmenter
  import opened SegmenterShape

  const NoNameMessage := "Task Definition must have a name"

  /** The task grammar's parser, applied to a task name and the text of its definition. */
  type TaskParser = (string, string) -> ParseOutcome<TaskNode>

  /** The prefix of `text` up to and including its first `=`, if it has one. */
  function NameAssignment(text: string): (r: Option<string>)
    ensures r.Some? <==> '=' in text
    ensures r.Some? ==> (
      && 0 < |r.value| <= |text| && r.value == text[..|r.value|]
      && r.value[|r.value| - 1] == '=' && '=' !in r.value[..|r.value| - 1])
  {
    var i := CharIndexFrom(text, '=', 0);
    if i < |text| then
      assert text[..i + 1][..i] == text[..i];
      Some(text[..i + 1])
    else None
  }

  /**
   * parseName of the newer service: it walks the line from its first character, letters,
   * digits and whitespace as well as any other character, until the first `=`.
   */
  method ParseName(text: string) returns (r: Option<string>)
    ensures r == NameAssignment(text)
  {
    if |text| == 0 {
      return None;
    }
    var i := 0;
    while i < |text|
      invariant i <= |text| && '=' !in text[..i]
    {
      var c := text[i];
      if IsLetterOrDigit(c) || IsWhitespace(c) {
        i := i + 1;
        continue;
      } else if c == '=' {
        assert CharIndexFrom(text, '=', 0) == i;
        return Some(text[..i + 1]);
      }
      i := i + 1;
    }
    assert text[..i] == text;
    r := None;
  }

  /**
   * parseName of the older service, which reads the first character before looking at the
   * length: it throws on an empty text and otherwise agrees with the newer one.
   */
  function ParseNameOld(text: string): (r: Outcome<Option<string>>)
    ensures r.Throws? <==> |text| == 0
    ensures r.Value? ==> r.value == NameAssignment(text)
  {
    if |text| == 0 then Throws else Value(NameAssignment(text))
  }

  /** A definition line is never empty, so the older parseName never throws on one. */
  lemma DefinitionLineName(text: string)
    requires IsDefinitionLine(text)
    ensures ParseNameOld(text) == Value(NameAssignment(text))
  {
  }

  /** The inline name: the prefix trimmed, its last character (the `=`) dropped, trimmed again. */
  function InlineName(prefix: string): (r: string)
    requires HasText(prefix)
    ensures Trim(r) == r
    ensures |r| < |Trim(prefix)| <= |prefix|
  {
    TrimHasText(prefix);
    TrimIsSlice(prefix);
    var t := Trim(prefix);
    TrimIsSlice(t[..|t| - 1]);
    Trim(t[..|t| - 1])
  }

  /** The name an inline `name=` prefix gives holds no `=`. */
  lemma InlineNameHasNoEquals(text: string)
    requires NameAssignment(text).Some?
    ensures HasText(NameAssignment(text).value)
    ensures '=' !in InlineName(NameAssignment(text).value)
  {
    var p := NameAssignment(text).value;
    assert !IsWhitespace(p[|p| - 1]);
    var a, b := TrimDropLast(p);
    assert '=' !in p[a..b - 1] by {
      forall k | a <= k < b - 1
        ensures p[k] != '='
      {
        assert p[k] == p[..|p| - 1][k];
      }
    }
    TrimKeepsOut(p[a..b - 1], '=');
  }

  /**
   * On a definition line the inline name is never blank: the line's first non-blank character
   * is a letter or digit, which comes before the first `=` and survives both trims.
   */
  lemma InlineNameHasText(text: string)
    requires IsDefinitionLine(text) && '=' in text
    ensures HasText(InlineName(NameAssignment(text).value))
  {
    var p := NameAssignment(text).value;
    var w := WhitespaceEnd(text, 0);
    assert TrimStart(text)[0] == text[w];
    assert p[|p| - 1] == text[|p| - 1] == '=';
    assert w < |p| - 1;
    assert p[w] == text[w];
    var i := WhitespaceEnd(p, 0);
    assert i <= w;
    var u := p[i..];
    assert u[|u| - 1] == '=';
    assert Trim(p) == u;
    var d := p[i..|p| - 1];
    assert Trim(p)[..|Trim(p)| - 1] == d;
    assert d[w - i] == p[w];
    TrimHasText(d);
    TrimIsSlice(d);
    TrimHasText(Trim(d));
  }

  /**
   * The name the `@name` line in force supplies in the newer service: the text from six
   * characters past its content start, trimmed, provided the line is longer than that offset.
   */
  function NameFromItem(nameItem: Option<MetadataItem>): (r: Option<string>)
    ensures r.Some? <==> nameItem.Some? && |nameItem.value.text| > nameItem.value.contentRange.start.character + 6
    ensures r.Some? ==> Trim(r.value) == r.value
  {
    match nameItem
    case None => None
    case Some(m) =>
      var s := m.contentRange.start.character + 6;
      if |m.text| > s then TrimIsSlice(m.text[s..]); Some(Trim(m.text[s..])) else None
  }

  /**
   * The same in the older service, which takes the substring without a length check: it
   * throws when the line ends before the offset.
   */
  function NameFromItemOld(nameItem: Option<MetadataItem>): (r: Outcome<Option<string>>)
    ensures r.Throws? <==> nameItem.Some? && |nameItem.value.text| < nameItem.value.contentRange.start.character + 6
    ensures r.Value? ==> (r.value.Some? <==> nameItem.Some?)
  {
    match nameItem
    case None => Value(None)
    case Some(m) =>
      match Substring(m.text, m.contentRange.start.character + 6, |m.text|)
      case Throws => Throws
      case Value(s) => Value(Some(Trim(s)))
  }

  /** The task name of a definition line in the newer service: inline, else from the `@name` line. */
  function TaskName(text: string, nameItem: Option<MetadataItem>): Option<string>
  {
    match NameAssignment(text)
    case Some(prefix) => InlineNameHasNoEquals(text); Some(InlineName(prefix))
    case None => NameFromItem(nameItem)
  }

  /** An inline name wins over the `@name` line; without one, the `@name` line decides. */
  lemma TaskNameChoice(text: string, nameItem: Option<MetadataItem>)
    ensures '=' in text ==> (
      && TaskName(text, nameItem).Some? && '=' !in TaskName(text, nameItem).value
      && TaskName(text, nameItem) == TaskName(text, None))
    ensures '=' !in text ==> TaskName(text, nameItem) == NameFromItem(nameItem)
  {
    if '=' in text {
      InlineNameHasNoEquals(text);
    }
  }

  /** What the parser reads: the line after the inline prefix, or the whole line without one. */
  function DefinitionBody(text: string): (r: string)
    ensures NameAssignment(text).Some? ==> text == NameAssignment(text).value + r
    ensures NameAssignment(text).None? ==> r == text
  {
    match NameAssignment(text)
    case Some(prefix) =>
      assert text == text[..|prefix|] + text[|prefix|..];
      text[|prefix|..]
    case None => text
  }

  /**
   * A definition line once its name is decided: without a name, the "must have a name"
   * problem at column 0 of the line; with one, the parser's node, or its error as a problem
   * at the error offset of the line.
   */
  function NamedDefinition(parse: TaskParser, name: Option<string>, body: string, line: nat): (r: DefinitionParse<TaskNode>)
    ensures r.nameRange.None? && (r.node.Some? <==> r.problem.None?)
    ensures name.None? ==> r.node.None? && r.problem == Some(Problem(NoNameMessage, PointRange(line, 0)))
    ensures name.Some? ==> (r.node.Some? <==> parse(name.value, body).Parsed?)
    ensures name.Some? && r.node.Some? ==> r.node.value == parse(name.value, body).node
    ensures name.Some? && r.problem.Some? ==>
      r.problem.value.message == parse(name.value, body).error.message
      && r.problem.value.range == PointRange(line, parse(name.value, body).error.position)
  {
    match name
    case None => DefinitionParse(None, None, Some(Problem(NoNameMessage, PointRange(line, 0))))
    case Some(n) =>
      match parse(n, body)
      case Parsed(node) => DefinitionParse(Some(node), None, None)
      case Failed(e) => DefinitionParse(None, None, Some(Problem(e.message, PointRange(line, e.position))))
  }

  /** Without a name the parser is not consulted: any two parsers give the same result. */
  lemma NoNameNoParse(p1: TaskParser, p2: TaskParser, body: string, line: nat)
    ensures NamedDefinition(p1, None, body, line) == NamedDefinition(p2, None, body, line)
  {
  }

  /**
   * parseDefinition of the newer task service: an inline name is parsed with the rest of the
   * line; without one, a `@name` line longer than six characters past its content start
   * supplies the trimmed name and the parser reads the whole line; otherwise the line gets the
   * "must have a name" problem at column 0 and no node.
   */
  function TaskDefinition(parse: TaskParser, text: string, nameItem: Option<MetadataItem>, line: nat): (r: DefinitionParse<TaskNode>)
    ensures r.nameRange.None? && (r.node.Some? <==> r.problem.None?)
    ensures '=' in text ==> (
      && HasText(NameAssignment(text).value)
      && (r.node.Some? <==> parse(InlineName(NameAssignment(text).value), text[|NameAssignment(text).value|..]).Parsed?))
    ensures '=' !in text && nameItem.Some? && |nameItem.value.text| > nameItem.value.contentRange.start.character + 6 ==>
      (r.node.Some? <==>
        parse(Trim(nameItem.value.text[nameItem.value.contentRange.start.character + 6..]), text).Parsed?)
    ensures '=' !in text && (nameItem.None? || |nameItem.value.text| <= nameItem.value.contentRange.start.character + 6) ==>
      r.node.None? && r.problem == Some(Problem(NoNameMessage, PointRange(line, 0)))
  {
    if '=' in text then InlineNameHasNoEquals(text); NamedDefinition(parse, TaskName(text, nameItem), DefinitionBody(text), line)
    else NamedDefinition(parse, TaskName(text, nameItem), DefinitionBody(text), line)
  }

  /** The task name in the older service, where reading it may throw. */
  function OldTaskName(text: string, nameItem: Option<MetadataItem>): Outcome<Option<string>>
  {
    match ParseNameOld(text)
    case Throws => Throws
    case Value(Some(prefix)) => InlineNameHasNoEquals(text); Value(Some(InlineName(prefix)))
    case Value(None) => NameFromItemOld(nameItem)
  }

  /**
   * parseDefinition of the older task service: it throws on an empty line, and when the name
   * must come from an `@name` line that ends before six characters past its content start;
   * otherwise the line gets a node or a problem, never both.
   */
  function OldTaskDefinition(parse: TaskParser, text: string, nameItem: Option<MetadataItem>, line: nat): (r: Outcome<DefinitionParse<TaskNode>>)
    ensures r.Throws? <==>
      |text| == 0 || ('=' !in text && nameItem.Some? && |nameItem.value.text| < nameItem.value.contentRange.start.character + 6)
    ensures r.Value? ==> r.value.nameRange.None? && (r.value.node.Some? <==> r.value.problem.None?)
  {
    match OldTaskName(text, nameItem)
    case Throws => Throws
    case Value(name) => Value(NamedDefinition(parse, name, DefinitionBody(text), line))
  }

  /**
   * The older service throws exactly on an empty line, or when the name must come from an
   * `@name` line that ends less than six characters past its content start; apart from a line
   * that ends exactly there, it otherwise parses as the newer service does.
   */
  lemma OldTaskDefinitionAgrees(parse: TaskParser, text: string, nameItem: Option<MetadataItem>, line: nat)
    ensures OldTaskDefinition(parse, text, nameItem, line).Throws? <==>
      |text| == 0 || ('=' !in text && nameItem.Some? && |nameItem.value.text| < nameItem.value.contentRange.start.character + 6)
    ensures (
      && OldTaskDefinition(parse, text, nameItem, line).Value?
      && (nameItem.Some? ==> |nameItem.value.text| != nameItem.value.contentRange.start.character + 6)) ==>
      OldTaskDefinition(parse, text, nameItem, line).value == TaskDefinition(parse, text, nameItem, line)
  {
    if nameItem.Some? && |nameItem.value.text| >= nameItem.value.contentRange.start.character + 6 {
      var m := nameItem.value;
      assert m.text[m.contentRange.start.character + 6..|m.text|] == m.text[m.contentRange.start.character + 6..];
    }
  }

  /**
   * An `@name` line that ends exactly six characters past its content start, as `-- @name `
   * with one trailing space does: the older service reads an empty name and hands it to the
   * parser, where the newer service reports the missing name.
   */
  lemma OldTaskDefinitionAtCut(parse: TaskParser, text: string, nameItem: Option<MetadataItem>, line: nat)
    requires |text| > 0 && '=' !in text && nameItem.Some?
    requires |nameItem.value.text| == nameItem.value.contentRange.start.character + 6
    ensures OldTaskDefinition(parse, text, nameItem, line) == Value(NamedDefinition(parse, Some(""), text, line))
    ensures TaskDefinition(parse, text, nameItem, line).problem == Some(Problem(NoNameMessage, PointRange(line, 0)))
  {
    var m := nameItem.value;
    assert Substring(m.text, m.contentRange.start.character + 6, |m.text|) == Value([]);
    assert WhitespaceEnd([], 0) == 0;
  }

  function TaskDelegate(parse: TaskParser): Delegate<TaskNode>
  {
    (text: string, nameItem: Option<MetadataItem>, line: nat) => Value(TaskDefinition(parse, text, nameItem, line))
  }

  function OldTaskDelegate(parse: TaskParser): Delegate<TaskNode>
  {
    (text: string, nameItem: Option<MetadataItem>, line: nat) => OldTaskDefinition(parse, text, nameItem, line)
  }

  /** Segmenting a task document with the newer service never throws. */
  lemma TaskItemsNeverThrow(parse: TaskParser, doc: seq<string>)
    ensures Items(TaskDialect, TaskDelegate(parse), doc).Value?
  {
    assert NeverThrows(TaskDelegate(parse));
    ItemsNeverThrow(TaskDialect, TaskDelegate(parse), doc, 0);
  }

  /** The bare `@name` line of the example document below, as the task scanner records it. */
  function BareName(): MetadataItem
  {
    MetadataItem(Range(Position(0, 0), Position(0, 8)), Range(Position(0, 3), Position(0, 8)), "-- @name")
  }

  /** Reading the line `-- @name` puts it in the `@name` slot, with its content starting at column 3. */
  lemma BareNameRead(doc: seq<string>)
    requires |doc| == 2 && doc[0] == "-- @name"
    ensures ScanTo(TaskDialect, doc, 0, 1).name == Some(BareName())
  {
    assert ContentStart(doc[0]) == 3 by {
      assert ContentStartFrom(doc[0], 3) == 3;
    }
    assert !StartsWithAt(doc[0], EnvPrefix, 3) by {
      StartsWithAtSlice(doc[0], EnvPrefix, 3);
      assert doc[0][4] != EnvPrefix[1];
    }
    assert StartsWithAt(doc[0], NamePrefix, 3) by {
      StartsWithAtSlice(doc[0], NamePrefix, 3);
    }
    assert IsMarkerLine(doc[0]) by {
      assert WhitespaceEnd(doc[0], 0) == 0;
    }
    ClassifyOrder(TaskDialect, doc[0], 3);
    ScanToNext(TaskDialect, doc, 0, 0);
  }

  /** In the example document the definition line `timestamp` is closed with the bare `@name` line in force. */
  lemma BareNameFirstItem<N>(dl: Delegate<N>, doc: seq<string>)
    requires doc == ["-- @name", "timestamp"]
    ensures NextDefinitionLine(doc, 0) == 1
    ensures match ScanFrom(TaskDialect, dl, doc, 0)
      case Emit(it) => DefinitionShaped(dl, doc, 0, 1, it) && it.definition.nameItem == Some(BareName())
      case Exhausted => false
      case Aborted => dl(doc[1], Some(BareName()), 1).Throws?
  {
    assert !IsDefinitionLine(doc[0]) by {
      assert WhitespaceEnd(doc[0], 0) == 0;
    }
    assert IsDefinitionLine(doc[1]) by {
      assert WhitespaceEnd(doc[1], 0) == 0;
      assert TrimStart(doc[1])[0] == 't';
      assert !IsWhitespace(doc[1][0]);
    }
    assert NextDefinitionLine(doc, 0) == 1;
    BareNameRead(doc);
    FirstItem(TaskDialect, dl, doc, 0);
    ScanToConsistent(TaskDialect, doc, 0, 1);
  }

  /** `timestamp` has no inline name. */
  lemma TimestampHasNoName()
    ensures NameAssignment("timestamp").None?
  {
    var t := "timestamp";
    assert forall k :: 0 <= k < |t| ==> t[k] != '=';
  }

  /**
   * A bare `-- @name` line above a definition line without an inline name: the older service
   * throws out of the whole segmentation, because it reads the name from six characters past
   * the content start of an eight-character line.
   */
  lemma BareNameLineThrows(parse: TaskParser)
    ensures Items(TaskDialect, OldTaskDelegate(parse), ["-- @name", "timestamp"]) == Throws
  {
    TimestampHasNoName();
    assert OldTaskDefinition(parse, "timestamp", Some(BareName()), 1) == Throws;
    BareNameFirstItem(OldTaskDelegate(parse), ["-- @name", "timestamp"]);
  }

  /** The newer service reports the missing name on the same document instead. */
  lemma BareNameLineProblem(parse: TaskParser)
    ensures var items := Items(TaskDialect, TaskDelegate(parse), ["-- @name", "timestamp"]);
      && items.Value? && |items.value| == 1
      && items.value[0].definition.node.None?
      && items.value[0].definition.problem == Some(Problem(NoNameMessage, PointRange(1, 0)))
  {
    var doc := ["-- @name", "timestamp"];
    TimestampHasNoName();
    assert TaskName(doc[1], Some(BareName())).None?;
    BareNameFirstItem(TaskDelegate(parse), doc);
    var it := ScanFrom(TaskDialect, TaskDelegate(parse), doc, 0).item;
    assert it.range.end.line == 1;
    ItemsFromLast(TaskDialect, TaskDelegate(parse), doc, 0);
  }
}
