/**
 * How the two stream services parse a definition line, and what that makes of their
 * segmentation: the newer service anchors a parse error on the definition line and finds the
 * stream name in the line, the older one anchors every error on line 0 and records no name
 * range. Neither lets an exception escape, so segmenting a stream document never fails.
 */
module StreamService {
  import opened Wrappers
  import opened Text
  import opened Ranges
  import opened Dsl
  import opened Segmenter
  import opened SegmenterFacts
  import opened SegmenterShape
  import opened Environment

  /** The stream grammar's parser, applied to the text of a definition line. */
  type StreamParser = string -> ParseOutcome<StreamNode>

  /**
   * Where the parsed stream name sits on line `line`: at its first occurrence in the line's
   * text, when the name has text and occurs at all.
   */
  function NameRange(name: Option<string>, text: string, line: nat): (r: Option<Range>)
    ensures r.Some? ==> (
      && name.Some? && HasText(name.value)
      && r.value.start.line == line && r.value.end.line == line
      && r.value.end.character == r.value.start.character + |name.value|
      && StartsWithAt(text, name.value, r.value.start.character)
      && forall k :: 0 <= k < r.value.start.character ==> !StartsWithAt(text, name.value, k))
    ensures r.None? ==> name.None? || !HasText(name.value) || !Contains(text, name.value)
  {
    if name.Some? && HasText(name.value) then
      var index := IndexOf(text, name.value);
      if index > -1 then Some(Range(Position(line, index), Position(line, index + |name.value|))) else None
    else None
  }

  /**
   * parseDefinition of the newer stream service: the node when the line parses, with the range
   * of its name; otherwise the parser's message as a problem at the error offset of the
   * definition line.
   */
  function StreamDefinition(parse: StreamParser, text: string, line: nat): (r: DefinitionParse<StreamNode>)
    ensures r.node.Some? <==> r.problem.None?
    ensures r.node.Some? <==> parse(text).Parsed?
    ensures r.node.Some? ==> r.node.value == parse(text).node
    ensures r.nameRange.Some? ==> r.node.Some? && r.nameRange == NameRange(r.node.value.name, text, line)
    ensures r.problem.Some? ==>
      r.problem.value.message == parse(text).error.message
      && r.problem.value.range == PointRange(line, parse(text).error.position)
  {
    match parse(text)
    case Parsed(node) => DefinitionParse(Some(node), NameRange(node.name, text, line), None)
    case Failed(e) => DefinitionParse(None, None, Some(Problem(e.message, PointRange(line, e.position))))
  }

  /**
   * parseDefinition of the older stream service: the node, or the parser's message as a
   * problem at the error offset of line 0, whatever line the definition is on; never a name
   * range.
   */
  function OldStreamDefinition(parse: StreamParser, text: string): (r: DefinitionParse<StreamNode>)
    ensures r.node.Some? <==> r.problem.None?
    ensures r.node.Some? <==> parse(text).Parsed?
    ensures r.nameRange.None?
    ensures r.problem.Some? ==> r.problem.value.range == PointRange(0, parse(text).error.position)
  {
    match parse(text)
    case Parsed(node) => DefinitionParse(Some(node), None, None)
    case Failed(e) => DefinitionParse(None, None, Some(Problem(e.message, PointRange(0, e.position))))
  }

  function StreamDelegate(parse: StreamParser): Delegate<StreamNode>
  {
    (text: string, nameItem: Option<MetadataItem>, line: nat) => Value(StreamDefinition(parse, text, line))
  }

  function OldStreamDelegate(parse: StreamParser): Delegate<StreamNode>
  {
    (text: string, nameItem: Option<MetadataItem>, line: nat) => Value(OldStreamDefinition(parse, text))
  }

  /** Segmenting a stream document never throws: every parse error becomes a problem. */
  lemma StreamItemsNeverThrow(parse: StreamParser, doc: seq<string>)
    ensures Items(StreamDialect, StreamDelegate(parse), doc).Value?
    ensures Items(StreamDialect, OldStreamDelegate(parse), doc).Value?
  {
    assert NeverThrows(StreamDelegate(parse));
    assert NeverThrows(OldStreamDelegate(parse));
    ItemsNeverThrow(StreamDialect, StreamDelegate(parse), doc, 0);
    ItemsNeverThrow(StreamDialect, OldStreamDelegate(parse), doc, 0);
  }

  /** The items of a stream document as the newer service segments it. */
  function DocumentItems(parse: StreamParser, doc: seq<string>): (r: seq<Item<StreamNode>>)
    ensures Items(StreamDialect, StreamDelegate(parse), doc) == Value(r)
    ensures forall i :: 0 <= i < |r| ==> ItemOk(StreamDialect, r[i])
  {
    StreamItemsNeverThrow(parse, doc);
    ItemsOk(StreamDialect, StreamDelegate(parse), doc, 0);
    Items(StreamDialect, StreamDelegate(parse), doc).value
  }

  /** The items of a stream document as the older service segments it. */
  function OldDocumentItems(parse: StreamParser, doc: seq<string>): (r: seq<Item<StreamNode>>)
    ensures Items(StreamDialect, OldStreamDelegate(parse), doc) == Value(r)
    ensures forall i :: 0 <= i < |r| ==> ItemOk(StreamDialect, r[i])
  {
    StreamItemsNeverThrow(parse, doc);
    ItemsOk(StreamDialect, OldStreamDelegate(parse), doc, 0);
    Items(StreamDialect, OldStreamDelegate(parse), doc).value
  }

  /** An item as the older service reports it: no name range, and a problem moved to line 0. */
  function OldView(it: Item<StreamNode>): Item<StreamNode>
  {
    var p := it.definition.problem;
    var moved := if p.Some? then Some(Problem(p.value.message, PointRange(0, p.value.range.start.character))) else None;
    it.(definition := it.definition.(nameRange := None, problem := moved))
  }

  /** The older service's parse of a line is the newer one's, seen as the older service reports it. */
  lemma OldDefinitionView(parse: StreamParser, text: string, line: nat)
    ensures var p := StreamDefinition(parse, text, line);
      var moved := if p.problem.Some? then Some(Problem(p.problem.value.message, PointRange(0, p.problem.value.range.start.character))) else None;
      OldStreamDefinition(parse, text) == p.(nameRange := None, problem := moved)
  {
  }

  /** One search of the older service finds the newer service's item, seen as the older one reports it. */
  lemma ScanFromOldView(d: Dialect, parse: StreamParser, doc: seq<string>, start: nat)
    requires start <= |doc|
    ensures var n := ScanFrom(d, StreamDelegate(parse), doc, start);
      ScanFrom(d, OldStreamDelegate(parse), doc, start) == if n.Emit? then Emit(OldView(n.item)) else n
  {
    var L := NextDefinitionLine(doc, start);
    if L < |doc| {
      OldDefinitionView(parse, doc[L], L);
    }
  }

  /**
   * Both stream services segment a document alike: the older service's items are the newer
   * service's items with no name range and with each problem moved to line 0.
   */
  lemma OldStreamItems(d: Dialect, parse: StreamParser, doc: seq<string>, start: nat)
    requires start <= |doc|
    ensures ItemsFrom(d, OldStreamDelegate(parse), doc, start) == MapItems(OldView, ItemsFrom(d, StreamDelegate(parse), doc, start))
  {
    forall s: nat | s <= |doc|
      ensures var n := ScanFrom(d, StreamDelegate(parse), doc, s);
        ScanFrom(d, OldStreamDelegate(parse), doc, s) == if n.Emit? then Emit(OldView(n.item)) else n
    {
      ScanFromOldView(d, parse, doc, s);
    }
    ItemsFromMapped(d, StreamDelegate(parse), OldStreamDelegate(parse), OldView, doc, start);
  }

  /** The bare `@env` line of the example document below, as the scanner records it. */
  function BareEnv(): MetadataItem
  {
    MetadataItem(Range(Position(0, 0), Position(0, 6)), Range(Position(0, 2), Position(0, 6)), "# @env")
  }

  /** Reading the line `# @env` puts it in the `@env` slot, with its content starting at column 2. */
  lemma BareEnvRead(doc: seq<string>)
    requires |doc| == 2 && doc[0] == "# @env"
    ensures ScanTo(StreamDialect, doc, 0, 1).env == Some(BareEnv())
  {
    assert ContentStart(doc[0]) == 2 by {
      assert ContentStartFrom(doc[0], 2) == 2;
    }
    assert StartsWithAt(doc[0], EnvPrefix, 2) by {
      StartsWithAtSlice(doc[0], EnvPrefix, 2);
    }
    assert IsMarkerLine(doc[0]) by {
      assert WhitespaceEnd(doc[0], 0) == 0;
    }
    ClassifyOrder(StreamDialect, doc[0], 2);
    ScanToNext(StreamDialect, doc, 0, 0);
  }

  /** The example document is one item, covering both lines, with the bare `@env` line in force. */
  lemma BareEnvItems(parse: StreamParser, doc: seq<string>)
    requires doc == ["# @env", "time | log"]
    ensures var items := Items(StreamDialect, StreamDelegate(parse), doc);
      && items.Value? && |items.value| == 1
      && items.value[0].definition.envItem == Some(BareEnv())
      && items.value[0].range == Range(Position(0, 0), Position(1, 10))
  {
    var dl := StreamDelegate(parse);
    assert !IsDefinitionLine(doc[0]) by {
      assert WhitespaceEnd(doc[0], 0) == 0;
    }
    assert IsDefinitionLine(doc[1]) by {
      assert WhitespaceEnd(doc[1], 0) == 0;
      assert TrimStart(doc[1])[0] == 't';
      assert !IsWhitespace(doc[1][0]);
    }
    assert NextDefinitionLine(doc, 0) == 1;
    BareEnvRead(doc);
    FirstItem(StreamDialect, dl, doc, 0);
    assert dl(doc[1], ScanTo(StreamDialect, doc, 0, 1).name, 1).Value?;
    var it := ScanFrom(StreamDialect, dl, doc, 0).item;
    assert it.range.end.line == 1;
    ItemsFromLast(StreamDialect, dl, doc, 0);
  }

  /**
   * A bare `# @env` line above a definition: looking up the environment anywhere in the item
   * throws, because the services read the name from five characters past the content start of
   * a six-character line, and so does resolving the environment, whatever the session default;
   * the guarded lookup finds no environment there.
   */
  lemma BareEnvLineThrows(parse: StreamParser, params: EnvironmentParams)
    ensures var items := Items(StreamDialect, StreamDelegate(parse), ["# @env", "time | log"]);
      && items.Value?
      && DefinedEnvironmentAsWritten(items.value, Position(1, 0), 0).Throws?
      && ResolveStreamEnvironment(items.value, Position(1, 0), params).Throws?
      && DefinedEnvironment(items.value, Position(1, 0)).None?
  {
    BareEnvItems(parse, ["# @env", "time | log"]);
    assert EnvName(BareEnv()) == "";
    assert !HasText("");
  }
}
