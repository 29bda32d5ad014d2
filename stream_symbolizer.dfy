/**
 * The symbol table of a stream document: for every item whose definition parsed, a scope
 * holding a scope for the `@name` line's symbol and a scope for the stream's symbol, which
 * defines the name, the apps with their options, and the references of a source
 * destination. A query filters the table's symbols by kind and name.
 */
module StreamSymbolizer {
  import opened Wrappers
  import opened Text
  import opened Ranges
  import opened Dsl
  import opened Segmenter
  import opened SegmenterFacts
  import opened SegmenterShape
  import opened Symbols
  import opened StreamService
  import StreamLenser

  /**
   * The role of app `i` of `n`: reading from a source destination, the last app is the sink
   * and the others are processors; otherwise the first app is the source, the last one the
   * sink and the ones between them processors.
   */
  function AppKind(i: nat, n: nat, hasSourceDestination: bool): (r: SymbolKind)
    requires i < n
    ensures r == Source || r == Processor || r == Sink
    ensures r == Source <==> !hasSourceDestination && i == 0
    ensures r == Sink <==> i == n - 1 && (hasSourceDestination || i > 0)
  {
    if hasSourceDestination then
      if i == n - 1 then Sink else Processor
    else if i == 0 then Source
    else if i == n - 1 then Sink
    else Processor
  }

  /** The detail text of an app's role. */
  function RoleDetail(k: SymbolKind): string
  {
    match k
    case Source => "source"
    case Sink => "sink"
    case _ => "processor"
  }

  /** A range on one line between two offsets. */
  function LineSpan(line: nat, from: nat, to: nat): (r: Range)
    ensures r.start.line == r.end.line == line && r.start.character == from && r.end.character == to
  {
    Range(Position(line, from), Position(line, to))
  }

  /** The symbol of an app option, at its offsets on the definition line. */
  function ArgumentSymbol(arg: ArgumentNode, line: nat): Symbol
  {
    Symbol(AppOption, arg.name, None, Some(LineSpan(line, arg.startPos, arg.endPos)), [])
  }

  /** The symbol of app `i` of a stream of `n` apps, defining one symbol per option. */
  function AppSymbol(app: AppNode, i: nat, n: nat, hasSourceDestination: bool, line: nat): (r: Symbol)
    requires i < n
    ensures r.kind == AppKind(i, n, hasSourceDestination) && r.name == app.name
    ensures r.range == Some(LineSpan(line, app.startPos, app.endPos))
    ensures |r.members| == |app.arguments|
    ensures forall j :: 0 <= j < |app.arguments| ==>
      r.members[j].kind == AppOption && r.members[j].name == app.arguments[j].name
  {
    var kind := AppKind(i, n, hasSourceDestination);
    var options := seq(|app.arguments|, j requires 0 <= j < |app.arguments| => ArgumentSymbol(app.arguments[j], line));
    Symbol(kind, app.name, Some(RoleDetail(kind)), Some(LineSpan(line, app.startPos, app.endPos)), options)
  }

  /** The symbols of the stream's apps, in stream order. */
  function AppSymbols(node: StreamNode, line: nat): (r: seq<Symbol>)
    ensures |r| == |node.apps|
    ensures forall i :: 0 <= i < |node.apps| ==>
      r[i] == AppSymbol(node.apps[i], i, |node.apps|, node.sourceDestination.Some?, line)
  {
    var n := |node.apps|;
    seq(n, i requires 0 <= i < n => AppSymbol(node.apps[i], i, n, node.sourceDestination.Some?, line))
  }

  /** The text of the source destination, when the stream reads from one. */
  function DestinationText(node: StreamNode): (r: Option<string>)
    ensures r.Some? <==> node.sourceDestination.Some?
  {
    match node.sourceDestination
    case None => None
    case Some(d) => Some(node.streamText[d.startPos..d.endPos])
  }

  /** The symbol's range runs between offsets of `text` that hold exactly its name. */
  predicate Covers(text: string, s: Symbol)
  {
    && s.range.Some?
    && s.range.value.start.character <= s.range.value.end.character <= |text|
    && text[s.range.value.start.character..s.range.value.end.character] == s.name
  }

  /** The two pieces of a split destination sit at its start and, unless it ends with `.`, at its end. */
  lemma PiecesInText(text: string, a: nat, b: nat)
    requires a <= b <= |text| && |JavaSplit(text[a..b], '.')| == 2
    ensures var split := JavaSplit(text[a..b], '.');
      && a + |split[0]| + 1 + |split[1]| <= b
      && text[a..a + |split[0]|] == split[0]
      && (text[b - 1] != '.' ==> text[b - |split[1]|..b] == split[1])
  {
    var destText := text[a..b];
    var split := JavaSplit(destText, '.');
    JavaSplitTwo(destText, '.');
    assert text[a..a + |split[0]|] == destText[..|split[0]|];
    if text[b - 1] != '.' {
      assert destText[|destText| - 1] == text[b - 1];
      assert destText[|destText| - |split[1]|..] == split[1];
      assert text[b - |split[1]|..b] == destText[|destText| - |split[1]|..];
    }
  }

  /** The stream reads from a source destination whose text ends with `.`. */
  predicate DestinationEndsWithDot(node: StreamNode)
  {
    var text := DestinationText(node);
    text.Some? && |text.value| > 0 && text.value[|text.value| - 1] == '.'
  }

  /**
   * The references of a source destination `:stream.app`: split at `.` into exactly two
   * pieces, a reference to the stream at the start of the destination and one to the app at
   * its end. The first covers its piece; the second too, unless the destination ends with `.`.
   */
  function DestinationRefs(node: StreamNode, line: nat): (r: seq<Symbol>)
    ensures |r| == 0 || |r| == 2
    ensures |r| == 2 <==> DestinationText(node).Some? && |JavaSplit(DestinationText(node).value, '.')| == 2
    ensures |r| == 2 ==>
      && r[0].kind == Reference && r[1].kind == Reference
      && r[0].name == JavaSplit(DestinationText(node).value, '.')[0]
      && r[1].name == JavaSplit(DestinationText(node).value, '.')[1]
      && Covers(node.streamText, r[0]) && r[1].range.Some?
      && r[0].range.value.start.character == node.sourceDestination.value.startPos
      && r[1].range.value.end.character == node.sourceDestination.value.endPos
      && (!DestinationEndsWithDot(node) ==> Covers(node.streamText, r[1]))
  {
    match node.sourceDestination
    case None => []
    case Some(d) =>
      var destText := node.streamText[d.startPos..d.endPos];
      var split := JavaSplit(destText, '.');
      if |split| == 2 then
        PiecesInText(node.streamText, d.startPos, d.endPos);
        assert !DestinationEndsWithDot(node) ==> node.streamText[d.endPos - 1] != '.' by {
          assert destText[|destText| - 1] == node.streamText[d.endPos - 1];
        }
        [ Symbol(Reference, split[0], Some("ref"), Some(LineSpan(line, d.startPos, d.startPos + |split[0]|)), []),
          Symbol(Reference, split[1], Some("ref"), Some(LineSpan(line, d.endPos - |split[1]|, d.endPos)), []) ]
      else []
  }

  /**
   * The `@name` line's symbol as the symbolizer builds it: the line from six characters past
   * its content start to the end of its content, untrimmed. The subtext throws when the line
   * ends before that offset.
   */
  function MetaNameAsWritten(m: MetadataItem): (r: Outcome<Symbol>)
    ensures var cs := m.contentRange.start.character;
      r.Value? <==> cs + 6 <= m.contentRange.end.character <= |m.text|
  {
    var cs := m.contentRange.start.character;
    match Substring(m.text, cs + 6, m.contentRange.end.character)
    case Throws => Throws
    case Value(name) =>
      Value(Symbol(StreamNameMeta, name, Some("@name"),
        Some(Range(Position(m.contentRange.start.line, cs + 6), m.contentRange.end)), []))
  }

  /**
   * The `@name` line's symbol, guarded: it starts six characters past the content start, or at
   * the end of the line when the line is shorter, so a bare `@name` gets an empty symbol at
   * the end of its line. The symbol covers exactly its name.
   */
  function MetaName(m: MetadataItem): (r: Symbol)
    requires Tagged(m, NamePrefix)
    ensures r.kind == StreamNameMeta && r.range.Some? && r.range.value.end == m.contentRange.end
    ensures Covers(m.text, r)
  {
    var cs := m.contentRange.start.character;
    var start := if cs + 6 <= |m.text| then cs + 6 else |m.text|;
    Symbol(StreamNameMeta, m.text[start..], Some("@name"),
      Some(Range(Position(m.contentRange.start.line, start), m.contentRange.end)), [])
  }

  /**
   * The guarded symbol is the one the symbolizer builds whenever that does not throw; it
   * throws exactly when the line ends right after its `@name` token.
   */
  lemma MetaNameAgrees(m: MetadataItem)
    requires Tagged(m, NamePrefix)
    ensures MetaNameAsWritten(m).Value? ==> MetaNameAsWritten(m) == Value(MetaName(m))
    ensures MetaNameAsWritten(m).Throws? <==> |m.text| == m.contentRange.start.character + |NamePrefix|
  {
    var cs := m.contentRange.start.character;
    assert cs + |NamePrefix| <= |m.text| by {
      assert StartsWithAt(m.text, NamePrefix, cs);
    }
    if cs + 6 <= |m.text| {
      assert m.text[cs + 6..|m.text|] == m.text[cs + 6..];
    }
  }

  /** The stream symbol of a parsed definition, defining its name, apps and references. */
  function StreamSymbolWith(def: Definition<StreamNode>): (r: Symbol)
    requires DefinitionOk(def) && def.node.Some?
    ensures r.kind == StreamClass && r.name == NameOrUnnamed(StreamLenser.StreamName(def))
    ensures r.range == Some(LineSpan(def.range.value.start.line, def.node.value.startPos, def.node.value.endPos))
    ensures r.members ==
      (if def.nameRange.Some? then [Symbol(StreamNameNative, r.name, Some("name"), def.nameRange, [])] else [])
      + AppSymbols(def.node.value, def.range.value.start.line)
      + DestinationRefs(def.node.value, def.range.value.start.line)
  {
    var node := def.node.value;
    var line := def.range.value.start.line;
    var name := NameOrUnnamed(StreamLenser.StreamName(def));
    var native := if def.nameRange.Some? then [Symbol(StreamNameNative, name, Some("name"), def.nameRange, [])] else [];
    Symbol(StreamClass, name, Some("dsl"), Some(LineSpan(line, node.startPos, node.endPos)),
      native + AppSymbols(node, line) + DestinationRefs(node, line))
  }

  /** The scope of an item given the symbols of its `@name` scope. */
  function ItemScopeWith(def: Definition<StreamNode>, meta: seq<Symbol>): (r: Scope)
    requires DefinitionOk(def) && def.node.Some?
    ensures |r.nested| == 2 && r.nested[0].symbols == meta && r.nested[1].symbols == [StreamSymbolWith(def)]
  {
    var refs := if |DestinationRefs(def.node.value, def.range.value.start.line)| == 2 then [Scope([], [])] else [];
    Scope([], [Scope(meta, []), Scope([StreamSymbolWith(def)], refs)])
  }

  /** The scope buildTable adds for an item, as written: it throws when the `@name` symbol does. */
  function ItemScopeAsWritten(it: Item<StreamNode>): (r: Outcome<Option<Scope>>)
    requires ItemOk(StreamDialect, it)
    ensures r.Value? && r.value.Some? <==> it.definition.node.Some? && r.Value?
  {
    var def := it.definition;
    if def.node.None? then Value(None)
    else if def.nameItem.None? then Value(Some(ItemScopeWith(def, [])))
    else match MetaNameAsWritten(def.nameItem.value)
      case Throws => Throws
      case Value(meta) => Value(Some(ItemScopeWith(def, [meta])))
  }

  /** The scope of an item, with the guarded `@name` symbol; none for an unparsed definition. */
  function ItemScope(it: Item<StreamNode>): (r: Option<Scope>)
    requires ItemOk(StreamDialect, it)
    ensures r.Some? <==> it.definition.node.Some?
    ensures r.Some? ==> |r.value.nested| == 2
    ensures r.Some? ==> r.value.nested[1].symbols == [StreamSymbolWith(it.definition)]
    ensures r.Some? ==>
      r.value.nested[0].symbols == (if it.definition.nameItem.Some? then [MetaName(it.definition.nameItem.value)] else [])
  {
    var def := it.definition;
    if def.node.None? then None
    else if def.nameItem.None? then Some(ItemScopeWith(def, []))
    else Some(ItemScopeWith(def, [MetaName(def.nameItem.value)]))
  }

  /** Whenever buildTable's scope for an item does not throw, it is the guarded scope. */
  lemma ItemScopeAgrees(it: Item<StreamNode>)
    requires ItemOk(StreamDialect, it)
    ensures ItemScopeAsWritten(it).Value? ==> ItemScopeAsWritten(it) == Value(ItemScope(it))
  {
    if it.definition.node.Some? && it.definition.nameItem.Some? {
      MetaNameAgrees(it.definition.nameItem.value);
    }
  }

  /** buildTable's scope for an item throws exactly when the item has a bare `@name` line. */
  lemma ItemScopeThrows(it: Item<StreamNode>)
    requires ItemOk(StreamDialect, it)
    ensures ItemScopeAsWritten(it).Throws? <==> BareMetaName(it)
  {
    if it.definition.node.Some? && it.definition.nameItem.Some? {
      MetaNameAgrees(it.definition.nameItem.value);
    }
  }

  /** The scopes of the items whose definitions parsed, in item order. */
  function ScopesOf(items: seq<Item<StreamNode>>): (r: seq<Scope>)
    requires forall i :: 0 <= i < |items| ==> ItemOk(StreamDialect, items[i])
    ensures |r| <= |items|
    decreases |items|
  {
    if |items| == 0 then []
    else
      var scope := ItemScope(items[|items| - 1]);
      ScopesOf(items[..|items| - 1]) + (if scope.Some? then [scope.value] else [])
  }

  /** The items whose definitions parsed, in item order. */
  function ParsedItems(items: seq<Item<StreamNode>>): (r: seq<Item<StreamNode>>)
    ensures |r| <= |items|
    ensures forall j :: 0 <= j < |r| ==> r[j].definition.node.Some? && r[j] in items
    ensures forall i :: 0 <= i < |items| && items[i].definition.node.Some? ==> items[i] in r
    decreases |items|
  {
    if |items| == 0 then []
    else
      var last := items[|items| - 1];
      ParsedItems(items[..|items| - 1]) + (if last.definition.node.Some? then [last] else [])
  }

  /** Filtering keeps the order: the parsed items of two runs of items, one after the other. */
  lemma {:induction false} ParsedItemsAppend(xs: seq<Item<StreamNode>>, ys: seq<Item<StreamNode>>)
    ensures ParsedItems(xs + ys) == ParsedItems(xs) + ParsedItems(ys)
    decreases |ys|
  {
    if |ys| == 0 {
      assert xs + ys == xs;
    } else {
      var front := ys[..|ys| - 1];
      assert (xs + ys)[..|xs + ys| - 1] == xs + front;
      ParsedItemsAppend(xs, front);
    }
  }

  /** One scope per parsed item, in item order: the j-th scope is the j-th parsed item's. */
  lemma {:induction false} ScopesOfParsed(items: seq<Item<StreamNode>>)
    requires forall i :: 0 <= i < |items| ==> ItemOk(StreamDialect, items[i])
    ensures |ScopesOf(items)| == |ParsedItems(items)|
    ensures forall j :: 0 <= j < |ParsedItems(items)| ==>
      ItemOk(StreamDialect, ParsedItems(items)[j]) && ScopesOf(items)[j] == ItemScope(ParsedItems(items)[j]).value
    decreases |items|
  {
    if |items| > 0 {
      var front := items[..|items| - 1];
      assert forall i :: 0 <= i < |front| ==> front[i] == items[i];
      ScopesOfParsed(front);
    }
  }

  /** buildTable: a global scope nesting the items' scopes. */
  function Table(items: seq<Item<StreamNode>>): Scope
    requires forall i :: 0 <= i < |items| ==> ItemOk(StreamDialect, items[i])
  {
    Scope([], ScopesOf(items))
  }

  /** buildTable as written: the first item whose `@name` symbol throws ends it with the exception. */
  function TableAsWritten(items: seq<Item<StreamNode>>): (r: Outcome<Scope>)
    requires forall i :: 0 <= i < |items| ==> ItemOk(StreamDialect, items[i])
    decreases |items|
  {
    if |items| == 0 then Value(Scope([], []))
    else
      var front := TableAsWritten(items[..|items| - 1]);
      var last := ItemScopeAsWritten(items[|items| - 1]);
      if front.Throws? || last.Throws? then Throws
      else Value(Scope([], front.value.nested + (if last.value.Some? then [last.value.value] else [])))
  }

  /** An item whose bare `@name` line ends right after the token, above a parsed definition. */
  predicate BareMetaName(it: Item<StreamNode>)
  {
    && it.definition.node.Some? && it.definition.nameItem.Some?
    && |it.definition.nameItem.value.text| == it.definition.nameItem.value.contentRange.start.character + |NamePrefix|
  }

  /** Whenever buildTable as written does not throw, it builds the guarded table. */
  lemma {:induction false} TableAgrees(items: seq<Item<StreamNode>>)
    requires forall i :: 0 <= i < |items| ==> ItemOk(StreamDialect, items[i])
    ensures TableAsWritten(items).Value? ==> TableAsWritten(items) == Value(Table(items))
    decreases |items|
  {
    if |items| > 0 {
      var n := |items| - 1;
      TableAgrees(items[..n]);
      ItemScopeAgrees(items[n]);
      TableStep(items);
    }
  }

  /** Some item has a bare `@name` line above a parsed definition. */
  predicate AnyBareMetaName(items: seq<Item<StreamNode>>)
    decreases |items|
  {
    |items| > 0 && (AnyBareMetaName(items[..|items| - 1]) || BareMetaName(items[|items| - 1]))
  }

  lemma {:induction false} AnyBareMetaNameExists(items: seq<Item<StreamNode>>)
    ensures AnyBareMetaName(items) <==> exists i :: 0 <= i < |items| && BareMetaName(items[i])
    decreases |items|
  {
    if |items| > 0 {
      var n := |items| - 1;
      var front := items[..n];
      AnyBareMetaNameExists(front);
      if exists i :: 0 <= i < |items| && BareMetaName(items[i]) {
        var i :| 0 <= i < |items| && BareMetaName(items[i]);
        if i < n {
          assert BareMetaName(front[i]);
        }
      }
      if AnyBareMetaName(front) {
        var i :| 0 <= i < n && BareMetaName(front[i]);
        assert BareMetaName(items[i]);
      }
    }
  }

  lemma {:induction false} TableThrowsAny(items: seq<Item<StreamNode>>)
    requires forall i :: 0 <= i < |items| ==> ItemOk(StreamDialect, items[i])
    ensures TableAsWritten(items).Throws? <==> AnyBareMetaName(items)
    decreases |items|
  {
    if |items| > 0 {
      var n := |items| - 1;
      TableThrowsAny(items[..n]);
      ItemScopeThrows(items[n]);
      TableThrowsStep(items);
    }
  }

  /** buildTable as written throws exactly when some item has a bare `@name` line above a parsed definition. */
  lemma TableThrows(items: seq<Item<StreamNode>>)
    requires forall i :: 0 <= i < |items| ==> ItemOk(StreamDialect, items[i])
    ensures TableAsWritten(items).Throws? <==> exists i :: 0 <= i < |items| && BareMetaName(items[i])
  {
    TableThrowsAny(items);
    AnyBareMetaNameExists(items);
  }

  /** One step of the as-written table: it throws when the items before the last or the last one do. */
  lemma TableThrowsStep(items: seq<Item<StreamNode>>)
    requires |items| > 0 && forall i :: 0 <= i < |items| ==> ItemOk(StreamDialect, items[i])
    ensures var n := |items| - 1;
      TableAsWritten(items).Throws? <==> TableAsWritten(items[..n]).Throws? || ItemScopeAsWritten(items[n]).Throws?
  {
  }

  /** One step of the as-written table: agreeing on the items before the last and on the last, it agrees. */
  lemma TableStep(items: seq<Item<StreamNode>>)
    requires |items| > 0 && forall i :: 0 <= i < |items| ==> ItemOk(StreamDialect, items[i])
    ensures var n := |items| - 1;
      TableAsWritten(items[..n]) == Value(Table(items[..n])) && ItemScopeAsWritten(items[n]) == Value(ItemScope(items[n]))
      ==> TableAsWritten(items) == Value(Table(items))
  {
  }

  /**
   * buildTable: one scope per item whose definition parsed, in item order; the first bare
   * `@name` line ends it with the exception.
   */
  method BuildTable(items: seq<Item<StreamNode>>) returns (table: Outcome<Scope>)
    requires forall i :: 0 <= i < |items| ==> ItemOk(StreamDialect, items[i])
    ensures table == TableAsWritten(items)
  {
    var scopes: seq<Scope> := [];
    for i := 0 to |items|
      invariant TableAsWritten(items[..i]) == Value(Scope([], scopes))
    {
      var scope := ItemScopeAsWritten(items[i]);
      if scope.Throws? {
        ItemScopeThrows(items[i]);
        TableThrows(items);
        return Throws;
      }
      TableSnoc(items, i, scopes);
      if scope.value.Some? {
        scopes := scopes + [scope.value.value];
      }
    }
    assert items[..|items|] == items;
    table := Value(Scope([], scopes));
  }

  /** One more item whose scope does not throw adds its scope, if any, to the table. */
  lemma TableSnoc(items: seq<Item<StreamNode>>, i: nat, scopes: seq<Scope>)
    requires i < |items| && forall k :: 0 <= k < |items| ==> ItemOk(StreamDialect, items[k])
    requires TableAsWritten(items[..i]) == Value(Scope([], scopes)) && ItemScopeAsWritten(items[i]).Value?
    ensures var scope := ItemScopeAsWritten(items[i]).value;
      TableAsWritten(items[..i + 1]) == Value(Scope([], if scope.Some? then scopes + [scope.value] else scopes))
  {
    var prefix := items[..i + 1];
    assert prefix[..i] == items[..i] && prefix[i] == items[i];
    assert scopes + [] == scopes;
  }

  /** The sigil of a query and the symbol class it selects. */
  function SigilKind(c: char): (r: Option<SymbolKind>)
    ensures r.Some? <==> c in "<^>@"
  {
    match c
    case '<' => Some(Source)
    case '^' => Some(Processor)
    case '>' => Some(Sink)
    case '@' => Some(StreamClass)
    case _ => None
  }

  /**
   * SymbolQuery: a blank query matches every symbol; a query starting with `<`, `^`, `>` or
   * `@` matches the sources, processors, sinks or streams whose names start with the rest of
   * the query; any other query matches the symbols whose names contain it, ignoring case.
   */
  predicate Matches(query: Option<string>, s: Symbol)
  {
    if query.None? || !HasText(query.value) then true
    else
      var q := query.value;
      match SigilKind(q[0])
      case Some(k) => s.kind == k && (|q| > 1 ==> StartsWith(s.name, q[1..]))
      case None => Contains(ToLower(s.name), ToLower(q))
  }

  /** The symbols the query selects, in order. */
  function Select(ss: seq<Symbol>, query: Option<string>): (r: seq<Symbol>)
    ensures |r| <= |ss|
    ensures forall s :: s in r <==> s in ss && Matches(query, s)
    decreases |ss|
  {
    if |ss| == 0 then []
    else Select(ss[..|ss| - 1], query) + (if Matches(query, ss[|ss| - 1]) then [ss[|ss| - 1]] else [])
  }

  /** Selecting keeps the order: the selection of two runs of symbols, one after the other. */
  lemma {:induction false} SelectAppend(xs: seq<Symbol>, ys: seq<Symbol>, query: Option<string>)
    ensures Select(xs + ys, query) == Select(xs, query) + Select(ys, query)
    decreases |ys|
  {
    if |ys| == 0 {
      assert xs + ys == xs;
    } else {
      var front, last := ys[..|ys| - 1], ys[|ys| - 1];
      SnocSplit(xs, ys);
      SelectSnoc(xs + front, last, query);
      SelectSnoc(front, last, query);
      SelectAppend(xs, front, query);
      ConcatAssoc(Select(xs, query), Select(front, query), if Matches(query, last) then [last] else []);
    }
  }

  /** A non-empty run is its front and its last element, also behind another run. */
  lemma SnocSplit<T>(xs: seq<T>, ys: seq<T>)
    requires |ys| > 0
    ensures ys == ys[..|ys| - 1] + [ys[|ys| - 1]]
    ensures xs + ys == (xs + ys[..|ys| - 1]) + [ys[|ys| - 1]]
  {
  }

  lemma ConcatAssoc<T>(a: seq<T>, b: seq<T>, c: seq<T>)
    ensures (a + b) + c == a + (b + c)
  {
  }

  /** Selecting from a run with one more symbol adds that symbol when it matches. */
  lemma SelectSnoc(ss: seq<Symbol>, s: Symbol, query: Option<string>)
    ensures Select(ss + [s], query) == Select(ss, query) + (if Matches(query, s) then [s] else [])
  {
    assert (ss + [s])[..|ss|] == ss;
  }

  /** A blank query selects every symbol, in order. */
  lemma {:induction false} SelectAll(ss: seq<Symbol>, query: Option<string>)
    requires query.None? || !HasText(query.value)
    ensures Select(ss, query) == ss
    decreases |ss|
  {
    if |ss| > 0 {
      SelectAll(ss[..|ss| - 1], query);
      FrontAndLast(ss);
    }
  }

  lemma FrontAndLast(ss: seq<Symbol>)
    requires |ss| > 0
    ensures ss[..|ss| - 1] + [ss[|ss| - 1]] == ss
  {
  }

  /**
   * symbolize: the symbols of the table the query selects. A blank query keeps them all; a
   * query with a sigil keeps only symbols of that class.
   */
  function Symbolize(table: Scope, query: Option<string>): (r: seq<Symbol>)
    ensures query.None? || !HasText(query.value) ==> r == AllSymbols(table)
    ensures query.Some? && HasText(query.value) && SigilKind(query.value[0]).Some? ==>
      forall s :: s in r ==> s.kind == SigilKind(query.value[0]).value
    ensures forall s :: s in r <==> s in AllSymbols(table) && Matches(query, s)
  {
    if query.None? || !HasText(query.value) then
      SelectAll(AllSymbols(table), query);
      Select(AllSymbols(table), query)
    else Select(AllSymbols(table), query)
  }

  /**
   * symbolize on a stream document: the symbols of its table, as the query selects them. The
   * request fails exactly when some item has a bare `@name` line above a parsed definition;
   * otherwise the table is the guarded one.
   */
  function SymbolizeDocument(parse: StreamParser, doc: seq<string>, query: Option<string>): (r: Outcome<seq<Symbol>>)
    ensures r.Throws? <==> exists i :: 0 <= i < |DocumentItems(parse, doc)| && BareMetaName(DocumentItems(parse, doc)[i])
    ensures r.Value? ==> r.value == Symbolize(Table(DocumentItems(parse, doc)), query)
  {
    var items := DocumentItems(parse, doc);
    TableThrows(items);
    TableAgrees(items);
    match TableAsWritten(items)
    case Throws => Throws
    case Value(table) => Value(Symbolize(table, query))
  }

  /** The bare `@name` line of the example document below, as the scanner records it. */
  function BareName(): MetadataItem
  {
    MetadataItem(Range(Position(0, 0), Position(0, 7)), Range(Position(0, 2), Position(0, 7)), "# @name")
  }

  /** Reading the line `# @name` puts it in the `@name` slot, with its content starting at column 2. */
  lemma BareNameRead(doc: seq<string>)
    requires |doc| == 2 && doc[0] == "# @name"
    ensures ScanTo(StreamDialect, doc, 0, 1).name == Some(BareName())
  {
    assert ContentStart(doc[0]) == 2 by {
      assert ContentStartFrom(doc[0], 2) == 2;
    }
    assert !StartsWithAt(doc[0], EnvPrefix, 2) by {
      StartsWithAtSlice(doc[0], EnvPrefix, 2);
      assert doc[0][3] != EnvPrefix[1];
    }
    assert StartsWithAt(doc[0], NamePrefix, 2) by {
      StartsWithAtSlice(doc[0], NamePrefix, 2);
    }
    assert IsMarkerLine(doc[0]) by {
      assert WhitespaceEnd(doc[0], 0) == 0;
    }
    ClassifyOrder(StreamDialect, doc[0], 2);
    ScanToNext(StreamDialect, doc, 0, 0);
  }

  /** The example document's first item has the bare `@name` line and a parsed definition. */
  lemma BareNameItem(parse: StreamParser, doc: seq<string>)
    requires doc == ["# @name", "time | log"] && parse(doc[1]).Parsed?
    ensures var items := DocumentItems(parse, doc);
      |items| > 0 && items[0].definition.nameItem == Some(BareName()) && items[0].definition.node.Some?
  {
    var dl := StreamDelegate(parse);
    assert !IsDefinitionLine(doc[0]) by {
      assert WhitespaceEnd(doc[0], 0) == 0;
    }
    assert IsDefinitionLine(doc[1]) by {
      assert WhitespaceEnd(doc[1], 0) == 0;
      assert TrimStart(doc[1])[0] == 't';
      assert !IsWhitespace(doc[1][0]);
    }
    assert NextDefinitionLine(doc, 0) == 1;
    BareNameRead(doc);
    FirstItem(StreamDialect, dl, doc, 0);
    assert dl(doc[1], ScanTo(StreamDialect, doc, 0, 1).name, 1).Value?;
    var it := ScanFrom(StreamDialect, dl, doc, 0).item;
    assert it.range.end.line == 1;
    ItemsFromLast(StreamDialect, dl, doc, 0);
  }

  /** The bare `@name` line's symbol: the symbolizer throws on it, the guarded one is empty. */
  lemma BareNameMeta()
    ensures MetaNameAsWritten(BareName()).Throws?
    ensures MetaName(BareName()) == Symbol(StreamNameMeta, "", Some("@name"), Some(PointRange(0, 7)), [])
  {
    assert BareName().text[7..] == "";
  }

  /**
   * A bare `# @name` line above a definition that parses: buildTable as written throws on the
   * document.
   */
  lemma BareNameTableThrows(parse: StreamParser)
    requires parse("time | log").Parsed?
    ensures TableAsWritten(DocumentItems(parse, ["# @name", "time | log"])).Throws?
  {
    var doc := ["# @name", "time | log"];
    BareNameItem(parse, doc);
    var items := DocumentItems(parse, doc);
    assert BareMetaName(items[0]);
    TableThrows(items);
  }
}
