/**
 * Renaming in a stream document: the first symbol, other than a stream's own symbol, whose
 * range holds the position is the target; every such symbol with the target's name is
 * rewritten to the new name.
 */
module StreamRenamer {
  import opened Wrappers
  import opened Ranges
  import opened Symbols
  import opened StreamService
  import StreamSymbolizer

  /** An edit replacing the text of a range. */
  datatype TextEdit = TextEdit(range: Option<Range>, newText: string)

  /** The edits of one document version. */
  datatype WorkspaceEdit = WorkspaceEdit(uri: string, version: int, edits: seq<TextEdit>)

  /** Stream symbols themselves are never renamed; their name and app symbols are. */
  predicate Renameable(s: Symbol)
  {
    s.kind != StreamClass
  }

  /** The symbol's range holds the position. */
  predicate At(s: Symbol, pos: Position)
  {
    s.range.Some? && InRange(pos, s.range.value)
  }

  /** findSymbol: the first renameable symbol from index `k` on whose range holds the position. */
  function FindSymbolFrom(symbols: seq<Symbol>, pos: Position, k: nat): (r: Option<nat>)
    requires k <= |symbols|
    ensures r.Some? ==> k <= r.value < |symbols| && Renameable(symbols[r.value]) && At(symbols[r.value], pos)
    ensures r.Some? ==> forall j :: k <= j < r.value ==> !(Renameable(symbols[j]) && At(symbols[j], pos))
    ensures r.None? ==> forall j :: k <= j < |symbols| ==> !(Renameable(symbols[j]) && At(symbols[j], pos))
    decreases |symbols| - k
  {
    if k == |symbols| then None
    else if Renameable(symbols[k]) && At(symbols[k], pos) then Some(k)
    else FindSymbolFrom(symbols, pos, k + 1)
  }

  /** No renameable symbol before index `i` has its range at the position. */
  predicate FirstAt(symbols: seq<Symbol>, pos: Position, i: nat)
    requires i <= |symbols|
  {
    forall j :: 0 <= j < i ==> !(Renameable(symbols[j]) && At(symbols[j], pos))
  }

  /** findSymbol over all the symbols, giving the symbol found. */
  function FindSymbol(symbols: seq<Symbol>, pos: Position): (r: Option<Symbol>)
    ensures r.Some? ==> r.value in symbols && Renameable(r.value) && At(r.value, pos)
    ensures r.Some? ==>
      exists i :: 0 <= i < |symbols| && symbols[i] == r.value && FirstAt(symbols, pos, i)
    ensures r.None? <==> forall s :: s in symbols ==> !(Renameable(s) && At(s, pos))
  {
    var i := FindSymbolFrom(symbols, pos, 0);
    if i.Some? then Some(symbols[i.value]) else None
  }

  /** The renameable symbols named `name`, in order. */
  function Namesakes(symbols: seq<Symbol>, name: string): (r: seq<Symbol>)
    ensures |r| <= |symbols|
    ensures forall s :: s in r <==> s in symbols && Renameable(s) && s.name == name
    decreases |symbols|
  {
    if |symbols| == 0 then []
    else
      var last := symbols[|symbols| - 1];
      Namesakes(symbols[..|symbols| - 1], name) + (if Renameable(last) && last.name == name then [last] else [])
  }

  /** One edit per renameable symbol named like the target, writing the new name over its range. */
  function Edits(symbols: seq<Symbol>, target: Symbol, newName: string): (r: seq<TextEdit>)
    ensures forall e :: e in r ==> e.newText == newName
    ensures forall s :: s in symbols && Renameable(s) && s.name == target.name ==> TextEdit(s.range, newName) in r
    ensures forall e :: e in r ==> exists s :: s in symbols && Renameable(s) && s.name == target.name && e.range == s.range
  {
    var same := Namesakes(symbols, target.name);
    var edits := seq(|same|, i requires 0 <= i < |same| => TextEdit(same[i].range, newName));
    assert forall s :: s in same ==> TextEdit(s.range, newName) in edits by {
      forall s | s in same
        ensures TextEdit(s.range, newName) in edits
      {
        var i :| 0 <= i < |same| && same[i] == s;
        assert edits[i] == TextEdit(s.range, newName);
      }
    }
    assert forall e :: e in edits ==> exists s :: s in same && e.range == s.range by {
      forall e | e in edits
        ensures exists s :: s in same && e.range == s.range
      {
        var i :| 0 <= i < |edits| && edits[i] == e;
        assert same[i] in same;
      }
    }
    edits
  }

  /**
   * buildEdits: no edit when no renameable symbol is at the position; otherwise the edits of
   * the target's namesakes, which include the target itself, for the document's uri and version.
   */
  function BuildEdits(uri: string, version: int, table: Scope, pos: Position, newName: string): (r: Option<WorkspaceEdit>)
    ensures r.None? <==> forall s :: s in AllSymbols(table) ==> !(Renameable(s) && At(s, pos))
    ensures r.Some? ==> r.value.uri == uri && r.value.version == version
    ensures r.Some? ==> exists s :: s in AllSymbols(table) && Renameable(s) && At(s, pos) && TextEdit(s.range, newName) in r.value.edits
  {
    var symbols := AllSymbols(table);
    match FindSymbol(symbols, pos)
    case None => None
    case Some(target) =>
      var edits := Edits(symbols, target, newName);
      if |edits| == 0 then None else Some(WorkspaceEdit(uri, version, edits))
  }

  /**
   * rename on a stream document: the edits over the symbols of its table. Building the table
   * fails exactly when some item has a bare `@name` line above a parsed definition, and then
   * so does the request.
   */
  function Rename(parse: StreamParser, doc: seq<string>, uri: string, version: int, pos: Position, newName: string): (r: Outcome<Option<WorkspaceEdit>>)
    ensures r.Throws? <==>
      exists i :: 0 <= i < |DocumentItems(parse, doc)| && StreamSymbolizer.BareMetaName(DocumentItems(parse, doc)[i])
    ensures r.Value? ==> r.value == BuildEdits(uri, version, StreamSymbolizer.Table(DocumentItems(parse, doc)), pos, newName)
  {
    var items := DocumentItems(parse, doc);
    StreamSymbolizer.TableThrows(items);
    StreamSymbolizer.TableAgrees(items);
    match StreamSymbolizer.TableAsWritten(items)
    case Throws => Throws
    case Value(table) => Value(BuildEdits(uri, version, table, pos, newName))
  }
}
