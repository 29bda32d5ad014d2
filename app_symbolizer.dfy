/**
 * The symbols of an app-import manifest: every entry gets a scope of its own holding an app
 * symbol, which defines a `uri` symbol on the app line and a `metadata` symbol on the
 * metadata line.
 */
module AppSymbolizer {
  import opened Wrappers
  import opened Ranges
  import opened Symbols
  import opened AppService

  /** The app symbol of an entry and its two members. */
  function EntrySymbol(e: AppEntry): (r: Symbol)
    ensures r.kind == AppClass && r.name == e.name && r.range == e.appRange
    ensures |r.members| == 2
    ensures r.members[0] == Symbol(AppUri, "uri", None, e.appRange, [])
    ensures r.members[1] == Symbol(AppMetadata, "metadata", None, e.metadataRange, [])
  {
    Symbol(AppClass, NameOrUnnamed(Some(e.name)), None, e.appRange,
      [Symbol(AppUri, "uri", None, e.appRange, []), Symbol(AppMetadata, "metadata", None, e.metadataRange, [])])
  }

  /** buildTable: one nested scope per entry, in the order given. */
  function Table(entries: seq<AppEntry>): (r: Scope)
    ensures r.symbols == [] && |r.nested| == |entries|
    ensures forall i :: 0 <= i < |entries| ==> r.nested[i] == Scope([EntrySymbol(entries[i])], [])
  {
    Scope([], seq(|entries|, i requires 0 <= i < |entries| => Scope([EntrySymbol(entries[i])], [])))
  }

  /** buildTable, entry by entry: nest a scope in the global scope and define the app symbol in it. */
  method BuildTable(entries: seq<AppEntry>) returns (table: Scope)
    ensures table == Table(entries)
  {
    var scopes: seq<Scope> := [];
    for i := 0 to |entries|
      invariant |scopes| == i
      invariant forall j :: 0 <= j < i ==> scopes[j] == Scope([EntrySymbol(entries[j])], [])
    {
      var appClass := EntrySymbol(entries[i]);
      scopes := scopes + [Scope([appClass], [])];
    }
    table := Scope([], scopes);
  }

  /** The symbols of the entries: each app symbol followed by its members. */
  function SymbolsOf(entries: seq<AppEntry>): (r: seq<Symbol>)
    ensures |r| == 3 * |entries|
    ensures forall i :: 0 <= i < |entries| ==>
      r[3 * i] == EntrySymbol(entries[i]) && r[3 * i + 1] == EntrySymbol(entries[i]).members[0]
      && r[3 * i + 2] == EntrySymbol(entries[i]).members[1]
    decreases |entries|
  {
    if |entries| == 0 then []
    else
      var s := EntrySymbol(entries[0]);
      [s, s.members[0], s.members[1]] + SymbolsOf(entries[1..])
  }

  lemma {:induction false} ScopeSymbolsOf(entries: seq<AppEntry>)
    ensures ScopeSymbols(Table(entries).nested) == SymbolsOf(entries)
    decreases |entries|
  {
    if |entries| > 0 {
      var scopes := Table(entries).nested;
      var s := EntrySymbol(entries[0]);
      assert scopes[1..] == Table(entries[1..]).nested;
      ScopeSymbolsOf(entries[1..]);
      assert Flatten(s.members) == [s.members[0], s.members[1]] by {
        assert Flatten(s.members[1..]) == [s.members[1]] + Flatten(s.members[1].members) + Flatten(s.members[2..]);
      }
      assert Flatten(scopes[0].symbols) == [s] + Flatten(s.members) + Flatten([]);
    }
  }

  /** The table's symbols are those of the entries, in order. */
  lemma TableSymbols(entries: seq<AppEntry>)
    ensures AllSymbols(Table(entries)) == SymbolsOf(entries)
  {
    var table := Table(entries);
    ScopeSymbolsOf(entries);
    assert [table][1..] == [];
    assert AllSymbols(table) == Flatten([]) + ScopeSymbols(table.nested) + ScopeSymbols([]);
  }

  /**
   * symbolize of a manifest, whatever the query: every entry, in the map's iteration order
   * `order`, contributes its app symbol, then its `uri` symbol, then its `metadata` symbol.
   */
  function Symbolize(doc: seq<string>, versionOf: VersionOf, order: seq<string>, query: Option<string>): (r: seq<Symbol>)
    requires IterationOrder(Apps(doc, versionOf), order)
    ensures |r| == 3 * |order|
    ensures forall i :: 0 <= i < |order| ==> r[3 * i] == EntrySymbol(Apps(doc, versionOf)[order[i]])
    ensures |r| == 3 * |Apps(doc, versionOf)|
  {
    var entries := Values(Apps(doc, versionOf), order);
    IterationOrderLength(Apps(doc, versionOf), order);
    TableSymbols(entries);
    AllSymbols(Table(entries))
  }
}
