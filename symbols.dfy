/**
 * The symbol tables the symbolizers build: symbols that own member symbols, gathered in
 * scopes that nest. Every symbolizer's table holds one scope per item it covers.
 */
module Symbols {
  import opened Wrappers
  import opened Ranges

  /** The symbol classes of the stream, task and app symbolizers. */
  datatype SymbolKind =
    | StreamClass | StreamNameNative | StreamNameMeta
    | Source | Processor | Sink | AppOption | Reference
    | TaskClass
    | AppClass | AppUri | AppMetadata

  /** A symbol: its class, name, detail text, range and the symbols it defines. */
  datatype Symbol = Symbol(kind: SymbolKind, name: string, detail: Option<string>, range: Option<Range>, members: seq<Symbol>)

  /** A scope: the symbols defined in it and the scopes nested in it. */
  datatype Scope = Scope(symbols: seq<Symbol>, nested: seq<Scope>)

  /** The name a symbol gets for a name that may be missing. */
  function NameOrUnnamed(name: Option<string>): (r: string)
    ensures name.Some? ==> r == name.value
    ensures name.None? ==> r == "[unnamed]"
  {
    if name.Some? then name.value else "[unnamed]"
  }

  /** The symbols of `ss` and, after each, the symbols it defines, depth first. */
  function Flatten(ss: seq<Symbol>): (r: seq<Symbol>)
    ensures |r| >= |ss|
    ensures forall s :: s in ss ==> s in r
    decreases ss
  {
    if |ss| == 0 then []
    else [ss[0]] + Flatten(ss[0].members) + Flatten(ss[1..])
  }

  /** Every symbol of the scopes: each scope's own symbols, then those of its nested scopes. */
  function ScopeSymbols(scopes: seq<Scope>): (r: seq<Symbol>)
    decreases scopes
  {
    if |scopes| == 0 then []
    else Flatten(scopes[0].symbols) + ScopeSymbols(scopes[0].nested) + ScopeSymbols(scopes[1..])
  }

  /** The table's getAllSymbols, in depth-first order. */
  function AllSymbols(table: Scope): seq<Symbol>
  {
    ScopeSymbols([table])
  }

  /** A symbol's members, and theirs, are among the flattened symbols right behind it. */
  lemma {:induction false} FlattenMembers(ss: seq<Symbol>, i: nat)
    requires i < |ss|
    ensures forall m :: m in ss[i].members ==> m in Flatten(ss)
    decreases ss
  {
    if i == 0 {
      forall m | m in ss[0].members
        ensures m in Flatten(ss)
      {
        assert m in Flatten(ss[0].members);
      }
    } else {
      FlattenMembers(ss[1..], i - 1);
      assert ss[1..][i - 1] == ss[i];
    }
  }
}
