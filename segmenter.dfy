/**
 * Splitting a stream or task document into items. Each item is one definition line
 * together with the metadata comment lines above it (`-- @env`, `-- @name`, `-- @desc`,
 * `-- @prop`, and for tasks `-- @arg`), grouped into deployment (launch) blocks, plus the
 * comment ranges seen on the way. A document that ends in metadata without a definition
 * yields a last, metadata-only item.
 *
 * The stream and task services run the same line scanner; they differ in three switches
 * (`Dialect`) and in how a definition line is parsed (`Delegate`). The scanner is specified
 * by the tail-recursive `ScanFrom`, and `ParseNext` / `ParseItems` are the imperative
 * scanner and driver loop proved equal to it.
 */
module Segmenter {
  import opened Wrappers
  import opened Text
  import opened Ranges
  import opened Dsl

  const EnvPrefix := "@env"
  const NamePrefix := "@name"
  const DescPrefix := "@desc"
  const PropPrefix := "@prop"
  const ArgPrefix := "@arg"

  /**
   * How the two DSL services differ in their scanners:
   * streams record comment ranges, tasks recognise `@arg` lines, and a task block's end
   * moves only on a recognised metadata line while a stream block's end moves on every
   * marker line.
   */
  datatype Dialect = Dialect(trackComments: bool, recogniseArg: bool, endOnMatchOnly: bool)

  const StreamDialect := Dialect(true, false, false)
  const TaskDialect := Dialect(false, true, true)

  /** A recognised metadata line: its line range, the range from its content start, its text. */
  datatype MetadataItem = MetadataItem(range: Range, contentRange: Range, text: string)

  /**
   * A deployment block (a launch block for tasks): its `@prop` lines, its `@arg` lines, the
   * range of its first metadata line, its overall range and the `@env` line in force.
   */
  datatype Block = Block(
    items: seq<MetadataItem>,
    argItems: seq<MetadataItem>,
    startLineRange: Range,
    range: Range,
    envItem: Option<MetadataItem>)

  /** What parsing a definition line yields: a node, the range of its name, or a problem. */
  datatype DefinitionParse<N> = DefinitionParse(node: Option<N>, nameRange: Option<Range>, problem: Option<Problem>)

  datatype Definition<N> = Definition(
    node: Option<N>,
    range: Option<Range>,
    nameRange: Option<Range>,
    problem: Option<Problem>,
    envItem: Option<MetadataItem>,
    nameItem: Option<MetadataItem>,
    descItem: Option<MetadataItem>)

  datatype Item<N> = Item(deployments: seq<Block>, definition: Definition<N>, range: Range, commentRanges: seq<Range>)

  /**
   * The language-specific parse of a definition line, given its text, the `@name` line in
   * force and its line number. `Throws` is an exception escaping the parse.
   */
  type Delegate<N> = (string, Option<MetadataItem>, nat) -> Outcome<DefinitionParse<N>>

  /** Characters at which findContentStart stops. */
  predicate IsContentChar(c: char)
  {
    c == '@' || IsLetterOrDigit(c)
  }

  function ContentStartFrom(s: string, i: nat): (r: int)
    requires i <= |s|
    decreases |s| - i
    ensures r == -1 || i <= r < |s|
    ensures r >= 0 ==> IsContentChar(s[r]) && forall k :: i <= k < r ==> !IsContentChar(s[k])
    ensures r == -1 ==> forall k :: i <= k < |s| ==> !IsContentChar(s[k])
  {
    if i == |s| then -1
    else if IsContentChar(s[i]) then i
    else ContentStartFrom(s, i + 1)
  }

  /**
   * The offset of the first `@`, letter or digit of a line, or -1. Whitespace, `-` and `#`
   * are skipped, and so is every other character.
   */
  function ContentStart(s: string): (r: int)
    ensures -1 <= r < |s|
    ensures r >= 0 ==> IsContentChar(s[r]) && forall k :: 0 <= k < r ==> !IsContentChar(s[k])
    ensures r == -1 <==> forall k :: 0 <= k < |s| ==> !IsContentChar(s[k])
  {
    ContentStartFrom(s, 0)
  }

  /** The scanner's loop finding the content start of a metadata line. */
  method FindContentStart(text: string) returns (r: int)
    ensures r == ContentStart(text)
  {
    for i := 0 to |text|
      invariant forall k :: 0 <= k < i ==> !IsContentChar(text[k])
    {
      if IsWhitespace(text[i]) {
        continue;
      } else if text[i] == '-' {
        continue;
      } else if text[i] == '#' {
        continue;
      } else if text[i] == '@' {
        return i;
      } else if IsLetterOrDigit(text[i]) {
        return i;
      }
    }
    return -1;
  }

  /** A definition line: after leading whitespace, it starts with a letter or a digit. */
  predicate IsDefinitionLine(s: string)
  {
    var t := TrimStart(s);
    HasText(t) && IsLetterOrDigit(t[0])
  }

  /** A comment line: after leading whitespace, it starts with `#`. */
  predicate IsCommentLine(s: string)
  {
    var t := TrimStart(s);
    |t| > 0 && t[0] == '#'
  }

  /** A marker line, which may carry metadata: after leading whitespace, `#` or `-` and two more characters. */
  predicate IsMarkerLine(s: string)
  {
    var t := TrimStart(s);
    |t| > 2 && (t[0] == '#' || t[0] == '-')
  }

  datatype MetaKind = EnvKind | NameKind | DescKind | PropKind | ArgKind | Unmatched

  /** The metadata kinds in the order the scanner tries their tokens. */
  const Kinds: seq<MetaKind> := [EnvKind, NameKind, DescKind, PropKind, ArgKind]

  /** Whether the dialect looks for a kind's token at all. */
  predicate Recognised(d: Dialect, k: MetaKind)
  {
    k != Unmatched && (k == ArgKind ==> d.recogniseArg)
  }

  /** The first kind, from the `i`-th on, whose token sits at the content start `cs`. */
  function ClassifyFrom(d: Dialect, s: string, cs: int, i: nat): (k: MetaKind)
    decreases |Kinds| - i
    ensures k != Unmatched ==> Recognised(d, k) && 0 <= cs && StartsWithAt(s, Token(k), cs)
  {
    if i >= |Kinds| then Unmatched
    else if Recognised(d, Kinds[i]) && cs > -1 && StartsWithAt(s, Token(Kinds[i]), cs) then Kinds[i]
    else ClassifyFrom(d, s, cs, i + 1)
  }

  /** Which metadata a line carries, by the token found at its content start `cs`. */
  function Classify(d: Dialect, s: string, cs: int): (k: MetaKind)
    ensures k != Unmatched ==> Recognised(d, k) && 0 <= cs && StartsWithAt(s, Token(k), cs)
  {
    ClassifyFrom(d, s, cs, 0)
  }

  /** Classify tries `@env`, `@name`, `@desc`, `@prop` and then, for tasks, `@arg`. */
  lemma ClassifyOrder(d: Dialect, s: string, cs: int)
    ensures Classify(d, s, cs) ==
      if cs > -1 && StartsWithAt(s, EnvPrefix, cs) then EnvKind
      else if cs > -1 && StartsWithAt(s, NamePrefix, cs) then NameKind
      else if cs > -1 && StartsWithAt(s, DescPrefix, cs) then DescKind
      else if cs > -1 && StartsWithAt(s, PropPrefix, cs) then PropKind
      else if d.recogniseArg && cs > -1 && StartsWithAt(s, ArgPrefix, cs) then ArgKind
      else Unmatched
  {
    assert ClassifyFrom(d, s, cs, 3) ==
      if cs > -1 && StartsWithAt(s, PropPrefix, cs) then PropKind
      else if d.recogniseArg && cs > -1 && StartsWithAt(s, ArgPrefix, cs) then ArgKind
      else Unmatched;
    assert ClassifyFrom(d, s, cs, 1) ==
      if cs > -1 && StartsWithAt(s, NamePrefix, cs) then NameKind
      else if cs > -1 && StartsWithAt(s, DescPrefix, cs) then DescKind
      else ClassifyFrom(d, s, cs, 3);
  }

  function Token(k: MetaKind): string
  {
    match k
    case EnvKind => EnvPrefix
    case NameKind => NamePrefix
    case DescKind => DescPrefix
    case PropKind => PropPrefix
    case ArgKind => ArgPrefix
    case Unmatched => ""
  }

  /**
   * The scanner's local variables between two lines: finished blocks, the pending block's
   * `@prop` and `@arg` lines, the metadata lines in force, the first line range and the end
   * of the pending block, and the closed and the open comment range.
   */
  datatype ScanState = ScanState(
    blocks: seq<Block>,
    props: seq<MetadataItem>,
    args: seq<MetadataItem>,
    env: Option<MetadataItem>,
    name: Option<MetadataItem>,
    desc: Option<MetadataItem>,
    head: Option<Range>,
    blockEnd: Option<Position>,
    comments: seq<Range>,
    comment: Option<Range>)

  const Fresh := ScanState([], [], [], None, None, None, None, None, [], None)

  /** A pending block with `@prop` or `@arg` lines knows its first line range and its end. */
  predicate PendingReady(st: ScanState)
  {
    (|st.props| > 0 || |st.args| > 0) ==> st.head.Some? && st.blockEnd.Some?
  }

  /** The facts about the scanner's variables that make every step well defined. */
  ghost predicate Consistent(d: Dialect, st: ScanState, start: nat, line: nat)
  {
    && PendingReady(st)
    && ((st.env.Some? || st.name.Some? || st.desc.Some?) ==> st.head.Some?)
    && (st.head.Some? ==> start <= st.head.value.start.line < line)
    && (!d.recogniseArg ==> st.args == [])
  }

  /** The pending block, as it is stored when a separator or a definition line closes it. */
  function PendingBlock(st: ScanState, args: seq<MetadataItem>): Block
    requires st.head.Some? && st.blockEnd.Some?
  {
    Block(st.props, args, st.head.value, Range(st.head.value.start, st.blockEnd.value), st.env)
  }

  /** Comment tracking for one non-definition line with range `lr`. */
  function TrackComment(d: Dialect, st: ScanState, lr: Range, s: string): (r: ScanState)
    ensures r.(comments := st.comments, comment := st.comment) == st
  {
    if !d.trackComments then st
    else if IsCommentLine(s) then
      st.(comment := Some(if st.comment.Some? then RangeExtend(st.comment.value, lr) else lr))
    else if st.comment.Some? then
      st.(comments := st.comments + [st.comment.value], comment := None)
    else st
  }

  /** Store the metadata line `item` in the slot its kind names. */
  function Record(st: ScanState, kind: MetaKind, item: MetadataItem): (r: ScanState)
    ensures r.(env := st.env, name := st.name, desc := st.desc, props := st.props, args := st.args) == st
  {
    match kind
    case EnvKind => st.(env := Some(item))
    case NameKind => st.(name := Some(item))
    case DescKind => st.(desc := Some(item))
    case PropKind => st.(props := st.props + [item])
    case ArgKind => st.(args := st.args + [item])
    case Unmatched => st
  }

  /** A marker line: record it in the slot its token names, or ignore it. */
  function MarkerLine(d: Dialect, st: ScanState, lr: Range, s: string): (r: ScanState)
    ensures r.blocks == st.blocks && r.comments == st.comments && r.comment == st.comment
  {
    var st1 := if d.endOnMatchOnly then st else st.(blockEnd := Some(lr.end));
    var cs := ContentStart(s);
    var kind := Classify(d, s, cs);
    if kind == Unmatched then st1
    else
      var item := MetadataItem(lr, Range(Position(lr.start.line, cs), lr.end), s);
      var st2 := Record(st1, kind, item);
      var st3 := if st2.head.None? then st2.(head := Some(lr)) else st2;
      if d.endOnMatchOnly then st3.(blockEnd := Some(lr.end)) else st3
  }

  /** Any other non-definition line: a pending block is stored and the metadata in force is dropped. */
  function SeparatorLine(st: ScanState): (r: ScanState)
    requires PendingReady(st)
    ensures r.comments == st.comments && r.comment == st.comment && r.props == [] && r.args == []
  {
    if |st.props| > 0 || |st.args| > 0 then
      st.(blocks := st.blocks + [PendingBlock(st, st.args)],
          env := None, name := None, desc := None, head := None, props := [], args := [])
    else
      st.(props := [], args := [])
  }

  /** One non-definition line. */
  function Step(d: Dialect, st: ScanState, doc: seq<string>, line: nat): ScanState
    requires line < |doc|
    requires PendingReady(st)
  {
    var lr := LineRange(doc, line);
    var st1 := TrackComment(d, st, lr, doc[line]);
    if IsMarkerLine(doc[line]) then MarkerLine(d, st1, lr, doc[line]) else SeparatorLine(st1)
  }

  lemma MarkerLineConsistent(d: Dialect, st: ScanState, lr: Range, s: string, start: nat, line: nat)
    requires Consistent(d, st, start, line) && start <= line && lr.start.line == line
    ensures Consistent(d, MarkerLine(d, st, lr, s), start, line + 1)
  {
    var cs := ContentStart(s);
    var kind := Classify(d, s, cs);
    if kind != Unmatched {
      assert kind == ArgKind ==> d.recogniseArg;
    }
  }

  lemma StepReady(d: Dialect, st: ScanState, doc: seq<string>, line: nat)
    requires line < |doc| && PendingReady(st)
    ensures PendingReady(Step(d, st, doc, line))
  {
  }

  lemma StepConsistent(d: Dialect, st: ScanState, doc: seq<string>, start: nat, line: nat)
    requires line < |doc| && Consistent(d, st, start, line) && start <= line
    ensures Consistent(d, Step(d, st, doc, line), start, line + 1)
  {
    var lr := LineRange(doc, line);
    var st1 := TrackComment(d, st, lr, doc[line]);
    assert Consistent(d, st1, start, line);
    if IsMarkerLine(doc[line]) {
      MarkerLineConsistent(d, st1, lr, doc[line], start, line);
    }
  }

  /** The item a definition line closes, or `Throws` when its parse throws. */
  function DefinitionItemAt<N>(dl: Delegate<N>, doc: seq<string>, start: nat, st: ScanState, line: nat): Outcome<Item<N>>
    requires start <= line < |doc|
    requires |st.props| > 0 ==> st.head.Some? && st.blockEnd.Some?
  {
    match dl(doc[line], st.name, line)
    case Throws => Throws
    case Value(p) =>
      var def := Definition(p.node, Some(LineRange(doc, line)), p.nameRange, p.problem, st.env, st.name, st.desc);
      var blocks := if |st.props| > 0 then st.blocks + [PendingBlock(st, [])] else st.blocks;
      Value(Item(blocks, def, Range(Position(start, 0), LineRange(doc, line).end), st.comments))
  }

  /** The metadata-only item left at the end of the document, if any metadata is in force. */
  function TrailingItem<N>(doc: seq<string>, st: ScanState): Option<Item<N>>
    requires (st.env.Some? || st.name.Some? || st.desc.Some?) ==> st.head.Some? && |doc| > 0
  {
    if st.env.Some? || st.name.Some? || st.desc.Some? then
      var def := Definition(None, None, None, None, st.env, st.name, st.desc);
      Some(Item([], def, Range(st.head.value.start, LineRange(doc, |doc| - 1).end), st.comments))
    else None
  }

  /** The result of looking for the next item: found, none left, or the parse threw. */
  datatype Next<N> = Emit(item: Item<N>) | Exhausted | Aborted

  /** The first definition line at or after `i`, or `|doc|` when there is none. */
  function NextDefinitionLine(doc: seq<string>, i: nat): (r: nat)
    requires i <= |doc|
    decreases |doc| - i
    ensures i <= r <= |doc| && (r < |doc| ==> IsDefinitionLine(doc[r]))
    ensures forall k :: i <= k < r ==> !IsDefinitionLine(doc[k])
  {
    if i == |doc| || IsDefinitionLine(doc[i]) then i else NextDefinitionLine(doc, i + 1)
  }

  /** The scanner's state after the lines from `start` up to `L` have been read, from the fresh state. */
  function ScanTo(d: Dialect, doc: seq<string>, start: nat, L: nat): (r: ScanState)
    requires start <= L <= |doc|
    decreases L, 0
    ensures PendingReady(r)
  {
    if L == start then Fresh else ScanAfter(d, doc, start, L - 1)
  }

  /** The scanner's state once line `line` has been read as well. */
  function ScanAfter(d: Dialect, doc: seq<string>, start: nat, line: nat): (r: ScanState)
    requires start <= line < |doc|
    decreases line, 1
    ensures PendingReady(r)
  {
    var before := ScanTo(d, doc, start, line);
    StepReady(d, before, doc, line);
    Step(d, before, doc, line)
  }

  /** One more line read: the state after it is one step from the state before it. */
  lemma ScanToNext(d: Dialect, doc: seq<string>, start: nat, line: nat)
    requires start <= line < |doc|
    ensures ScanTo(d, doc, start, line + 1) == Step(d, ScanTo(d, doc, start, line), doc, line)
  {
  }

  /** Reading the lines from `start` up to `L` keeps the scanner's variables consistent. */
  lemma {:induction false} ScanToConsistent(d: Dialect, doc: seq<string>, start: nat, L: nat)
    requires start <= L <= |doc|
    ensures Consistent(d, ScanTo(d, doc, start, L), start, L)
    decreases L
  {
    if L > start {
      ScanToConsistent(d, doc, start, L - 1);
      StepConsistent(d, ScanTo(d, doc, start, L - 1), doc, start, L - 1);
      ScanToNext(d, doc, start, L - 1);
    }
  }

  /**
   * What the scan yields once it stops at line `L` with state `st`: the item the definition
   * line `L` closes, or at the end of the document the metadata-only item, if any.
   */
  function CloseAt<N>(d: Dialect, dl: Delegate<N>, doc: seq<string>, start: nat, st: ScanState, L: nat): (r: Next<N>)
    requires start <= L <= |doc| && Consistent(d, st, start, L)
    ensures r.Emit? ==> start <= r.item.range.start.line <= r.item.range.end.line < |doc|
  {
    if L == |doc| then
      match TrailingItem(doc, st)
      case Some(it) => Emit(it)
      case None => Exhausted
    else
      match DefinitionItemAt(dl, doc, start, st, L)
      case Value(it) => Emit(it)
      case Throws => Aborted
  }

  /**
   * The search for one item from line `start`: read lines up to the next definition line,
   * then close the item there (or at the end of the document).
   */
  function ScanFrom<N>(d: Dialect, dl: Delegate<N>, doc: seq<string>, start: nat): (r: Next<N>)
    requires start <= |doc|
    ensures r.Emit? ==> start <= r.item.range.start.line <= r.item.range.end.line < |doc|
  {
    var L := NextDefinitionLine(doc, start);
    ScanToConsistent(d, doc, start, L);
    CloseAt(d, dl, doc, start, ScanTo(d, doc, start, L), L)
  }

  /** Where the scan resumes: after the previous item, or at the top of the document. */
  function ResumeLine<N>(previous: Option<Item<N>>): nat
  {
    if previous.Some? then previous.value.range.end.line + 1 else 0
  }

  /** parseNextStream / parseNextTask. */
  function NextItem<N>(d: Dialect, dl: Delegate<N>, doc: seq<string>, previous: Option<Item<N>>): (r: Next<N>)
    requires previous.Some? ==> previous.value.range.end.line < |doc|
    ensures r.Emit? ==> ResumeLine(previous) <= r.item.range.start.line <= r.item.range.end.line < |doc|
  {
    ScanFrom(d, dl, doc, ResumeLine(previous))
  }

  /** Every item of the document from line `start` on, in order; `Throws` if a parse throws. */
  function ItemsFrom<N>(d: Dialect, dl: Delegate<N>, doc: seq<string>, start: nat): (r: Outcome<seq<Item<N>>>)
    requires start <= |doc|
    decreases |doc| - start
    ensures r.Value? ==> forall i :: 0 <= i < |r.value| ==>
      start <= r.value[i].range.start.line <= r.value[i].range.end.line < |doc|
    ensures r.Value? ==> forall i, j :: 0 <= i < j < |r.value| ==>
      r.value[i].range.end.line < r.value[j].range.start.line
  {
    match ScanFrom(d, dl, doc, start)
    case Exhausted => Value([])
    case Aborted => Throws
    case Emit(it) =>
      match ItemsFrom(d, dl, doc, it.range.end.line + 1)
      case Throws => Throws
      case Value(rest) => Value([it] + rest)
  }

  /** parseStreams / parseTasks: the items of a whole document. */
  function Items<N>(d: Dialect, dl: Delegate<N>, doc: seq<string>): (r: Outcome<seq<Item<N>>>)
    ensures r.Value? ==> forall i :: 0 <= i < |r.value| ==> r.value[i].range.end.line < |doc|
    ensures r.Value? ==> forall i, j :: 0 <= i < j < |r.value| ==> r.value[i].range.end.line < r.value[j].range.start.line
  {
    ItemsFrom(d, dl, doc, 0)
  }

  /** `items` followed by the items of `rest`, unless `rest` threw. */
  function Prepend<N>(items: seq<Item<N>>, rest: Outcome<seq<Item<N>>>): Outcome<seq<Item<N>>>
  {
    match rest
    case Throws => Throws
    case Value(more) => Value(items + more)
  }

  /**
   * The marker-line branch of the scanner: find the content start, recognise the token
   * there and record the line in its slot, opening the pending block if none is open.
   */
  method ReadMarkerLine(d: Dialect, st: ScanState, lr: Range, text: string) returns (r: ScanState)
    ensures r == MarkerLine(d, st, lr, text)
  {
    r := st;
    if !d.endOnMatchOnly {
      r := r.(blockEnd := Some(lr.end));
    }
    var contentStart := FindContentStart(text);
    ClassifyOrder(d, text, contentStart);
    var contentRange := Range(Position(lr.start.line, 0), lr.end);
    if contentStart > -1 {
      contentRange := Range(Position(lr.start.line, contentStart), lr.end);
    }
    var item := MetadataItem(lr, contentRange, text);
    var matched := true;
    if contentStart > -1 && StartsWithAt(text, EnvPrefix, contentStart) {
      r := r.(env := Some(item));
    } else if contentStart > -1 && StartsWithAt(text, NamePrefix, contentStart) {
      r := r.(name := Some(item));
    } else if contentStart > -1 && StartsWithAt(text, DescPrefix, contentStart) {
      r := r.(desc := Some(item));
    } else if contentStart > -1 && StartsWithAt(text, PropPrefix, contentStart) {
      r := r.(props := r.props + [item]);
    } else if d.recogniseArg && contentStart > -1 && StartsWithAt(text, ArgPrefix, contentStart) {
      r := r.(args := r.args + [item]);
    } else {
      matched := false;
    }
    if matched {
      if r.head.None? {
        r := r.(head := Some(lr));
      }
      if d.endOnMatchOnly {
        r := r.(blockEnd := Some(lr.end));
      }
    }
  }

  /** One non-definition line of the scanner: comment tracking, then a marker line or a separator. */
  method ReadLine(d: Dialect, st: ScanState, doc: seq<string>, line: nat) returns (r: ScanState)
    requires line < |doc|
    requires PendingReady(st)
    ensures r == Step(d, st, doc, line)
  {
    var lr := LineRange(doc, line);
    var text := doc[line];
    var trim := TrimStart(text);
    r := st;
    if d.trackComments {
      if |trim| > 0 && trim[0] == '#' {
        if r.comment.None? {
          r := r.(comment := Some(lr));
        } else {
          r := r.(comment := Some(RangeExtend(r.comment.value, lr)));
        }
      } else if r.comment.Some? {
        r := r.(comments := r.comments + [r.comment.value], comment := None);
      }
    }
    if |trim| > 2 && (trim[0] == '#' || trim[0] == '-') {
      r := ReadMarkerLine(d, r, lr, text);
    } else {
      if |r.props| > 0 || |r.args| > 0 {
        var block := Block(r.props, r.args, r.head.value, Range(r.head.value.start, r.blockEnd.value), r.env);
        r := r.(blocks := r.blocks + [block], env := None, name := None, desc := None, head := None);
      }
      r := r.(props := [], args := []);
    }
  }

  /**
   * The definition-line branch of the scanner: parse the line and close the item with the
   * metadata in force and the blocks seen, storing the pending block if it has `@prop` lines.
   */
  method ReadDefinitionLine<N>(ghost d: Dialect, dl: Delegate<N>, doc: seq<string>, start: nat, st: ScanState, line: nat)
    returns (r: Next<N>)
    requires start <= line < |doc| && line == NextDefinitionLine(doc, start)
    requires st == ScanTo(d, doc, start, line)
    ensures r == ScanFrom(d, dl, doc, start)
  {
    ScanToConsistent(d, doc, start, line);
    var lr := LineRange(doc, line);
    var parsed := dl(doc[line], st.name, line);
    if parsed.Throws? {
      return Aborted;
    }
    var p := parsed.value;
    var def := Definition(p.node, Some(lr), p.nameRange, p.problem, st.env, st.name, st.desc);
    var deployments := st.blocks;
    if |st.props| > 0 {
      var block := Block(st.props, [], st.head.value, Range(st.head.value.start, st.blockEnd.value), st.env);
      deployments := deployments + [block];
    }
    r := Emit(Item(deployments, def, Range(Position(start, 0), lr.end), st.comments));
  }

  /** The end of the document: the metadata-only item, if any metadata is in force. */
  method ReadEnd<N>(ghost d: Dialect, ghost dl: Delegate<N>, doc: seq<string>, ghost start: nat, st: ScanState, lastLine: Option<Range>)
    returns (r: Next<N>)
    requires start <= |doc| && NextDefinitionLine(doc, start) == |doc|
    requires st == ScanTo(d, doc, start, |doc|)
    requires |doc| > start ==> lastLine == Some(LineRange(doc, |doc| - 1))
    ensures r == ScanFrom(d, dl, doc, start)
  {
    ScanToConsistent(d, doc, start, |doc|);
    if st.env.Some? || st.name.Some? || st.desc.Some? {
      var def := Definition(None, None, None, None, st.env, st.name, st.desc);
      return Emit(Item([], def, Range(st.head.value.start, lastLine.value.end), st.comments));
    }
    return Exhausted;
  }

  /**
   * parseNextStream / parseNextTask: scan from the line after `previous` until a definition
   * line closes an item, or the document ends. `st` holds the scanner's local variables.
   */
  method ParseNext<N>(d: Dialect, dl: Delegate<N>, doc: seq<string>, previous: Option<Item<N>>) returns (r: Next<N>)
    requires previous.Some? ==> previous.value.range.end.line < |doc|
    ensures r == NextItem(d, dl, doc, previous)
  {
    var start: nat := if previous.Some? then previous.value.range.end.line + 1 else 0;
    r := ScanItem(d, dl, doc, start);
  }

  /** The scanner from line `start` of `doc`: its loop, then the item a definition line or the end closes. */
  method ScanItem<N>(d: Dialect, dl: Delegate<N>, doc: seq<string>, start: nat) returns (r: Next<N>)
    requires start <= |doc|
    ensures r == ScanFrom(d, dl, doc, start)
  {
    var line, st, lineRange := ReadMetadataLines(d, doc, start);
    if line < |doc| {
      r := ReadDefinitionLine(d, dl, doc, start, st, line);
    } else {
      r := ReadEnd(d, dl, doc, start, st, lineRange);
    }
  }

  /**
   * The scanner's loop up to the next definition line, or the end of the document: every line
   * read updates the scanner's variables, and `lineRange` holds the range of the last one.
   */
  method ReadMetadataLines(d: Dialect, doc: seq<string>, start: nat) returns (line: nat, st: ScanState, lineRange: Option<Range>)
    requires start <= |doc|
    ensures line == NextDefinitionLine(doc, start)
    ensures st == ScanTo(d, doc, start, line)
    ensures line > start ==> lineRange == Some(LineRange(doc, line - 1))
  {
    st := Fresh;
    lineRange := None;
    ghost var L := NextDefinitionLine(doc, start);
    line := start;
    while line < |doc|
      invariant start <= line <= L
      invariant line > start ==> lineRange == Some(LineRange(doc, line - 1))
      invariant st == ScanTo(d, doc, start, line)
      decreases |doc| - line
    {
      var trim := TrimStart(doc[line]);
      if HasText(trim) && IsLetterOrDigit(trim[0]) {
        // a definition line closes the item
        return;
      }
      lineRange := Some(LineRange(doc, line));
      st := ReadLine(d, st, doc, line);
      ScanToNext(d, doc, start, line);
      line := line + 1;
    }
  }

  lemma PrependAppend<N>(items: seq<Item<N>>, it: Item<N>, rest: Outcome<seq<Item<N>>>)
    ensures Prepend(items, Prepend([it], rest)) == Prepend(items + [it], rest)
  {
    if rest.Value? {
      assert items + ([it] + rest.value) == (items + [it]) + rest.value;
    }
  }

  lemma ItemsFromNext<N>(d: Dialect, dl: Delegate<N>, doc: seq<string>, previous: Option<Item<N>>)
    requires previous.Some? ==> previous.value.range.end.line < |doc|
    ensures ItemsFrom(d, dl, doc, ResumeLine(previous)) ==
      match NextItem(d, dl, doc, previous)
      case Exhausted => Value([])
      case Aborted => Throws
      case Emit(it) => Prepend([it], ItemsFrom(d, dl, doc, ResumeLine(Some(it))))
  {
  }

  /** parseStreams / parseTasks: ask for the next item until there is none. */
  method ParseItems<N>(d: Dialect, dl: Delegate<N>, doc: seq<string>) returns (r: Outcome<seq<Item<N>>>)
    ensures r == Items(d, dl, doc)
  {
    var items: seq<Item<N>> := [];
    var item: Option<Item<N>> := None;
    assert Prepend(items, ItemsFrom(d, dl, doc, 0)) == ItemsFrom(d, dl, doc, 0) by {
      if ItemsFrom(d, dl, doc, 0).Value? {
        assert [] + ItemsFrom(d, dl, doc, 0).value == ItemsFrom(d, dl, doc, 0).value;
      }
    }
    while true
      invariant item.Some? ==> item.value.range.end.line < |doc|
      invariant Items(d, dl, doc) == Prepend(items, ItemsFrom(d, dl, doc, ResumeLine(item)))
      decreases |doc| + 1 - ResumeLine(item)
    {
      var next := ParseNext(d, dl, doc, item);
      match next
      case Aborted =>
        ItemsFromNext(d, dl, doc, item);
        return Throws;
      case Exhausted =>
        ItemsFromNext(d, dl, doc, item);
        assert items + [] == items;
        return Value(items);
      case Emit(it) =>
        ItemsFromNext(d, dl, doc, item);
        PrependAppend(items, it, ItemsFrom(d, dl, doc, ResumeLine(Some(it))));
        items := items + [it];
        item := Some(it);
    }
  }
}
