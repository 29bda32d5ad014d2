/**
 * Folding of a stream document: for each item, one region fold over the item, starting below
 * a comment run that opens the item, then one comment fold per comment run the item carries.
 */
module StreamFolder {
  import opened Wrappers
  import opened Ranges
  import opened Segmenter
  import opened SegmenterShape
  import opened SegmenterComments
  import opened StreamService

  datatype FoldingKind = Region | Comment

  datatype FoldingRange = FoldingRange(startLine: int, startCharacter: int, endLine: int, endCharacter: int, kind: FoldingKind)

  /** The index of the first comment range that starts on `line`, if any. */
  function FirstCommentOn(comments: seq<Range>, line: nat): (r: Option<nat>)
    ensures r.Some? ==> r.value < |comments| && comments[r.value].start.line == line
    ensures r.Some? ==> forall j :: 0 <= j < r.value ==> comments[j].start.line != line
    ensures r.None? <==> forall j :: 0 <= j < |comments| ==> comments[j].start.line != line
    decreases |comments|
  {
    if |comments| == 0 then None
    else if comments[0].start.line == line then Some(0)
    else match FirstCommentOn(comments[1..], line)
      case None => None
      case Some(k) => Some(k + 1)
  }

  /**
   * streamFolds: a region from the item's start to its end; when a comment run starts on the
   * item's first line, the region starts on the line after the first such run instead.
   */
  function RegionFold<N>(it: Item<N>): (r: FoldingRange)
    ensures r.kind == Region
    ensures r.startCharacter == it.range.start.character
    ensures r.endLine == it.range.end.line && r.endCharacter == it.range.end.character
    ensures (forall j :: 0 <= j < |it.commentRanges| ==> it.commentRanges[j].start.line != it.range.start.line)
      ==> r.startLine == it.range.start.line
    ensures r.startLine != it.range.start.line ==>
      exists j :: 0 <= j < |it.commentRanges| && it.commentRanges[j].start.line == it.range.start.line
        && r.startLine == it.commentRanges[j].end.line + 1
  {
    var first := FirstCommentOn(it.commentRanges, it.range.start.line);
    var startLine := if first.Some? then it.commentRanges[first.value].end.line + 1 else it.range.start.line;
    FoldingRange(startLine, it.range.start.character, it.range.end.line, it.range.end.character, Region)
  }

  /** commentFolds: one comment fold per comment range, in order, spanning it exactly. */
  function CommentFolds<N>(it: Item<N>): (r: seq<FoldingRange>)
    ensures |r| == |it.commentRanges|
    ensures forall j :: 0 <= j < |r| ==>
      var c := it.commentRanges[j];
      r[j] == FoldingRange(c.start.line, c.start.character, c.end.line, c.end.character, Comment)
  {
    seq(|it.commentRanges|, j requires 0 <= j < |it.commentRanges| =>
      var c := it.commentRanges[j];
      FoldingRange(c.start.line, c.start.character, c.end.line, c.end.character, Comment))
  }

  /** The folds of one item: its region first, then its comments. */
  function ItemFolds<N>(it: Item<N>): (r: seq<FoldingRange>)
    ensures |r| == 1 + |it.commentRanges|
    ensures r[0] == RegionFold(it) && r[1..] == CommentFolds(it)
  {
    [RegionFold(it)] + CommentFolds(it)
  }

  /** The folds of the items, item after item. */
  function FoldsOf<N>(items: seq<Item<N>>): seq<FoldingRange>
    decreases |items|
  {
    if |items| == 0 then []
    else FoldsOf(items[..|items| - 1]) + ItemFolds(items[|items| - 1])
  }

  /** How many comment ranges the items carry. */
  function CommentCount<N>(items: seq<Item<N>>): nat
    decreases |items|
  {
    if |items| == 0 then 0
    else CommentCount(items[..|items| - 1]) + |items[|items| - 1].commentRanges|
  }

  /** Each item gives one region fold and one fold per comment range. */
  lemma {:induction false} FoldsOfCount<N>(items: seq<Item<N>>)
    ensures |FoldsOf(items)| == |items| + CommentCount(items)
    decreases |items|
  {
    if |items| > 0 {
      FoldsOfCount(items[..|items| - 1]);
    }
  }

  /** fold of a stream document, over the items of the service the folder extends. */
  function Fold(parse: StreamParser, doc: seq<string>): (r: seq<FoldingRange>)
    ensures doc == [] ==> r == []
    ensures |r| == |OldDocumentItems(parse, doc)| + CommentCount(OldDocumentItems(parse, doc))
  {
    var items := OldDocumentItems(parse, doc);
    FoldsOfCount(items);
    if doc == [] then
      EmptyDocument(StreamDialect, OldStreamDelegate(parse));
      FoldsOf(items)
    else FoldsOf(items)
  }

  /**
   * Every comment range of an item covers comment lines only, ends above the item's last line,
   * and the line right after it is not a comment line.
   */
  predicate CommentsClosed<N>(doc: seq<string>, it: Item<N>)
  {
    forall j :: 0 <= j < |it.commentRanges| ==> CommentClosed(doc, it.range.end.line, it.commentRanges[j])
  }

  predicate CommentClosed(doc: seq<string>, last: int, c: Range)
  {
    && 0 <= c.start.line <= c.end.line < last < |doc|
    && (forall k :: c.start.line <= k <= c.end.line ==> IsCommentLine(doc[k]))
    && !IsCommentLine(doc[c.end.line + 1])
  }

  lemma ClosedRunsClosed(doc: seq<string>, start: nat, L: nat, last: nat, comments: seq<Range>)
    requires ClosedRuns(doc, start, L, comments) && L <= last + 1 && last < |doc|
    ensures forall j :: 0 <= j < |comments| ==> CommentClosed(doc, last, comments[j])
  {
  }

  /** The item a stream search finds first carries closed comment runs only. */
  lemma FirstItemCommentsClosed<N>(dl: Delegate<N>, doc: seq<string>, start: nat)
    requires start <= |doc|
    ensures ScanFrom(StreamDialect, dl, doc, start).Emit? ==>
      CommentsClosed(doc, ScanFrom(StreamDialect, dl, doc, start).item)
  {
    var next := ScanFrom(StreamDialect, dl, doc, start);
    if next.Emit? {
      var it := next.item;
      FirstItem(StreamDialect, dl, doc, start);
      StreamItemComments(dl, doc, start);
      ClosedRunsClosed(doc, start, NextDefinitionLine(doc, start), it.range.end.line, it.commentRanges);
    }
  }

  /** The items a stream search finds carry closed comment runs only. */
  lemma ItemsCommentsClosed<N>(dl: Delegate<N>, doc: seq<string>, start: nat)
    requires start <= |doc|
    ensures var items := ItemsFrom(StreamDialect, dl, doc, start);
      items.Value? ==> forall i :: 0 <= i < |items.value| ==> CommentsClosed(doc, items.value[i])
  {
    forall s: nat | s <= |doc| && ScanFrom(StreamDialect, dl, doc, s).Emit?
      ensures CommentsClosed(doc, ScanFrom(StreamDialect, dl, doc, s).item)
    {
      FirstItemCommentsClosed(dl, doc, s);
    }
    ItemsHold(StreamDialect, dl, doc, start, it => CommentsClosed(doc, it));
  }

  /**
   * On a stream document, a region fold never starts inside a comment run: it starts on the
   * item's first line, or that line opens a comment run and the region starts on the first
   * line after it, which is not a comment line and not past the item's last line. Every
   * comment fold covers comment lines only and ends above its item's last line.
   */
  lemma FoldsSkipLeadingComments(parse: StreamParser, doc: seq<string>)
    ensures var items := OldDocumentItems(parse, doc);
      forall i :: 0 <= i < |items| ==> (
        var f := RegionFold(items[i]);
        && f.startLine <= f.endLine < |doc|
        && (f.startLine != items[i].range.start.line ==>
              IsCommentLine(doc[items[i].range.start.line]) && !IsCommentLine(doc[f.startLine]))
        && CommentsClosed(doc, items[i]))
  {
    var items := OldDocumentItems(parse, doc);
    ItemsCommentsClosed(OldStreamDelegate(parse), doc, 0);
    forall i | 0 <= i < |items|
      ensures var f := RegionFold(items[i]);
        && f.startLine <= f.endLine < |doc|
        && (f.startLine != items[i].range.start.line ==>
              IsCommentLine(doc[items[i].range.start.line]) && !IsCommentLine(doc[f.startLine]))
    {
      var f := RegionFold(items[i]);
      if f.startLine != items[i].range.start.line {
        var j :| 0 <= j < |items[i].commentRanges| && items[i].commentRanges[j].start.line == items[i].range.start.line
          && f.startLine == items[i].commentRanges[j].end.line + 1;
        assert CommentClosed(doc, items[i].range.end.line, items[i].commentRanges[j]);
      }
    }
  }
}
