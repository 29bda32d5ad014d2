/**
 * Comment tracking of the stream scanner: each comment range an item carries covers one
 * maximal run of consecutive `#` lines, from the first column of its first line to the end
 * of its last line, and a line that is not a comment line closed it; the ranges come in
 * document order. A run still open when a definition line closes the item is dropped. The
 * task scanner tracks no comments at all.
 */
module SegmenterComments {
  import opened Wrappers
  import opened Text
  import opened Ranges
  import opened Segmenter

  /**
   * `r` covers a run of comment lines: from column 0 of line `r.start.line` to the end of
   * line `r.end.line`, every line in between is a comment line, and the run does not extend
   * further up without reaching `start`.
   */
  predicate CommentRun(doc: seq<string>, start: nat, r: Range)
  {
    && start <= r.start.line <= r.end.line < |doc|
    && r.start.character == 0
    && r.end == LineRange(doc, r.end.line).end
    && (forall k :: r.start.line <= k <= r.end.line ==> IsCommentLine(doc[k]))
    && (r.start.line > start ==> !IsCommentLine(doc[r.start.line - 1]))
  }

  /** A run that a line before `L` which is not a comment line has closed. */
  predicate ClosedRun(doc: seq<string>, start: nat, L: nat, r: Range)
  {
    && CommentRun(doc, start, r)
    && r.end.line + 1 < L <= |doc|
    && !IsCommentLine(doc[r.end.line + 1])
  }

  /** Closed runs, each ending more than one line before the next starts. */
  predicate ClosedRuns(doc: seq<string>, start: nat, L: nat, comments: seq<Range>)
  {
    && (forall i :: 0 <= i < |comments| ==> ClosedRun(doc, start, L, comments[i]))
    && (forall i :: 0 < i < |comments| ==> comments[i - 1].end.line + 1 < comments[i].start.line)
  }

  /**
   * The comment variables after the lines from `start` up to `L`: closed runs in order, and
   * an open run that reaches line `L - 1` exactly when that line is a comment line.
   */
  predicate CommentsTracked(doc: seq<string>, start: nat, L: nat, comments: seq<Range>, comment: Option<Range>)
    requires start <= L <= |doc|
  {
    && ClosedRuns(doc, start, L, comments)
    && match comment
      case Some(r) =>
        && CommentRun(doc, start, r) && r.end.line + 1 == L
        && (|comments| > 0 ==> comments[|comments| - 1].end.line + 1 < r.start.line)
      case None => L > start ==> !IsCommentLine(doc[L - 1])
  }

  lemma ClosedRunsLater(doc: seq<string>, start: nat, L: nat, L': nat, comments: seq<Range>)
    requires ClosedRuns(doc, start, L, comments) && L <= L' <= |doc|
    ensures ClosedRuns(doc, start, L', comments)
  {
  }

  lemma ClosedRunsSnoc(doc: seq<string>, start: nat, L: nat, comments: seq<Range>, r: Range)
    requires ClosedRuns(doc, start, L, comments) && ClosedRun(doc, start, L, r)
    requires |comments| > 0 ==> comments[|comments| - 1].end.line + 1 < r.start.line
    ensures ClosedRuns(doc, start, L, comments + [r])
  {
    var all := comments + [r];
    forall i | 0 <= i < |all|
      ensures ClosedRun(doc, start, L, all[i])
    {
      if i < |comments| {
        assert all[i] == comments[i];
      } else {
        assert all[i] == r;
      }
    }
    forall i | 0 < i < |all|
      ensures all[i - 1].end.line + 1 < all[i].start.line
    {
      assert all[i - 1] == comments[i - 1];
      if i < |comments| {
        assert all[i] == comments[i];
      } else {
        assert all[i] == r;
      }
    }
  }

  /** A comment line after an open run extends it to the end of that line. */
  lemma ExtendRun(doc: seq<string>, start: nat, L: nat, comments: seq<Range>, c: Range)
    requires start <= L < |doc| && IsCommentLine(doc[L])
    requires CommentsTracked(doc, start, L, comments, Some(c))
    ensures CommentsTracked(doc, start, L + 1, comments, Some(RangeExtend(c, LineRange(doc, L))))
  {
    ClosedRunsLater(doc, start, L, L + 1, comments);
    var ext := RangeExtend(c, LineRange(doc, L));
    forall k | ext.start.line <= k <= ext.end.line
      ensures IsCommentLine(doc[k])
    {
      if k < L {
        assert c.start.line <= k <= c.end.line;
      }
    }
  }

  /** A comment line with no run open opens one. */
  lemma OpenRun(doc: seq<string>, start: nat, L: nat, comments: seq<Range>)
    requires start <= L < |doc| && IsCommentLine(doc[L])
    requires CommentsTracked(doc, start, L, comments, None)
    ensures CommentsTracked(doc, start, L + 1, comments, Some(LineRange(doc, L)))
  {
    ClosedRunsLater(doc, start, L, L + 1, comments);
  }

  /** Any other line closes the open run. */
  lemma CloseRun(doc: seq<string>, start: nat, L: nat, comments: seq<Range>, c: Range)
    requires start <= L < |doc| && !IsCommentLine(doc[L])
    requires CommentsTracked(doc, start, L, comments, Some(c))
    ensures CommentsTracked(doc, start, L + 1, comments + [c], None)
  {
    ClosedRunsLater(doc, start, L, L + 1, comments);
    ClosedRunsSnoc(doc, start, L + 1, comments, c);
  }

  lemma TrackCommentTracked(d: Dialect, st: ScanState, doc: seq<string>, start: nat, L: nat)
    requires d.trackComments && start <= L < |doc|
    requires CommentsTracked(doc, start, L, st.comments, st.comment)
    ensures var r := TrackComment(d, st, LineRange(doc, L), doc[L]);
      CommentsTracked(doc, start, L + 1, r.comments, r.comment)
  {
    if IsCommentLine(doc[L]) {
      if st.comment.Some? {
        ExtendRun(doc, start, L, st.comments, st.comment.value);
      } else {
        OpenRun(doc, start, L, st.comments);
      }
    } else if st.comment.Some? {
      CloseRun(doc, start, L, st.comments, st.comment.value);
    } else {
      ClosedRunsLater(doc, start, L, L + 1, st.comments);
    }
  }

  /** A line leaves the comment variables as comment tracking alone leaves them. */
  lemma ScanAfterComments(d: Dialect, doc: seq<string>, start: nat, line: nat)
    requires start <= line < |doc|
    ensures var t := TrackComment(d, ScanTo(d, doc, start, line), LineRange(doc, line), doc[line]);
      ScanAfter(d, doc, start, line).comments == t.comments && ScanAfter(d, doc, start, line).comment == t.comment
  {
  }

  /** Every state of the stream scanner tracks the comment runs of the lines it has read. */
  lemma {:induction false} ScanToComments(d: Dialect, doc: seq<string>, start: nat, L: nat)
    requires d.trackComments && start <= L <= |doc|
    ensures CommentsTracked(doc, start, L, ScanTo(d, doc, start, L).comments, ScanTo(d, doc, start, L).comment)
    decreases L
  {
    if L > start {
      ScanToComments(d, doc, start, L - 1);
      TrackCommentTracked(d, ScanTo(d, doc, start, L - 1), doc, start, L - 1);
      ScanAfterComments(d, doc, start, L - 1);
    }
  }

  /**
   * The comment ranges of an item the stream scanner emits: closed runs of comment lines,
   * in order, between the line where the search began and the line that closed the item.
   */
  lemma StreamItemComments<N>(dl: Delegate<N>, doc: seq<string>, start: nat)
    requires start <= |doc|
    ensures ScanFrom(StreamDialect, dl, doc, start).Emit? ==>
      ClosedRuns(doc, start, NextDefinitionLine(doc, start), ScanFrom(StreamDialect, dl, doc, start).item.commentRanges)
  {
    var L := NextDefinitionLine(doc, start);
    ScanToComments(StreamDialect, doc, start, L);
    ScanToConsistent(StreamDialect, doc, start, L);
  }

  /** A scanner that does not track comments never records a comment range. */
  lemma {:induction false} UntrackedNoComments(d: Dialect, doc: seq<string>, start: nat, L: nat)
    requires !d.trackComments && start <= L <= |doc|
    ensures ScanTo(d, doc, start, L).comments == [] && ScanTo(d, doc, start, L).comment.None?
    decreases L, 0
  {
    if L > start {
      UntrackedAfterNoComments(d, doc, start, L - 1);
    }
  }

  lemma {:induction false} UntrackedAfterNoComments(d: Dialect, doc: seq<string>, start: nat, line: nat)
    requires !d.trackComments && start <= line < |doc|
    ensures ScanAfter(d, doc, start, line).comments == [] && ScanAfter(d, doc, start, line).comment.None?
    decreases line, 1
  {
    UntrackedNoComments(d, doc, start, line);
    ScanAfterComments(d, doc, start, line);
  }

  /** The items the task scanner emits carry no comment ranges. */
  lemma TaskItemComments<N>(dl: Delegate<N>, doc: seq<string>, start: nat)
    requires start <= |doc|
    ensures ScanFrom(TaskDialect, dl, doc, start).Emit? ==> ScanFrom(TaskDialect, dl, doc, start).item.commentRanges == []
  {
    var L := NextDefinitionLine(doc, start);
    UntrackedNoComments(TaskDialect, doc, start, L);
    ScanToConsistent(TaskDialect, doc, start, L);
  }
}
