/**
 * 01_ingest.py: newline-delimited records are cut out of a stream of decoded
 * chunks; submissions that pass the quality filters are kept once per id and
 * written in batches; for every known submission the three top-level
 * comments with the highest score are kept in a min-heap.
 */
module Ingest {
  import opened Wrappers
  import opened Text
  import opened Batching

  // ---------------------------------------------------------------------
  // The line splitter of `stream_zst_lines`
  // ---------------------------------------------------------------------

  /** The decoded chunks one after the other: the whole stream. */
  function Concat(chunks: seq<string>): string
    decreases |chunks|
  {
    if chunks == [] then "" else Concat(chunks[..|chunks| - 1]) + chunks[|chunks| - 1]
  }

  /** The pieces that are not empty, in their order. */
  function NonEmpty(pieces: seq<string>): (r: seq<string>)
    ensures |r| <= |pieces|
    ensures forall i :: 0 <= i < |r| ==> r[i] != "" && r[i] in pieces
    decreases |pieces|
  {
    if pieces == [] then []
    else
      var front := pieces[..|pieces| - 1];
      var last := pieces[|pieces| - 1];
      assert forall x :: x in front ==> x in pieces;
      NonEmpty(front) + (if last != "" then [last] else [])
  }

  lemma {:induction false} NonEmptyAppend(a: seq<string>, b: seq<string>)
    ensures NonEmpty(a + b) == NonEmpty(a) + NonEmpty(b)
    decreases |b|
  {
    if b == [] {
      assert a + b == a;
    } else {
      var front := b[..|b| - 1];
      assert (a + b)[..|a + b| - 1] == a + front;
      NonEmptyAppend(a, front);
    }
  }

  function DropLast<T>(s: seq<T>): seq<T>
    requires |s| > 0
  {
    s[..|s| - 1]
  }

  /** The lines the splitter yields for a stream: the non-empty pieces before its last newline. */
  function CompleteLines(text: string): seq<string> {
    NonEmpty(DropLast(Split(text, '\n')))
  }

  /** What the splitter carries over: the text after the last newline. */
  function Pending(text: string): string {
    var parts := Split(text, '\n');
    parts[|parts| - 1]
  }

  /** Text without a separator is a single piece. */
  lemma {:induction false} SplitNoSeparator(s: string, sep: char)
    requires sep !in s
    ensures Split(s, sep) == [s]
  {
    if |s| > 0 {
      SplitNoSeparator(s[1..], sep);
      assert [s[0]] + s[1..] == s;
    }
  }

  /** Text that ends in its only separator splits into itself and an empty tail. */
  lemma {:induction false} SplitTerminated(l: string)
    requires '\n' !in l
    ensures Split(l + "\n", '\n') == [l, ""]
  {
    if |l| > 0 {
      assert (l + "\n")[1..] == l[1..] + "\n";
      SplitTerminated(l[1..]);
      assert [l[0]] + l[1..] == l;
    } else {
      assert l + "\n" == "\n";
      assert Split("\n", '\n') == [""] + Split("", '\n');
    }
  }

  /** Appending text splits the old text's complete pieces off unchanged. */
  lemma {:induction false} SplitAppend(t: string, c: string)
    ensures Split(t + c, '\n') == DropLast(Split(t, '\n')) + Split(Pending(t) + c, '\n')
    decreases |t|
  {
    if |t| == 0 {
      assert t + c == c;
      assert Pending(t) + c == c;
    } else {
      SplitAppend(t[1..], c);
      SplitAppendStep(t, c);
    }
  }

  /** The inductive step of `SplitAppend`: one more leading character. */
  lemma SplitAppendStep(t: string, c: string)
    requires |t| > 0
    requires Split(t[1..] + c, '\n') == DropLast(Split(t[1..], '\n')) + Split(Pending(t[1..]) + c, '\n')
    ensures Split(t + c, '\n') == DropLast(Split(t, '\n')) + Split(Pending(t) + c, '\n')
  {
    if t[0] == '\n' {
      SplitAppendBreak(t, c);
    } else if |Split(t[1..], '\n')| > 1 {
      SplitAppendJoin(t, c);
    } else {
      SplitAppendPending(t, c);
    }
  }

  /** The case of `SplitAppendStep` where the first character is a newline. */
  lemma SplitAppendBreak(t: string, c: string)
    requires |t| > 0 && t[0] == '\n'
    requires Split(t[1..] + c, '\n') == DropLast(Split(t[1..], '\n')) + Split(Pending(t[1..]) + c, '\n')
    ensures Split(t + c, '\n') == DropLast(Split(t, '\n')) + Split(Pending(t) + c, '\n')
  {
    LeadingBreak(t, c);
    BreakPiece(Split(t[1..], '\n'), Split(t[1..] + c, '\n'), Split(Pending(t) + c, '\n'));
  }

  /** A leading newline ends an empty piece, with or without more text after `t`. */
  lemma LeadingBreak(t: string, c: string)
    requires |t| > 0 && t[0] == '\n'
    ensures Split(t + c, '\n') == [""] + Split(t[1..] + c, '\n')
    ensures Split(t, '\n') == [""] + Split(t[1..], '\n')
    ensures Pending(t) == Pending(t[1..])
  {
    assert (t + c)[1..] == t[1..] + c;
  }

  /** An empty piece put in front of several pieces. */
  lemma BreakPiece(rest: seq<string>, r: seq<string>, s: seq<string>)
    requires |rest| > 0 && r == DropLast(rest) + s
    ensures [""] + r == DropLast([""] + rest) + s
  {
    assert DropLast([""] + rest) == [""] + DropLast(rest);
  }

  /** The case of `SplitAppendStep` where all of `t` is still pending. */
  lemma SplitAppendPending(t: string, c: string)
    requires |t| > 0 && t[0] != '\n' && |Split(t[1..], '\n')| == 1
    ensures Split(t + c, '\n') == DropLast(Split(t, '\n')) + Split(Pending(t) + c, '\n')
  {
    var rest := Split(t[1..], '\n');
    JoinSplit(t[1..], '\n');
    assert rest == [t[1..]];
    assert Split(t, '\n') == [[t[0]] + t[1..]];
    assert [t[0]] + t[1..] == t;
  }

  /** The case of `SplitAppendStep` where the first character joins a piece that is complete. */
  lemma SplitAppendJoin(t: string, c: string)
    requires |t| > 0 && t[0] != '\n' && |Split(t[1..], '\n')| > 1
    requires Split(t[1..] + c, '\n') == DropLast(Split(t[1..], '\n')) + Split(Pending(t[1..]) + c, '\n')
    ensures Split(t + c, '\n') == DropLast(Split(t, '\n')) + Split(Pending(t) + c, '\n')
  {
    var rest := Split(t[1..], '\n');
    var r := Split(t[1..] + c, '\n');
    assert Split(t + c, '\n') == [[t[0]] + r[0]] + r[1..] by {
      assert (t + c)[1..] == t[1..] + c;
    }
    assert Split(t, '\n') == [[t[0]] + rest[0]] + rest[1..];
    ConsPiece(t[0], rest, r, Split(Pending(t[1..]) + c, '\n'));
  }

  /** A character glued to the first of several pieces leaves the later pieces as they were. */
  lemma ConsPiece(x: char, rest: seq<string>, r: seq<string>, s: seq<string>)
    requires |rest| > 1 && r == DropLast(rest) + s
    ensures [[x] + r[0]] + r[1..] == DropLast([[x] + rest[0]] + rest[1..]) + s
    ensures ([[x] + rest[0]] + rest[1..])[|rest| - 1] == rest[|rest| - 1]
  {
    assert r[1..] == DropLast(rest)[1..] + s;
    assert DropLast([[x] + rest[0]] + rest[1..]) == [[x] + rest[0]] + DropLast(rest)[1..];
  }

  /** Feeding one more chunk yields the lines it completes and carries the rest over. */
  lemma CompleteLinesAppend(t: string, c: string)
    ensures CompleteLines(t + c) == CompleteLines(t) + CompleteLines(Pending(t) + c)
    ensures Pending(t + c) == Pending(Pending(t) + c)
  {
    SplitAppend(t, c);
    var a := DropLast(Split(t, '\n'));
    var b := Split(Pending(t) + c, '\n');
    assert DropLast(a + b) == a + DropLast(b);
    NonEmptyAppend(a, DropLast(b));
  }

  /**
   * The generator of `stream_zst_lines`: each chunk is glued to the partial
   * line carried over, split on newlines, and every complete non-empty piece
   * is yielded. The lines depend only on the whole stream, not on where the
   * chunk boundaries fall.
   */
  method StreamLines(chunks: seq<string>) returns (lines: seq<string>)
    ensures lines == CompleteLines(Concat(chunks))
  {
    var previousLine := "";
    lines := [];
    var j := 0;
    while j < |chunks|
      invariant 0 <= j <= |chunks|
      invariant lines == CompleteLines(Concat(chunks[..j]))
      invariant previousLine == Pending(Concat(chunks[..j]))
    {
      var decoded := previousLine + chunks[j];
      var parts := Split(decoded, '\n');
      previousLine := parts[|parts| - 1];
      lines := YieldNonEmpty(lines, parts[..|parts| - 1]);
      assert parts[..|parts| - 1] == DropLast(parts);
      CompleteLinesAppend(Concat(chunks[..j]), chunks[j]);
      assert chunks[..j + 1][..j] == chunks[..j];
      j := j + 1;
    }
    assert chunks[..j] == chunks;
  }

  /** `for line in lines[:-1]: if line: yield line`, the yielded lines appended to `lines`. */
  method YieldNonEmpty(lines: seq<string>, parts: seq<string>) returns (lines': seq<string>)
    ensures lines' == lines + NonEmpty(parts)
  {
    lines' := lines;
    for q := 0 to |parts|
      invariant lines' == lines + NonEmpty(parts[..q])
    {
      if parts[q] != "" {
        lines' := lines' + [parts[q]];
      }
      assert parts[..q + 1][..q] == parts[..q];
    }
    assert parts[..|parts|] == parts;
  }

  /** Every yielded line is non-empty and holds no newline. */
  lemma LinesAreNonEmptyAndWhole(text: string)
    ensures forall i :: 0 <= i < |CompleteLines(text)| ==>
      CompleteLines(text)[i] != "" && '\n' !in CompleteLines(text)[i]
  {
    var parts := Split(text, '\n');
    forall i | 0 <= i < |CompleteLines(text)|
      ensures '\n' !in CompleteLines(text)[i]
    {
      var x := CompleteLines(text)[i];
      assert x in DropLast(parts);
      var k :| 0 <= k < |DropLast(parts)| && DropLast(parts)[k] == x;
      assert parts[k] == x;
    }
  }

  /** Text after the last newline is never yielded: more text without a newline adds no line. */
  lemma UnterminatedTailNotYielded(t: string, x: string)
    requires '\n' !in x
    ensures CompleteLines(t + x) == CompleteLines(t)
  {
    CompleteLinesAppend(t, x);
    var p := Pending(t);
    assert '\n' !in p + x;
    SplitNoSeparator(p + x, '\n');
    assert CompleteLines(p + x) == NonEmpty([]);
  }

  /** The lines written out, each followed by a newline. */
  function Terminated(ls: seq<string>): string
    decreases |ls|
  {
    if ls == [] then "" else Terminated(ls[..|ls| - 1]) + ls[|ls| - 1] + "\n"
  }

  /** A stream of newline-terminated lines gives back exactly its non-empty lines, in order. */
  lemma {:induction false} TerminatedRoundTrip(ls: seq<string>)
    requires forall i :: 0 <= i < |ls| ==> '\n' !in ls[i]
    ensures CompleteLines(Terminated(ls)) == NonEmpty(ls)
    ensures Pending(Terminated(ls)) == ""
    decreases |ls|
  {
    if ls != [] {
      var front := ls[..|ls| - 1];
      var l := ls[|ls| - 1];
      TerminatedRoundTrip(front);
      var t := Terminated(front);
      assert Terminated(ls) == t + (l + "\n");
      CompleteLinesAppend(t, l + "\n");
      assert Pending(t) + (l + "\n") == l + "\n";
      SplitTerminated(l);
      assert CompleteLines(l + "\n") == NonEmpty([l]);
      assert NonEmpty([l]) == NonEmpty([][..0]) + (if l != "" then [l] else []);
      assert ls == front + [l];
      NonEmptyAppend(front, [l]);
    }
  }

  // ---------------------------------------------------------------------
  // Pass 1: submissions
  // ---------------------------------------------------------------------

  /** Accounts whose posts and comments are never kept. */
  const BotAuthors: set<string> :=
    {"AutoModerator", "AITA-Bot", "JudgementBot", "AITA-Verdict-Bot", "[deleted]", "[removed]"}

  /** A text field in REMOVE_MARKERS: missing or null, empty, or a removal placeholder. */
  predicate IsRemoved(text: Option<string>) {
    text.None? || text.value in {"[removed]", "[deleted]", ""}
  }

  /** An author field naming one of the bot accounts. */
  predicate IsBot(author: Option<string>) {
    author.Some? && author.value in BotAuthors
  }

  /** `data.get("score", 0)` for a score that is an integer or missing. */
  function ScoreOrZero(score: Option<int>): int {
    if score.Some? then score.value else 0
  }

  /**
   * A submission record as parsed from one line. A missing or null text
   * field is `None`; `isSelf` is the truthiness of `is_self`.
   */
  datatype RawSubmission = RawSubmission(
    id: Option<string>, author: Option<string>, title: Option<string>,
    selftext: Option<string>, score: Option<int>, isSelf: bool,
    upvoteRatio: Option<real>, flair: Option<string>, createdUtc: Option<int>,
    permalink: Option<string>)

  /** The row written to the submissions table; `processed` starts out null. */
  datatype SubmissionRow = SubmissionRow(
    id: string, author: Option<string>, title: Option<string>,
    selftext: Option<string>, score: Option<int>, upvoteRatio: Option<real>,
    flair: Option<string>, createdUtc: Option<int>, permalink: Option<string>,
    processed: Option<bool>)

  /** The quality filters that do not depend on what was seen before. */
  predicate Qualifies(s: RawSubmission, minScore: int) {
    && s.id.Some? && s.id.value != ""
    && ScoreOrZero(s.score) >= minScore
    && !IsRemoved(s.selftext) && s.isSelf
    && !IsBot(s.author)
  }

  /** A submission is taken when it qualifies and its id has not been seen. */
  predicate Accepts(s: RawSubmission, seen: set<string>, minScore: int) {
    Qualifies(s, minScore) && s.id.value !in seen
  }

  function ToRow(s: RawSubmission): (row: SubmissionRow)
    requires s.id.Some?
  {
    SubmissionRow(s.id.value, s.author, s.title, s.selftext, s.score,
                  s.upvoteRatio, s.flair, s.createdUtc, s.permalink, None)
  }

  /** The records the lines parse to; a line that is not valid JSON parses to `None`. */
  function Parsed<R>(lines: seq<string>, parse: string -> Option<R>): (records: seq<Option<R>>)
    ensures |records| == |lines|
  {
    seq(|lines|, i requires 0 <= i < |lines| => parse(lines[i]))
  }

  /** Pass 1 as a fold: the rows kept, in stream order, and the seen-id set afterwards. */
  function Pass1(records: seq<Option<RawSubmission>>, existing: set<string>, minScore: int): (seq<SubmissionRow>, set<string>)
    decreases |records|
  {
    if records == [] then ([], existing)
    else
      var (rows, seen) := Pass1(records[..|records| - 1], existing, minScore);
      var r := records[|records| - 1];
      if r.Some? && Accepts(r.value, seen, minScore) then (rows + [ToRow(r.value)], seen + {r.value.id.value})
      else (rows, seen)
  }

  function RowIds(rows: seq<SubmissionRow>): set<string> {
    set i | 0 <= i < |rows| :: rows[i].id
  }

  /**
   * `rows` are the rows of qualifying records taken at the strictly
   * increasing stream positions `ks`.
   */
  ghost predicate DrawnFrom(ks: seq<int>, rows: seq<SubmissionRow>, records: seq<Option<RawSubmission>>, minScore: int) {
    && |ks| == |rows|
    && (forall i :: 0 <= i < |ks| ==>
          && 0 <= ks[i] < |records| && records[ks[i]].Some? && Qualifies(records[ks[i]].value, minScore)
          && rows[i] == ToRow(records[ks[i]].value))
    && (forall i, j :: 0 <= i < j < |ks| ==> ks[i] < ks[j])
  }

  /** Each kept row is the row of a qualifying record (a self post among them), in stream order. */
  lemma {:induction false} Pass1Origin(records: seq<Option<RawSubmission>>, existing: set<string>, minScore: int)
    ensures exists ks :: DrawnFrom(ks, Pass1(records, existing, minScore).0, records, minScore)
    decreases |records|
  {
    if records == [] {
      assert DrawnFrom([], Pass1(records, existing, minScore).0, records, minScore);
    } else {
      var n := |records| - 1;
      var front := records[..n];
      Pass1Origin(front, existing, minScore);
      var (rows, seen) := Pass1(front, existing, minScore);
      var ks :| DrawnFrom(ks, rows, front, minScore);
      assert forall k :: 0 <= k < n ==> records[k] == front[k];
      var r := records[n];
      if r.Some? && Accepts(r.value, seen, minScore) {
        assert Pass1(records, existing, minScore).0 == rows + [ToRow(r.value)];
        assert DrawnFrom(ks + [n], rows + [ToRow(r.value)], records, minScore);
      } else {
        assert Pass1(records, existing, minScore).0 == rows;
        assert DrawnFrom(ks, rows, records, minScore);
      }
    }
  }

  /**
   * Every kept row passed the filters; no id is kept twice, none was in the
   * database before, and the seen set is the old ids plus the kept ones.
   */
  lemma {:induction false} Pass1Sound(records: seq<Option<RawSubmission>>, existing: set<string>, minScore: int)
    ensures var (rows, seen) := Pass1(records, existing, minScore);
      && (forall i :: 0 <= i < |rows| ==>
            && rows[i].id != "" && rows[i].id !in existing
            && ScoreOrZero(rows[i].score) >= minScore
            && !IsRemoved(rows[i].selftext) && !IsBot(rows[i].author))
      && (forall i, j :: 0 <= i < j < |rows| ==> rows[i].id != rows[j].id)
      && seen == existing + RowIds(rows)
    decreases |records|
  {
    if records != [] {
      Pass1Sound(records[..|records| - 1], existing, minScore);
      var (rows, seen) := Pass1(records[..|records| - 1], existing, minScore);
      var r := records[|records| - 1];
      if r.Some? && Accepts(r.value, seen, minScore) {
        var rows' := rows + [ToRow(r.value)];
        assert RowIds(rows') == RowIds(rows) + {r.value.id.value} by {
          assert forall i :: 0 <= i < |rows| ==> rows'[i] == rows[i];
          assert rows'[|rows|].id == r.value.id.value;
        }
      }
    }
  }

  /** Every record that passes the filters has its id stored once pass 1 is over. */
  lemma {:induction false} Pass1Complete(records: seq<Option<RawSubmission>>, existing: set<string>, minScore: int)
    ensures forall i :: 0 <= i < |records| && records[i].Some? && Qualifies(records[i].value, minScore) ==>
      records[i].value.id.value in Pass1(records, existing, minScore).1
    ensures existing <= Pass1(records, existing, minScore).1
    decreases |records|
  {
    if records != [] {
      var front := records[..|records| - 1];
      Pass1Complete(front, existing, minScore);
      assert forall i :: 0 <= i < |front| ==> records[i] == front[i];
    }
  }

  /**
   * Pass 1 of `ingest`: parse each line, keep the submissions that pass the
   * filters and have not been seen, mark them seen at once, and write the
   * kept rows in batches of `batchSize` with a final partial batch.
   */
  method IngestSubmissions(lines: seq<string>, parse: string -> Option<RawSubmission>,
                           existing: set<string>, minScore: int, batchSize: int)
    returns (batches: seq<seq<SubmissionRow>>, insertedCount: nat, existingIds: set<string>)
    ensures Flatten(batches) == Pass1(Parsed(lines, parse), existing, minScore).0
    ensures existingIds == Pass1(Parsed(lines, parse), existing, minScore).1
    ensures WellBatched(batches, EffectiveSize(batchSize))
    ensures insertedCount == |Flatten(batches)|
  {
    ghost var records := Parsed(lines, parse);
    var n := EffectiveSize(batchSize);
    var rows: seq<SubmissionRow> := [];
    batches := [];
    insertedCount := 0;
    existingIds := existing;
    for i := 0 to |lines|
      invariant Flatten(batches) + rows == Pass1(records[..i], existing, minScore).0
      invariant existingIds == Pass1(records[..i], existing, minScore).1
      invariant forall b :: 0 <= b < |batches| ==> |batches[b]| == n
      invariant |rows| < n
      invariant insertedCount == |Flatten(batches)|
    {
      assert records[..i + 1][..i] == records[..i];
      var data := parse(lines[i]);
      if data.Some? {
        var s := data.value;
        if s.id.None? || s.id.value == "" || s.id.value in existingIds || ScoreOrZero(s.score) < minScore {
        } else if IsRemoved(s.selftext) || !s.isSelf {
        } else if IsBot(s.author) {
        } else {
          existingIds := existingIds + {s.id.value};
          var written;
          batches, rows, written := Add(batches, rows, ToRow(s), batchSize);
          insertedCount := insertedCount + written;
        }
      }
    }
    assert records[..|lines|] == records;
    var written;
    batches, written := Flush(batches, rows, n);
    insertedCount := insertedCount + written;
  }

  // ---------------------------------------------------------------------
  // Pass 2: comments and the top-3 heaps
  // ---------------------------------------------------------------------

  /**
   * A comment record as parsed from one line. `linkId` is `None` when the key
   * is missing; `parentId` is `None` when missing or null.
   */
  datatype RawComment = RawComment(
    id: string, linkId: Option<string>, author: Option<string>, body: Option<string>,
    score: Option<int>, isSubmitter: bool, parentId: Option<string>)

  /** The row kept for a comment, with the cleaned submission id. */
  datatype CommentRow = CommentRow(
    id: string, linkId: string, author: Option<string>, body: Option<string>,
    score: int, isSubmitter: bool, parentId: Option<string>)

  /** A heap entry: the score, then the row. */
  datatype Entry = Entry(score: int, comment: CommentRow)

  /** The submission a comment belongs to: `link_id` with every "t3_" removed. */
  function LinkOf(c: RawComment): string {
    Replace(if c.linkId.Some? then c.linkId.value else "", "t3_", "")
  }

  /** A reply to the submission itself rather than to another comment. */
  predicate IsTopLevel(c: RawComment) {
    c.parentId.Some? && StartsWith(c.parentId.value, "t3_")
  }

  /** A link id `t3_x` names submission `x` when `x` holds no further `t3_`. */
  lemma LinkOfStripsPrefix(c: RawComment, x: string)
    requires c.linkId == Some("t3_" + x) && !Contains(x, "t3_")
    ensures LinkOf(c) == x
  {
    var s := "t3_" + x;
    assert s[..3] == "t3_" && s[3..] == x;
  }

  /** A reply to another comment (parent `t1_...`) or a comment without a parent is never considered. */
  lemma RepliesNotConsidered(c: RawComment, known: set<string>, y: string)
    requires c.parentId.None? || c.parentId == Some("t1_" + y)
    ensures !Considers(c, known)
  {
    if c.parentId.Some? {
      assert c.parentId.value[1] == '1';
    }
  }

  /** The filters a comment passes before it is offered to a heap. */
  predicate Considers(c: RawComment, known: set<string>) {
    LinkOf(c) in known && !IsBot(c.author) && !IsRemoved(c.body) && IsTopLevel(c)
  }

  function ToEntry(c: RawComment): Entry {
    var score := ScoreOrZero(c.score);
    Entry(score, CommentRow(c.id, LinkOf(c), c.author, c.body, score, c.isSubmitter, c.parentId))
  }

  /** Python's `<` on strings: code point by code point, a proper prefix first. */
  predicate IdLess(a: string, b: string)
    decreases |a|
  {
    if |a| == 0 then |b| > 0
    else if |b| == 0 then false
    else if a[0] != b[0] then a[0] < b[0]
    else IdLess(a[1..], b[1..])
  }

  lemma {:induction false} IdLessTotal(a: string, b: string)
    ensures a == b || IdLess(a, b) || IdLess(b, a)
    ensures !(IdLess(a, b) && IdLess(b, a))
    decreases |a|
  {
    if |a| > 0 && |b| > 0 && a[0] == b[0] {
      IdLessTotal(a[1..], b[1..]);
      assert a[1..] == b[1..] ==> a == [a[0]] + a[1..] == [b[0]] + b[1..] == b;
    }
  }

  lemma {:induction false} IdLessTransitive(a: string, b: string, c: string)
    requires IdLess(a, b) && IdLess(b, c)
    ensures IdLess(a, c)
    decreases |a|
  {
    if |a| > 0 && a[0] == b[0] && b[0] == c[0] {
      IdLessTransitive(a[1..], b[1..], c[1..]);
    }
  }

  /** The order `heapq` keeps: by score, then by comment id. */
  predicate EntryLess(x: Entry, y: Entry) {
    x.score < y.score || (x.score == y.score && IdLess(x.comment.id, y.comment.id))
  }

  lemma EntryLessTransitive(x: Entry, y: Entry, z: Entry)
    ensures EntryLess(x, y) && EntryLess(y, z) ==> EntryLess(x, z)
  {
    if x.score == y.score == z.score && IdLess(x.comment.id, y.comment.id) && IdLess(y.comment.id, z.comment.id) {
      IdLessTransitive(x.comment.id, y.comment.id, z.comment.id);
    }
  }

  /** The position of `heap[0]`: an entry no other entry is below. */
  function MinPos(h: seq<Entry>): (m: nat)
    requires |h| > 0
    ensures m < |h|
    ensures forall j :: 0 <= j < |h| ==> !EntryLess(h[j], h[m])
    ensures forall j :: 0 <= j < |h| ==> h[m].score <= h[j].score
    decreases |h|
  {
    if |h| == 1 then
      assert !IdLess(h[0].comment.id, h[0].comment.id) by {
        IdLessTotal(h[0].comment.id, h[0].comment.id);
      }
      0
    else
      var m := MinPos(h[1..]) + 1;
      assert forall j :: 1 <= j < |h| ==> h[j] == h[1..][j - 1];
      if EntryLess(h[m], h[0]) then
        assert !EntryLess(h[0], h[m]) by {
          IdLessTotal(h[0].comment.id, h[m].comment.id);
        }
        m
      else
        assert forall j :: 0 <= j < |h| ==> !EntryLess(h[j], h[0]) by {
          forall j | 0 <= j < |h|
            ensures !EntryLess(h[j], h[0])
          {
            IdLessTotal(h[0].comment.id, h[0].comment.id);
            IdLessTotal(h[0].comment.id, h[m].comment.id);
            EntryLessTransitive(h[j], h[0], h[m]);
          }
        }
        0
  }

  /** `heapq.heapreplace`: the entry at the top of the heap leaves and `e` joins. */
  function ReplaceMin(h: seq<Entry>, e: Entry): (r: seq<Entry>)
    requires |h| > 0
    ensures |r| == |h|
    ensures multiset(r) == multiset(h) - multiset{h[MinPos(h)]} + multiset{e}
  {
    var m := MinPos(h);
    assert h == h[..m] + [h[m]] + h[m + 1..];
    h[..m] + h[m + 1..] + [e]
  }

  /** The capacity of every heap. */
  const HeapCapacity: nat := 3

  /**
   * One comment offered to a submission's heap: pushed while the heap holds
   * fewer than three entries, otherwise swapped for the least entry only if
   * its score is strictly greater. The heap is kept in arrival order rather
   * than heapq's array layout; only which entries it holds is modelled.
   */
  function Offer(h: seq<Entry>, e: Entry): seq<Entry> {
    if |h| < HeapCapacity then h + [e]
    else if e.score > h[MinPos(h)].score then ReplaceMin(h, e)
    else h
  }

  /**
   * A full heap is left exactly as it was if and only if the new score is
   * no greater than every kept score: a score equal to the least one does
   * not get in.
   */
  lemma OfferFullHeap(h: seq<Entry>, e: Entry)
    requires |h| >= HeapCapacity
    ensures Offer(h, e) == h <==> forall x :: x in h ==> e.score <= x.score
    ensures |Offer(h, e)| == |h|
  {
    var m := MinPos(h);
    if e.score > h[m].score {
      var r := ReplaceMin(h, e);
      assert multiset(r)[e] == multiset(h)[e] + 1 by {
        assert h[m] != e;
      }
      assert r != h;
    }
  }

  /** The heap after offering `es` one after the other to an empty heap. */
  function Retain(es: seq<Entry>): seq<Entry>
    decreases |es|
  {
    if es == [] then [] else Offer(Retain(es[..|es| - 1]), es[|es| - 1])
  }

  /** Up to three comments are all kept (in the model's arrival order, which stands for heapq's array layout). */
  lemma {:induction false} RetainFew(es: seq<Entry>)
    requires |es| <= HeapCapacity
    ensures Retain(es) == es
    decreases |es|
  {
    if es != [] {
      RetainFew(es[..|es| - 1]);
      assert es[..|es| - 1] + [es[|es| - 1]] == es;
    }
  }

  /** Every dropped entry scores no higher than any kept one. */
  ghost predicate Dominates(kept: seq<Entry>, dropped: multiset<Entry>) {
    forall y, x :: y in dropped && x in kept ==> y.score <= x.score
  }

  /** Replacing the least entry of a heap keeps it a dominating selection. */
  lemma ReplaceStep(p: multiset<Entry>, h: seq<Entry>, e: Entry)
    requires |h| > 0 && multiset(h) <= p && Dominates(h, p - multiset(h))
    requires e.score > h[MinPos(h)].score
    ensures multiset(ReplaceMin(h, e)) <= p + multiset{e}
    ensures Dominates(ReplaceMin(h, e), p + multiset{e} - multiset(ReplaceMin(h, e)))
  {
    var mm := h[MinPos(h)];
    var r := ReplaceMin(h, e);
    var hs := multiset(h);
    assert mm in hs;
    SwapOne(p, hs, mm, e);
    forall y, x | y in p + multiset{e} - multiset(r) && x in r
      ensures y.score <= x.score
    {
      assert x in multiset(r);
      if x != e {
        assert x in hs;
        assert x in h;
      }
    }
  }

  /** Swapping one member `mm` of a selection `hs` for a new arrival `e`: the arrival is kept, `mm` is dropped. */
  lemma SwapOne<T>(p: multiset<T>, hs: multiset<T>, mm: T, e: T)
    requires hs <= p && mm in hs
    ensures hs - multiset{mm} + multiset{e} <= p + multiset{e}
    ensures p + multiset{e} - (hs - multiset{mm} + multiset{e}) == (p - hs) + multiset{mm}
  {
    var dropped := p + multiset{e} - (hs - multiset{mm} + multiset{e});
    forall z
      ensures dropped[z] == ((p - hs) + multiset{mm})[z]
    {
    }
  }

  /** Turning a comment away from a full heap keeps it a dominating selection. */
  lemma KeepStep(p: multiset<Entry>, h: seq<Entry>, e: Entry)
    requires |h| > 0 && multiset(h) <= p && Dominates(h, p - multiset(h))
    requires e.score <= h[MinPos(h)].score
    ensures multiset(h) <= p + multiset{e}
    ensures Dominates(h, p + multiset{e} - multiset(h))
  {
    var hs := multiset(h);
    var dropped := p + multiset{e} - hs;
    DroppedWith(p, hs, e);
    forall y, x | y in dropped && x in h ensures y.score <= x.score {
      if y != e {
        assert y in p - hs;
      }
    }
  }

  /** Taking the kept entries out after one more arrives leaves the earlier dropped ones and the newcomer. */
  lemma DroppedWith(p: multiset<Entry>, hs: multiset<Entry>, e: Entry)
    requires hs <= p
    ensures p + multiset{e} - hs == (p - hs) + multiset{e}
  {
    forall z
      ensures (p + multiset{e} - hs)[z] == ((p - hs) + multiset{e})[z]
    {
    }
  }

  /**
   * After any number of comments the heap holds min(3, n) of them, and
   * every comment that was dropped scores no higher than any that was kept:
   * the kept scores are the top three.
   */
  lemma {:induction false} RetainTopThree(es: seq<Entry>)
    ensures |Retain(es)| == if |es| < HeapCapacity then |es| else HeapCapacity
    ensures multiset(Retain(es)) <= multiset(es)
    ensures Dominates(Retain(es), multiset(es) - multiset(Retain(es)))
    decreases |es|
  {
    if |es| <= HeapCapacity {
      RetainFew(es);
    } else {
      var p := es[..|es| - 1];
      var e := es[|es| - 1];
      assert es == p + [e];
      assert multiset(es) == multiset(p) + multiset{e};
      RetainTopThree(p);
      var h := Retain(p);
      assert Retain(es) == Offer(h, e);
      OfferFullHeap(h, e);
      if e.score > h[MinPos(h)].score {
        ReplaceStep(multiset(p), h, e);
      } else {
        KeepStep(multiset(p), h, e);
      }
    }
  }

  /** No heap ever holds more than three entries, at any step. */
  lemma {:induction false} RetainBounded(es: seq<Entry>)
    ensures |Retain(es)| <= HeapCapacity
  {
    RetainTopThree(es);
  }

  /** Offering one more comment to the heap built so far. */
  lemma RetainPush(es: seq<Entry>, e: Entry)
    ensures Retain(es + [e]) == Offer(Retain(es), e)
  {
    assert (es + [e])[..|es|] == es;
  }

  /** Scores 3, 9, 1, 7, 5 arriving in that order leave the entries scoring 9, 7 and 5. */
  lemma RetainExample(row: CommentRow)
    ensures multiset(Retain([Entry(3, row), Entry(9, row), Entry(1, row), Entry(7, row), Entry(5, row)]))
         == multiset{Entry(9, row), Entry(7, row), Entry(5, row)}
  {
    var first4 := [Entry(3, row), Entry(9, row), Entry(1, row), Entry(7, row)];
    RetainExampleStep(row);
    RetainExampleLast(row);
    RetainPush(first4, Entry(5, row));
    var all := [Entry(3, row), Entry(9, row), Entry(1, row), Entry(7, row), Entry(5, row)];
    assert first4 + [Entry(5, row)] == all;
    assert Retain(all) == [Entry(9, row), Entry(7, row), Entry(5, row)];
  }

  /** The last score of `RetainExample`: 5 pushes out 3. */
  lemma RetainExampleLast(row: CommentRow)
    ensures Offer([Entry(3, row), Entry(9, row), Entry(7, row)], Entry(5, row)) == [Entry(9, row), Entry(7, row), Entry(5, row)]
  {
    var h4 := [Entry(3, row), Entry(9, row), Entry(7, row)];
    assert MinPos(h4) == 0;
    assert h4[..0] + h4[1..] == [Entry(9, row), Entry(7, row)];
  }

  /** The first four scores of `RetainExample`: 7 pushes out 1. */
  lemma RetainExampleStep(row: CommentRow)
    ensures Retain([Entry(3, row), Entry(9, row), Entry(1, row), Entry(7, row)])
         == [Entry(3, row), Entry(9, row), Entry(7, row)]
  {
    var h3 := [Entry(3, row), Entry(9, row), Entry(1, row)];
    RetainFew(h3);
    assert MinPos(h3) == 2;
    RetainPush(h3, Entry(7, row));
    assert h3 + [Entry(7, row)] == [Entry(3, row), Entry(9, row), Entry(1, row), Entry(7, row)];
  }

  /** The entries of the considered comments of submission `s`, in stream order. */
  function CommentsFor(records: seq<Option<RawComment>>, known: set<string>, s: string): seq<Entry>
    decreases |records|
  {
    if records == [] then []
    else
      var r := records[|records| - 1];
      CommentsFor(records[..|records| - 1], known, s) + NewEntry(r, known, s)
  }

  /** The entry a record adds to the comments of submission `s`: none unless it is considered and belongs to `s`. */
  function NewEntry(r: Option<RawComment>, known: set<string>, s: string): seq<Entry> {
    if r.Some? && Considers(r.value, known) && LinkOf(r.value) == s then [ToEntry(r.value)] else []
  }

  /** One more record adds its entry, if it has one, to its own submission only. */
  lemma CommentsForPush(records: seq<Option<RawComment>>, r: Option<RawComment>, known: set<string>)
    ensures forall s :: CommentsFor(records + [r], known, s) == CommentsFor(records, known, s) + NewEntry(r, known, s)
  {
    assert (records + [r])[..|records|] == records;
  }

  /** A heap is only ever made for a known submission. */
  lemma {:induction false} CommentsForKnown(records: seq<Option<RawComment>>, known: set<string>, s: string)
    requires s !in known
    ensures CommentsFor(records, known, s) == []
    decreases |records|
  {
    if records != [] {
      CommentsForKnown(records[..|records| - 1], known, s);
    }
  }

  /** Each submission with considered comments has a heap, and it is the top three of them. */
  ghost predicate HeapsMatch(heaps: map<string, seq<Entry>>, records: seq<Option<RawComment>>, known: set<string>) {
    && (forall s :: s in heaps <==> CommentsFor(records, known, s) != [])
    && (forall s :: s in heaps ==> heaps[s] == Retain(CommentsFor(records, known, s)))
  }

  /**
   * Pass 2 of `ingest`: parse each line, drop comments that fail the
   * filters, and offer each remaining one to its submission's heap, made
   * on first use. Each heap ends as the top three of its comments.
   */
  method RetainComments(lines: seq<string>, parse: string -> Option<RawComment>, known: set<string>)
    returns (heaps: map<string, seq<Entry>>)
    ensures forall s :: s in heaps <==> CommentsFor(Parsed(lines, parse), known, s) != []
    ensures forall s :: s in heaps ==> heaps[s] == Retain(CommentsFor(Parsed(lines, parse), known, s))
  {
    ghost var records := Parsed(lines, parse);
    heaps := map[];
    for i := 0 to |lines|
      invariant HeapsMatch(heaps, records[..i], known)
    {
      var data := parse(lines[i]);
      assert records[..i + 1] == records[..i] + [data];
      heaps := OfferComment(heaps, data, known, records[..i]);
    }
    assert records[..|lines|] == records;
  }

  /** The body of the comment loop: filter one parsed record and offer it to its heap. */
  method OfferComment(heaps: map<string, seq<Entry>>, data: Option<RawComment>, known: set<string>,
                      ghost records: seq<Option<RawComment>>)
    returns (heaps': map<string, seq<Entry>>)
    requires HeapsMatch(heaps, records, known)
    ensures HeapsMatch(heaps', records + [data], known)
  {
    CommentsForPush(records, data, known);
    heaps' := heaps;
    if data.Some? {
      var c := data.value;
      var linkId := LinkOf(c);
      if linkId !in known || IsBot(c.author) || IsRemoved(c.body) || !IsTopLevel(c) {
        Unchanged(records, data, known);
      } else {
        var heap := if linkId in heaps then heaps[linkId] else [];
        heap := PushHeap(heap, ToEntry(c));
        OfferedStep(heaps, records, data, known, heap);
        heaps' := heaps[linkId := heap];
      }
    } else {
      Unchanged(records, data, known);
    }
  }

  /** `heapq.heappush` below capacity, `heapq.heapreplace` when the new score beats the least one. */
  method PushHeap(heap: seq<Entry>, entry: Entry) returns (heap': seq<Entry>)
    ensures heap' == Offer(heap, entry)
  {
    heap' := heap;
    if |heap| < 3 {
      heap' := heap + [entry];
    } else if entry.score > heap[MinPos(heap)].score {
      heap' := ReplaceMin(heap, entry);
    }
  }

  /** A considered comment offered to its own submission's heap keeps every heap the top three of its comments. */
  lemma OfferedStep(heaps: map<string, seq<Entry>>, records: seq<Option<RawComment>>, data: Option<RawComment>,
                    known: set<string>, heap: seq<Entry>)
    requires HeapsMatch(heaps, records, known)
    requires data.Some? && Considers(data.value, known)
    requires var link := LinkOf(data.value);
      heap == Offer(if link in heaps then heaps[link] else [], ToEntry(data.value))
    ensures HeapsMatch(heaps[LinkOf(data.value) := heap], records + [data], known)
  {
    var link, entry := LinkOf(data.value), ToEntry(data.value);
    OfferedComments(records, data, known);
    HeapsStep(heaps, s => CommentsFor(records, known, s), s => CommentsFor(records + [data], known, s), link, entry, heap);
  }

  /** A considered comment adds its entry to its own submission's comments and to no other's. */
  lemma OfferedComments(records: seq<Option<RawComment>>, data: Option<RawComment>, known: set<string>)
    requires data.Some? && Considers(data.value, known)
    ensures forall s ::
      CommentsFor(records + [data], known, s) == CommentsFor(records, known, s) + (if s == LinkOf(data.value) then [ToEntry(data.value)] else [])
  {
    CommentsForPush(records, data, known);
    forall s ensures NewEntry(data, known, s) == if s == LinkOf(data.value) then [ToEntry(data.value)] else [] {
    }
  }

  /** The heaps after one entry for `link`, stated for any per-submission comment lists. */
  lemma HeapsStep(heaps: map<string, seq<Entry>>, before: string -> seq<Entry>, after: string -> seq<Entry>,
                  link: string, entry: Entry, heap: seq<Entry>)
    requires forall s :: s in heaps <==> before(s) != []
    requires forall s :: s in heaps ==> heaps[s] == Retain(before(s))
    requires forall s :: after(s) == before(s) + (if s == link then [entry] else [])
    requires heap == Offer(if link in heaps then heaps[link] else [], entry)
    ensures forall s :: s in heaps[link := heap] <==> after(s) != []
    ensures forall s :: s in heaps[link := heap] ==> heaps[link := heap][s] == Retain(after(s))
  {
    RetainPush(before(link), entry);
    assert link !in heaps ==> before(link) == [] && Retain(before(link)) == [];
    assert after(link) == before(link) + [entry];
    assert heap == Retain(after(link));
    forall s | s != link ensures after(s) == before(s) {
      assert before(s) + [] == before(s);
    }
  }

  /** A record that is not considered leaves every submission's comments as they were. */
  lemma Unchanged(records: seq<Option<RawComment>>, data: Option<RawComment>, known: set<string>)
    requires data.None? || !Considers(data.value, known)
    ensures forall s :: CommentsFor(records + [data], known, s) == CommentsFor(records, known, s)
  {
    CommentsForPush(records, data, known);
    forall s
      ensures CommentsFor(records + [data], known, s) == CommentsFor(records, known, s)
    {
      assert NewEntry(data, known, s) == [];
    }
  }

  // ---------------------------------------------------------------------
  // The two passes together
  // ---------------------------------------------------------------------

  /**
   * `ingest`: pass 1 over the submission stream, then pass 2 over the
   * comment stream with the ids known after pass 1 (those already stored
   * plus those just kept). `existing` is what the database held before.
   */
  method IngestAll(submissionChunks: seq<string>, commentChunks: seq<string>,
                   parseSubmission: string -> Option<RawSubmission>, parseComment: string -> Option<RawComment>,
                   existing: set<string>, minScore: int, batchSize: int)
    returns (batches: seq<seq<SubmissionRow>>, insertedCount: nat, heaps: map<string, seq<Entry>>)
    ensures var records := Parsed(CompleteLines(Concat(submissionChunks)), parseSubmission);
      && Flatten(batches) == Pass1(records, existing, minScore).0
      && WellBatched(batches, EffectiveSize(batchSize))
      && insertedCount == |Flatten(batches)|
      && HeapsMatch(heaps, Parsed(CompleteLines(Concat(commentChunks)), parseComment), Pass1(records, existing, minScore).1)
  {
    var submissionLines := StreamLines(submissionChunks);
    var existingIds;
    batches, insertedCount, existingIds := IngestSubmissions(submissionLines, parseSubmission, existing, minScore, batchSize);
    var commentLines := StreamLines(commentChunks);
    heaps := RetainComments(commentLines, parseComment, existingIds);
  }
}
