/** The chunked line search of apps/electerm-agent/src/app/common/log-search.js: a loop over the pages a
    reader answers, proved against one search of the whole text. */
module LogSearch {
  import opened Prelude
  import opened Utf8
  import FileRange

  const MAX_QUERY_CHARS: nat := 256
  const MAX_MATCHES: nat := 500
  const MAX_CONTEXT_LINES: nat := 20

  /** The caller's options; None stands for a value that is not a safe integer. */
  datatype SearchOptions = SearchOptions(
    query: string, maxMatches: Option<int>, contextLines: Option<int>, chunkBytes: Option<int>,
        startOffset: Option<int>)

  datatype Limits = Limits(maxMatches: nat, contextLines: nat)

  datatype NormalizedOptions =
    | EmptyQuery
    | QueryTooLong
    | NormalizedOptions(query: string, limits: Limits, chunkBytes: nat, startOffset: nat)

  function NormalizeSearchOptions(options: SearchOptions, trim: string -> string): (n: NormalizedOptions)
    ensures n.EmptyQuery? <==> trim(options.query) == ""
    ensures n.QueryTooLong? <==> |trim(options.query)| > 256
    ensures n.NormalizedOptions? ==>
              && n.limits.maxMatches == Bounded(options.maxMatches, 1, 500, 100)
              && n.limits.contextLines == Bounded(options.contextLines, 0, 20, 2)
              && n.chunkBytes == Bounded(options.chunkBytes, 1, 1048576, 262144)
    ensures n.NormalizedOptions? ==>
              && n.query == trim(options.query)
              && 1 <= n.limits.maxMatches <= MAX_MATCHES && n.limits.contextLines <= MAX_CONTEXT_LINES
              && 1 <= n.chunkBytes <= FileRange.MAX_RANGE_BYTES
    ensures n.NormalizedOptions? ==>
              && (Within(options.maxMatches, 1, MAX_MATCHES) ==> n.limits.maxMatches == options.maxMatches.value)
              && (Within(options.contextLines, 0, MAX_CONTEXT_LINES) ==>
                  n.limits.contextLines == options.contextLines.value)
              && (Within(options.chunkBytes, 1, FileRange.MAX_RANGE_BYTES) ==> n.chunkBytes == options.chunkBytes.value)
              && (options.startOffset.Some? && options.startOffset.value >= 0 ==>
                  n.startOffset == options.startOffset.value)
  {
    var query := trim(options.query);
    if query == "" then EmptyQuery
    else if |query| > MAX_QUERY_CHARS then QueryTooLong
    else
      NormalizedOptions(
        query,
        Limits(
          if options.maxMatches.Some? && options.maxMatches.value > 0 then Min(options.maxMatches.value, MAX_MATCHES)
              else 100,
          if options.contextLines.Some? && options.contextLines.value >= 0
          then Min(options.contextLines.value, MAX_CONTEXT_LINES) else 2),
        if options.chunkBytes.Some? && options.chunkBytes.value > 0
        then Min(options.chunkBytes.value, FileRange.MAX_RANGE_BYTES) else FileRange.DEFAULT_RANGE_BYTES,
        if options.startOffset.Some? && options.startOffset.value >= 0 then options.startOffset.value else 0)
  }

  /** A number above the largest is cut to it; one below the smallest, or none, gives way to the default. */
  function Bounded(value: Option<int>, low: nat, high: nat, fallback: nat): int {
    match value
    case Some(v) => if v < low then fallback else if v > high then high else v
    case None => fallback
  }

  predicate Within(value: Option<int>, low: int, high: int) { value.Some? && low <= value.value <= high }

  /** One answer of the reader. */
  datatype Page = Page(content: string, binary: bool, offset: nat, nextOffset: nat, totalBytes: nat, hasMore: bool)

  datatype Match = Match(line: string, before: seq<string>, after: seq<string>, offset: nat)

  datatype SearchResult = SearchResult(
    matches: seq<Match>, scannedBytes: nat, totalBytes: nat, nextOffset: nat, truncated: bool)

  /** How a search ends; Unanswered when the reader has not answered the next call yet. */
  datatype Outcome = Found(result: SearchResult) | BinaryContent | NoProgress | Unanswered

  // ---------- Lines of a text ----------

  /** The pieces between newlines; the text after the last newline is a piece too, even when empty. */
  function Split(text: string): (pieces: seq<string>)
    ensures pieces != []
  {
    if text == "" then [""] else Prepend(text[0], Split(text[1..]))
  }

  function Prepend(c: char, pieces: seq<string>): (longer: seq<string>)
    requires pieces != []
    ensures longer != []
  {
    if c == '\n' then [""] + pieces else [[c] + pieces[0]] + pieces[1..]
  }

  function Front<T>(s: seq<T>): seq<T>
    requires s != []
  {
    s[..|s| - 1]
  }

  function Last<T>(s: seq<T>): T
    requires s != []
  {
    s[|s| - 1]
  }

  /** A text may be cut anywhere: what follows the last newline of the first part is carried over. */
  lemma {:induction false} SplitConcat(a: string, b: string)
    ensures Split(a + b) == Front(Split(a)) + Split(Last(Split(a)) + b)
  {
    if a == "" {
      assert a + b == b && "" + b == b;
    } else {
      assert (a + b)[1..] == a[1..] + b;
      SplitConcat(a[1..], b);
      PrependConcat(a[0], Split(a[1..]), b);
    }
  }

  lemma PrependConcat(c: char, pieces: seq<string>, b: string)
    requires pieces != []
    ensures Prepend(c, Front(pieces) + Split(Last(pieces) + b))
            == Front(Prepend(c, pieces)) + Split(Last(Prepend(c, pieces)) + b)
  {
    if c != '\n' && |pieces| == 1 {
      var x := pieces[0] + b;
      assert [c] + pieces[0] + b == [c] + x;
      assert ([c] + x)[1..] == x;
      assert [] + Split(x) == Split(x);
    } else {
      PrependToMore(c, pieces, Split(Last(pieces) + b));
    }
  }

  lemma PrependToMore(c: char, pieces: seq<string>, more: seq<string>)
    requires pieces != [] && more != [] && (c == '\n' || |pieces| > 1)
    ensures Last(Prepend(c, pieces)) == Last(pieces)
    ensures Prepend(c, Front(pieces) + more) == Front(Prepend(c, pieces)) + more
  {
    if c != '\n' {
      assert (Front(pieces) + more)[1..] == pieces[1..|pieces| - 1] + more;
      assert Front(Prepend(c, pieces)) == [[c] + pieces[0]] + pieces[1..|pieces| - 1];
    }
  }

  /** Drops one carriage return at the end. */
  function NormalizeLine(line: string): string {
    if line != "" && Last(line) == '\r' then Front(line) else line
  }

  /** A completed line, with the offset of the page that completed it. */
  datatype Line = Line(text: string, offset: nat)

  function LinesAt(pieces: seq<string>, offset: nat): seq<Line> {
    seq(|pieces|, i requires 0 <= i < |pieces| => Line(NormalizeLine(pieces[i]), offset))
  }

  function Texts(lines: seq<Line>): (texts: seq<string>)
    ensures |texts| == |lines|
  {
    seq(|lines|, i requires 0 <= i < |lines| => lines[i].text)
  }

  function Normalized(pieces: seq<string>): seq<string> {
    seq(|pieces|, i requires 0 <= i < |pieces| => NormalizeLine(pieces[i]))
  }

  // ---------- The search of a list of lines ----------

  /** The positions of the first `max` lines that match. */
  function Hits(texts: seq<string>, isMatch: string -> bool, max: nat): (hits: seq<nat>)
    ensures |hits| <= max
    ensures forall j :: 0 <= j < |hits| ==> hits[j] < |texts|
  {
    if texts == [] then []
    else
      var hits := Hits(Front(texts), isMatch, max);
      if |hits| < max && isMatch(Last(texts)) then hits + [|texts| - 1] else hits
  }

  /** They match, ascend, and leave out no earlier match, nor any match while fewer than `max`. */
  lemma HitsAreTheFirst(texts: seq<string>, isMatch: string -> bool, max: nat)
    ensures var hits := Hits(texts, isMatch, max);
            && (forall j :: 0 <= j < |hits| ==> isMatch(texts[hits[j]]))
            && (forall i, j :: 0 <= i < j < |hits| ==> hits[i] < hits[j])
            && (forall i :: 0 <= i < |texts| && isMatch(texts[i])
                            && (|hits| < max || (hits != [] && i < Last(hits))) ==>
                i in hits)
  {
    var hits := Hits(texts, isMatch, max);
    forall j | 0 <= j < |hits| ensures isMatch(texts[hits[j]]) { HitMatches(texts, isMatch, max, j); }
    forall i, j | 0 <= i < j < |hits| ensures hits[i] < hits[j] { HitsAscend(texts, isMatch, max, i, j); }
    forall i | 0 <= i < |texts| && isMatch(texts[i]) && (|hits| < max || (hits != [] && i < Last(hits)))
      ensures i in hits
    {
      EarlierMatchIsHit(texts, isMatch, max, i);
    }
    hide Hits;
  }

  lemma HitsUnfold(texts: seq<string>, isMatch: string -> bool, max: nat)
    requires texts != []
    ensures var front := Hits(Front(texts), isMatch, max);
            Hits(texts, isMatch, max)
            == if |front| < max && isMatch(Last(texts)) then front + [|texts| - 1] else front
  {
  }

  lemma {:induction false} HitMatches(texts: seq<string>, isMatch: string -> bool, max: nat, j: nat)
    requires j < |Hits(texts, isMatch, max)|
    ensures isMatch(texts[Hits(texts, isMatch, max)[j]])
  {
    if texts != [] {
      HitsUnfold(texts, isMatch, max);
      if j < |Hits(Front(texts), isMatch, max)| {
        HitMatches(Front(texts), isMatch, max, j);
      }
    }
  }

  lemma {:induction false} HitsAscend(texts: seq<string>, isMatch: string -> bool, max: nat, i: nat, j: nat)
    requires i < j < |Hits(texts, isMatch, max)|
    ensures Hits(texts, isMatch, max)[i] < Hits(texts, isMatch, max)[j]
  {
    if texts != [] {
      HitsUnfold(texts, isMatch, max);
      if j < |Hits(Front(texts), isMatch, max)| {
        HitsAscend(Front(texts), isMatch, max, i, j);
      }
    }
  }

  lemma {:induction false} EarlierMatchIsHit(texts: seq<string>, isMatch: string -> bool, max: nat, i: nat)
    requires i < |texts| && isMatch(texts[i])
    requires var hits := Hits(texts, isMatch, max); |hits| < max || (hits != [] && i < Last(hits))
    ensures i in Hits(texts, isMatch, max)
  {
    HitsUnfold(texts, isMatch, max);
    var front, hits := Hits(Front(texts), isMatch, max), Hits(texts, isMatch, max);
    if i == |texts| - 1 {
      assert |front| < max ==> hits[|front|] == i;
    } else {
      EarlierMatchIsHit(Front(texts), isMatch, max, i);
    }
  }

  /** The match at line `i`, with up to `context` lines on either side. */
  function MatchAt(lines: seq<Line>, i: nat, context: nat): Match
    requires i < |lines|
  {
    var texts := Texts(lines);
    Match(texts[i], texts[Max(0, i - context)..i], texts[i + 1..Min(|texts|, i + 1 + context)], lines[i].offset)
  }

  /** The reference: the first `maxMatches` matching lines with their context. */
  function SearchLines(lines: seq<Line>, isMatch: string -> bool, limits: Limits): (matches: seq<Match>) {
    var hits := Hits(Texts(lines), isMatch, limits.maxMatches);
    seq(|hits|, j requires 0 <= j < |hits| => MatchAt(lines, hits[j], limits.contextLines))
  }

  // ---------- One more line ----------

  datatype Pending = Pending(match_: nat, remaining: nat)

  /** Every match that lacks lines after it gets one more. */
  function Filled(matches: seq<Match>, line: string, context: nat): (filled: seq<Match>) {
    seq(|matches|, j requires 0 <= j < |matches| =>
      if |matches[j].after| < context then matches[j].(after := matches[j].after + [line]) else matches[j])
  }

  /** `pending` holds the matches that lack lines after them: the last ones, the fullest first. */
  ghost predicate IsPending(pending: seq<Pending>, matches: seq<Match>, context: nat) {
    && |pending| <= |matches|
    && (forall j :: 0 <= j < |matches| - |pending| ==> |matches[j].after| >= context)
    && (forall k :: 0 <= k < |pending| ==>
          && pending[k].match_ == |matches| - |pending| + k
          && 0 < pending[k].remaining == context - |matches[|matches| - |pending| + k].after|)
    && (forall k, l :: 0 <= k < l < |pending| ==> pending[k].remaining <= pending[l].remaining)
  }

  /** The matches from `from` up to `to` with one more line. */
  function Extended(matches: seq<Match>, from: nat, to: nat, line: string): (extended: seq<Match>) {
    seq(|matches|, j requires 0 <= j < |matches| =>
      if from <= j < to then matches[j].(after := matches[j].after + [line]) else matches[j])
  }

  lemma ExtendedByNone(matches: seq<Match>, from: nat, line: string)
    ensures Extended(matches, from, from, line) == matches
  {
  }

  lemma ExtendedStep(matches: seq<Match>, from: nat, to: nat, line: string)
    requires from <= to < |matches|
    ensures var before := Extended(matches, from, to, line);
            && |before| == |matches| && before[to] == matches[to]
            && Extended(matches, from, to + 1, line) == before[to := matches[to].(after := matches[to].after + [line])]
  {
  }

  method FillAfterContext(pending: seq<Pending>, matches: seq<Match>, line: string, ghost context: nat)
    returns (left: seq<Pending>, filled: seq<Match>)
    requires IsPending(pending, matches, context)
    ensures filled == Filled(matches, line, context)
    ensures IsPending(left, filled, context)
  {
    hide Extended, IsLeft;
    left, filled := [], matches;
    ghost var from := |matches| - |pending|;
    ExtendedByNone(matches, from, line);
    NoneLeft(pending, from);
    var k := 0;
    while k < |pending|
      invariant 0 <= k <= |pending|
      invariant filled == Extended(matches, from, from + k, line)
      invariant IsLeft(pending, from, k, left)
    {
      var entry := pending[k];
      ExtendedStep(matches, from, from + k, line);
      LeftStep(pending, matches, context, k, left);
      if entry.remaining > 0 {
        filled := filled[entry.match_ := filled[entry.match_].(after := filled[entry.match_].after + [line])];
        if entry.remaining - 1 > 0 {
          left := left + [Pending(entry.match_, entry.remaining - 1)];
        } else {
          assert left + [] == left;
        }
      }
      k := k + 1;
    }
    hide Filled, IsPending;
    FilledSuffix(pending, matches, line, context);
    LeftIsPending(pending, matches, line, context, left);
  }

  /** After `k` entries `left` holds those of them that lacked more than one line. */
  ghost predicate IsLeft(pending: seq<Pending>, from: nat, k: nat, left: seq<Pending>)
    requires k <= |pending|
  {
    && |left| <= k
    && (forall l :: 0 <= l < k - |left| ==> pending[l].remaining == 1)
    && (forall l :: k - |left| <= l < k ==> pending[l].remaining > 1)
    && (forall l :: 0 <= l < |left| ==>
          left[l] == Pending(from + (k - |left|) + l, pending[k - |left| + l].remaining - 1))
  }

  lemma NoneLeft(pending: seq<Pending>, from: nat)
    ensures IsLeft(pending, from, 0, [])
  {
  }

  lemma LeftStep(pending: seq<Pending>, matches: seq<Match>, context: nat, k: nat, left: seq<Pending>)
    requires IsPending(pending, matches, context) && k < |pending| && IsLeft(pending, |matches| - |pending|, k, left)
    ensures var more := if pending[k].remaining - 1 > 0 then [Pending(pending[k].match_, pending[k].remaining - 1)]
        else [];
            IsLeft(pending, |matches| - |pending|, k + 1, left + more)
  {
    var from := |matches| - |pending|;
    assert pending[k].match_ == from + k && pending[k].remaining > 0;
    if left != [] {
      assert pending[k - 1].remaining <= pending[k].remaining;
    }
    hide IsPending;
    if pending[k].remaining > 1 {
      var longer := left + [Pending(from + k, pending[k].remaining - 1)];
      forall l | 0 <= l < |longer|
        ensures longer[l] == Pending(from + (k + 1 - |longer|) + l, pending[k + 1 - |longer| + l].remaining - 1)
      {
        if l < |left| {
          assert longer[l] == left[l];
        }
      }
    } else {
      assert left == [] && left + [] == left;
    }
  }

  lemma FilledSuffix(pending: seq<Pending>, matches: seq<Match>, line: string, context: nat)
    requires IsPending(pending, matches, context)
    ensures Extended(matches, |matches| - |pending|, |matches|, line) == Filled(matches, line, context)
  {
    forall j | 0 <= j < |matches| ensures |matches[j].after| < context <==> |matches| - |pending| <= j {
      if |matches| - |pending| <= j {
        assert pending[j - (|matches| - |pending|)].remaining > 0;
      }
    }
  }

  lemma LeftIsPending(pending: seq<Pending>, matches: seq<Match>, line: string, context: nat, left: seq<Pending>)
    requires IsPending(pending, matches, context) && IsLeft(pending, |matches| - |pending|, |pending|, left)
    ensures IsPending(left, Extended(matches, |matches| - |pending|, |matches|, line), context)
  {
    var from := |matches| - |pending|;
    var filled := Extended(matches, from, |matches|, line);
    forall j | from <= j < |matches| - |left| ensures |filled[j].after| >= context {
      assert pending[j - from].remaining == 1;
    }
    forall k | 0 <= k < |left| ensures left[k].remaining == context - |filled[|matches| - |left| + k].after| {
      assert pending[|pending| - |left| + k].remaining == left[k].remaining + 1;
    }
    forall k, l | 0 <= k < l < |left| ensures left[k].remaining <= left[l].remaining {
      var d := |pending| - |left|;
      assert pending[d + k].remaining <= pending[d + l].remaining;
    }
  }

  /** How the reference grows with one more line. */
  lemma SearchStep(lines: seq<Line>, line: Line, isMatch: string -> bool, limits: Limits)
    ensures var matches := SearchLines(lines, isMatch, limits);
            var filled := Filled(matches, line.text, limits.contextLines);
            var texts := Texts(lines);
            SearchLines(lines + [line], isMatch, limits) ==
              if |matches| < limits.maxMatches && isMatch(line.text)
              then filled + [Match(line.text, texts[Max(0, |texts| - limits.contextLines)..], [], line.offset)]
              else filled
  {
    hide Hits, MatchAt, Filled, Texts, SearchLines;
    var texts, context := Texts(lines), limits.contextLines;
    var hits := Hits(texts, isMatch, limits.maxMatches);
    TextsOfMore(lines, line);
    HitsStep(texts, line.text, isMatch, limits.maxMatches);
    SearchOfHits(lines, isMatch, limits);
    SearchOfHits(lines + [line], isMatch, limits);
    NewMatch(lines, line, context);
    MatchesStep(lines, line, hits, context);
    if |hits| < limits.maxMatches && isMatch(line.text) {
      MatchesOfMore(lines + [line], hits, |lines|, context);
    }
  }

  /** The matches at some lines. */
  function MatchesAt(lines: seq<Line>, hits: seq<nat>, context: nat): (matches: seq<Match>)
    requires forall j :: 0 <= j < |hits| ==> hits[j] < |lines|
    ensures |matches| == |hits|
  {
    seq(|hits|, j requires 0 <= j < |hits| => MatchAt(lines, hits[j], context))
  }

  lemma SearchOfHits(lines: seq<Line>, isMatch: string -> bool, limits: Limits)
    ensures SearchLines(lines, isMatch, limits)
            == MatchesAt(lines, Hits(Texts(lines), isMatch, limits.maxMatches), limits.contextLines)
  {
    hide MatchAt, Hits;
  }

  lemma MatchesOfMore(lines: seq<Line>, hits: seq<nat>, hit: nat, context: nat)
    requires hit < |lines| && forall j :: 0 <= j < |hits| ==> hits[j] < |lines|
    ensures MatchesAt(lines, hits + [hit], context) == MatchesAt(lines, hits, context) + [MatchAt(lines, hit, context)]
  {
    hide MatchAt;
  }

  lemma MatchesStep(lines: seq<Line>, line: Line, hits: seq<nat>, context: nat)
    requires forall j :: 0 <= j < |hits| ==> hits[j] < |lines|
    ensures MatchesAt(lines + [line], hits, context) == Filled(MatchesAt(lines, hits, context), line.text, context)
  {
    hide MatchAt;
    forall j | 0 <= j < |hits|
      ensures MatchesAt(lines + [line], hits, context)[j]
          == Filled(MatchesAt(lines, hits, context), line.text, context)[j]
    {
      MatchStep(lines, line, hits[j], context);
    }
  }

  lemma TextsOfMore(lines: seq<Line>, line: Line)
    ensures Texts(lines + [line]) == Texts(lines) + [line.text]
  {
  }

  lemma NewMatch(lines: seq<Line>, line: Line, context: nat)
    ensures var texts := Texts(lines);
            MatchAt(lines + [line], |lines|, context)
            == Match(line.text, texts[Max(0, |texts| - context)..], [], line.offset)
  {
    assert Texts(lines + [line]) == Texts(lines) + [line.text];
  }

  lemma HitsStep(texts: seq<string>, text: string, isMatch: string -> bool, max: nat)
    ensures var hits := Hits(texts, isMatch, max);
            Hits(texts + [text], isMatch, max) == if |hits| < max && isMatch(text) then hits + [|texts|] else hits
  {
    assert Front(texts + [text]) == texts;
  }

  lemma MatchStep(lines: seq<Line>, line: Line, i: nat, context: nat)
    requires i < |lines|
    ensures var m := MatchAt(lines, i, context);
            MatchAt(lines + [line], i, context) == if |m.after| < context then m.(after := m.after + [line.text]) else m
  {
    assert Texts(lines + [line]) == Texts(lines) + [line.text];
  }

  // ---------- The pages of one run ----------

  /** What the pages leave after their last newline. */
  function Carry(pages: seq<Page>): string {
    if pages == [] then "" else Last(Split(Carry(Front(pages)) + Last(pages).content))
  }

  /** The lines a page completes: all but the carried one, and at the end of the file that one too. */
  function CompletedBy(carry: string, page: Page): seq<Line> {
    LinesAt(Completed(carry + page.content, page.hasMore), page.offset)
  }

  function LinesOf(pages: seq<Page>): seq<Line> {
    if pages == [] then [] else LinesOf(Front(pages)) + CompletedBy(Carry(Front(pages)), Last(pages))
  }

  function TextOf(pages: seq<Page>): string {
    if pages == [] then "" else TextOf(Front(pages)) + Last(pages).content
  }

  /** Every page but perhaps the last announces more. */
  ghost predicate Continues(pages: seq<Page>) {
    forall k :: 0 <= k < |pages| - 1 ==> pages[k].hasMore
  }

  /** The lines the pages complete are those of their joined text, however it is cut. */
  lemma {:induction false} LinesOfJoinedText(pages: seq<Page>)
    requires Continues(pages)
    ensures Carry(pages) == Last(Split(TextOf(pages)))
    ensures pages != [] ==> Texts(LinesOf(pages)) == Normalized(Completed(TextOf(pages), Last(pages).hasMore))
  {
    hide Split, Completed, Texts, Normalized;
    NothingCompleted();
    if pages != [] {
      var front := Front(pages);
      LinesOfJoinedText(front);
      LastSplit(TextOf(front), Last(pages).content);
      assert TextOf(pages) == TextOf(front) + Last(pages).content;
      assert Carry(pages) == Last(Split(Carry(front) + Last(pages).content));
      assert front != [] ==> Last(front).hasMore;
      CompletedConcat(TextOf(front), Last(pages).content, Last(pages).hasMore);
      JoinTexts(LinesOf(front), Completed(TextOf(front), true),
                CompletedBy(Carry(front), Last(pages)),
                    Completed(Carry(front) + Last(pages).content, Last(pages).hasMore));
    }
  }

  /** The pieces of a text that are complete: all but the last while more may follow. */
  function Completed(text: string, hasMore: bool): seq<string> {
    if hasMore then Front(Split(text)) else Split(text)
  }

  lemma LastSplit(a: string, b: string)
    ensures Last(Split(a + b)) == Last(Split(Last(Split(a)) + b))
  {
    SplitConcat(a, b);
  }

  lemma NothingCompleted()
    ensures Last(Split("")) == ""
    ensures Texts([]) == Normalized(Completed("", true))
  {
  }

  lemma CompletedConcat(a: string, b: string, hasMore: bool)
    ensures Completed(a + b, hasMore) == Completed(a, true) + Completed(Last(Split(a)) + b, hasMore)
  {
    SplitConcat(a, b);
    hide Split;
  }

  lemma JoinTexts(a: seq<Line>, p: seq<string>, b: seq<Line>, q: seq<string>)
    requires Texts(a) == Normalized(p) && (exists offset :: b == LinesAt(q, offset))
    ensures Texts(a + b) == Normalized(p + q)
  {
    var t := Normalized(p) + Normalized(q);
    assert Texts(b) == Normalized(q);
    assert Texts(a + b) == Texts(a) + Texts(b) == t;
    assert Normalized(p + q) == t;
  }

  /** After page `k` the search asks for another. */
  ghost predicate GoesOn(pages: seq<Page>, k: nat, isMatch: string -> bool, limits: Limits)
    requires k < |pages|
  {
    && !pages[k].binary
    && pages[k].hasMore
    && pages[k].offset < pages[k].nextOffset
    && |SearchLines(LinesOf(pages[..k + 1]), isMatch, limits)| < limits.maxMatches
  }

  /** The last number the pages answered that is not 0. */
  function LastNonZero(values: seq<nat>, initial: nat): nat {
    if values == [] then initial else if Last(values) != 0 then Last(values) else LastNonZero(Front(values), initial)
  }

  function Totals(pages: seq<Page>): seq<nat> { seq(|pages|, i requires 0 <= i < |pages| => pages[i].totalBytes) }
  function NextOffsets(pages: seq<Page>): seq<nat> { seq(|pages|, i requires 0 <= i < |pages| => pages[i].nextOffset) }

  function ResultOf(pages: seq<Page>, startOffset: nat, isMatch: string -> bool, limits: Limits): SearchResult
    requires pages != []
  {
    var matches := SearchLines(LinesOf(pages), isMatch, limits);
    var last := Last(pages);
    var totalBytes := LastNonZero(Totals(pages), 0);
    SearchResult(matches, LastNonZero(NextOffsets(pages), startOffset), totalBytes, last.nextOffset,
                 |matches| >= limits.maxMatches && (last.hasMore || last.nextOffset < totalBytes))
  }

  /** The search reads the first `used` answers and ends with `outcome`. */
  ghost predicate Ends(pages: seq<Page>, startOffset: nat, isMatch: string -> bool, limits: Limits, used: nat,
                       outcome: Outcome) {
    && used <= |pages|
    && (forall k :: 0 <= k < used - 1 ==> GoesOn(pages, k, isMatch, limits))
    && match outcome
       case Unanswered => used == |pages| && (used > 0 ==> GoesOn(pages, used - 1, isMatch, limits))
       case BinaryContent => used > 0 && pages[used - 1].binary
       case NoProgress =>
         used > 0
         && var page := pages[used - 1];
         !page.binary && page.hasMore && page.nextOffset <= page.offset
         && |SearchLines(LinesOf(pages[..used]), isMatch, limits)| < limits.maxMatches
       case Found(result) =>
         && used > 0 && !pages[used - 1].binary
         && (!pages[used - 1].hasMore || |result.matches| == limits.maxMatches)
         && result == ResultOf(pages[..used], startOffset, isMatch, limits)
  }

  method SearchTextReader(pages: seq<Page>, startOffset: nat, isMatch: string -> bool, limits: Limits)
    returns (used: nat, outcome: Outcome)
    requires limits.maxMatches > 0
    ensures Ends(pages, startOffset, isMatch, limits, used, outcome)
  {
    hide Carry, LinesOf, SearchLines, LastNonZero, Split;
    var matches: seq<Match> := [];
    var beforeLines: seq<string> := [];
    var pendingMatches: seq<Pending> := [];
    var carry := "";
    var offset, scannedBytes, totalBytes := startOffset, startOffset, 0;
    used := 0;
    EmptyRun(startOffset, isMatch, limits);
    while used < |pages|
      invariant used <= |pages|
      invariant forall k :: 0 <= k < used ==> GoesOn(pages, k, isMatch, limits)
      invariant carry == Carry(pages[..used])
      invariant IsState(LinesOf(pages[..used]), matches, beforeLines, pendingMatches, isMatch, limits)
      invariant scannedBytes == LastNonZero(NextOffsets(pages[..used]), startOffset)
      invariant totalBytes == LastNonZero(Totals(pages[..used]), 0)
    {
      var range := pages[used];
      ghost var before := pages[..used];
      assert pages[..used + 1] == before + [range];
      used := used + 1;
      if range.binary { return used, BinaryContent; }
      OnePageMore(before, range, startOffset);
      totalBytes := if range.totalBytes != 0 then range.totalBytes else totalBytes;
      scannedBytes := if range.nextOffset != 0 then range.nextOffset else scannedBytes;
      var lines := Split(carry + range.content);
      if range.hasMore {
        carry := Last(lines);
        lines := Front(lines);
      }
      matches, beforeLines, pendingMatches :=
        SearchPage(LinesOf(before), lines, range.offset, matches, beforeLines, pendingMatches, isMatch, limits);
      offset := range.nextOffset;
      if |matches| >= limits.maxMatches {
        return used, Found(SearchResult(matches, scannedBytes, totalBytes, offset,
                                        range.hasMore || offset < totalBytes));
      }
      if !range.hasMore {
        return used, Found(SearchResult(matches, scannedBytes, totalBytes, offset, false));
      }
      if range.nextOffset <= range.offset { return used, NoProgress; }
    }
    outcome := Unanswered;
  }

  /** The variables of the loop after the lines of `done`. */
  ghost predicate IsState(done: seq<Line>, matches: seq<Match>, beforeLines: seq<string>, pending: seq<Pending>,
                          isMatch: string -> bool, limits: Limits) {
    && matches == SearchLines(done, isMatch, limits)
    && |matches| <= limits.maxMatches
    && beforeLines == Texts(done)[Max(0, |done| - limits.contextLines)..]
    && IsPending(pending, matches, limits.contextLines)
  }

  lemma EmptyRun(startOffset: nat, isMatch: string -> bool, limits: Limits)
    ensures Carry([]) == "" && LinesOf([]) == [] && SearchLines([], isMatch, limits) == []
    ensures LastNonZero(NextOffsets([]), startOffset) == startOffset && LastNonZero(Totals([]), 0) == 0
  {
  }

  lemma OnePageMore(pages: seq<Page>, page: Page, startOffset: nat)
    ensures Carry(pages + [page]) == Last(Split(Carry(pages) + page.content))
    ensures LinesOf(pages + [page]) == LinesOf(pages) + CompletedBy(Carry(pages), page)
    ensures LastNonZero(Totals(pages + [page]), 0)
            == if page.totalBytes != 0 then page.totalBytes else LastNonZero(Totals(pages), 0)
    ensures LastNonZero(NextOffsets(pages + [page]), startOffset)
            == if page.nextOffset != 0 then page.nextOffset else LastNonZero(NextOffsets(pages), startOffset)
  {
    hide Split;
    assert Front(pages + [page]) == pages;
    assert Front(Totals(pages + [page])) == Totals(pages);
    assert Front(NextOffsets(pages + [page])) == NextOffsets(pages);
  }

  /** The inner loop: the lines one page completes. */
  method SearchPage(ghost done: seq<Line>, lines: seq<string>, pageOffset: nat, matches0: seq<Match>,
                    beforeLines0: seq<string>,
                    pending0: seq<Pending>, isMatch: string -> bool, limits: Limits)
    returns (matches: seq<Match>, beforeLines: seq<string>, pendingMatches: seq<Pending>)
    requires IsState(done, matches0, beforeLines0, pending0, isMatch, limits)
    ensures IsState(done + LinesAt(lines, pageOffset), matches, beforeLines, pendingMatches, isMatch, limits)
  {
    hide SearchLines, IsPending;
    matches, beforeLines, pendingMatches := matches0, beforeLines0, pending0;
    var i := 0;
    assert done + LinesAt(lines, pageOffset)[..0] == done;
    while i < |lines|
      invariant 0 <= i <= |lines|
      invariant IsState(done + LinesAt(lines, pageOffset)[..i], matches, beforeLines, pendingMatches, isMatch, limits)
    {
      ghost var seen := done + LinesAt(lines, pageOffset)[..i];
      assert done + LinesAt(lines, pageOffset)[..i + 1] == seen + [Line(NormalizeLine(lines[i]), pageOffset)];
      matches, beforeLines, pendingMatches :=
        SearchLine(seen, NormalizeLine(lines[i]), pageOffset, matches, beforeLines, pendingMatches, isMatch, limits);
      i := i + 1;
    }
    assert LinesAt(lines, pageOffset)[..i] == LinesAt(lines, pageOffset);
  }

  /** One turn of the inner loop. */
  method SearchLine(ghost done: seq<Line>, line: string, pageOffset: nat, matches0: seq<Match>,
                    beforeLines0: seq<string>,
                    pending0: seq<Pending>, isMatch: string -> bool, limits: Limits)
    returns (matches: seq<Match>, beforeLines: seq<string>, pendingMatches: seq<Pending>)
    requires IsState(done, matches0, beforeLines0, pending0, isMatch, limits)
    ensures IsState(done + [Line(line, pageOffset)], matches, beforeLines, pendingMatches, isMatch, limits)
  {
    hide SearchLines, Filled, IsPending;
    SearchStep(done, Line(line, pageOffset), isMatch, limits);
    FilledLength(matches0, line, limits.contextLines);
    assert Texts(done + [Line(line, pageOffset)]) == Texts(done) + [line];
    beforeLines := beforeLines0;
    pendingMatches, matches := FillAfterContext(pending0, matches0, line, limits.contextLines);
    if |matches| < limits.maxMatches && isMatch(line) {
      var match_ := Match(line, SliceLast(beforeLines, limits.contextLines), [], pageOffset);
      PendingWithNew(pendingMatches, matches, match_, limits.contextLines);
      matches := matches + [match_];
      if limits.contextLines > 0 {
        pendingMatches := pendingMatches + [Pending(|matches| - 1, limits.contextLines)];
      }
    }
    beforeLines := beforeLines + [line];
    if |beforeLines| > limits.contextLines {
      beforeLines := beforeLines[1..];
    }
  }

  lemma PendingWithNew(pending: seq<Pending>, matches: seq<Match>, match_: Match, context: nat)
    requires IsPending(pending, matches, context) && match_.after == []
    ensures context > 0 ==> IsPending(pending + [Pending(|matches|, context)], matches + [match_], context)
    ensures context == 0 ==> IsPending(pending, matches + [match_], context)
  {
    assert pending != [] ==> pending[0].remaining > 0;
  }

  lemma FilledLength(matches: seq<Match>, line: string, context: nat)
    ensures |Filled(matches, line, context)| == |matches|
  {
  }

  /** JavaScript's `slice(-n)`: the last n elements, but all of them for n = 0. */
  function SliceLast<T>(s: seq<T>, n: nat): seq<T> {
    if n == 0 || n >= |s| then s else s[|s| - n..]
  }

  // ---------- Chunked search against the search of the whole text ----------

  /** One search of the whole text. */
  function WholeTextMatches(text: string, isMatch: string -> bool, limits: Limits): seq<Match> {
    SearchLines(LinesAt(Split(text), 0), isMatch, limits)
  }

  /** The pages cut the text: each but the last announces more, and joined they give it back. */
  ghost predicate Cuts(pages: seq<Page>, text: string) {
    pages != [] && Continues(pages) && !Last(pages).hasMore && TextOf(pages) == text
  }

  lemma TextOfUnfold(pages: seq<Page>)
    requires pages != []
    ensures TextOf(pages) == TextOf(Front(pages)) + Last(pages).content
  {
  }

  lemma FrontOfConcat<T>(a: seq<T>, b: seq<T>)
    requires b != []
    ensures Front(a + b) == a + Front(b) && Last(a + b) == Last(b)
  {
  }

  lemma {:induction false} TextOfConcat(a: seq<Page>, b: seq<Page>)
    ensures TextOf(a + b) == TextOf(a) + TextOf(b)
  {
    if b == [] {
      assert a + b == a;
    } else {
      hide TextOf;
      TextOfUnfold(a + b);
      TextOfUnfold(b);
      FrontOfConcat(a, b);
      hide Front, Last;
      TextOfConcat(a, Front(b));
      assert (TextOf(a) + TextOf(Front(b))) + Last(b).content == TextOf(a) + (TextOf(Front(b)) + Last(b).content);
    }
  }

  /** The lines completed by the pages read so far begin the lines of the whole text. */
  lemma CompletedLinesAreAPrefix(pages: seq<Page>, text: string, used: nat)
    requires Cuts(pages, text) && 0 < used <= |pages|
    ensures Texts(LinesOf(pages[..used])) <= Texts(LinesAt(Split(text), 0))
    ensures used == |pages| ==> Texts(LinesOf(pages[..used])) == Texts(LinesAt(Split(text), 0))
  {
    hide Split, LinesOf, Normalized, Texts, LinesAt;
    var read := pages[..used];
    LinesOfJoinedText(read);
    TextsOfPieces(Split(text));
    assert pages == read + pages[used..] && Last(read) == pages[used - 1];
    if used == |pages| {
      assert read == pages;
    } else {
      TextOfConcat(read, pages[used..]);
      SplitConcat(TextOf(read), TextOf(pages[used..]));
      NormalizedConcat(Front(Split(TextOf(read))), Split(Last(Split(TextOf(read))) + TextOf(pages[used..])));
    }
  }

  lemma TextsOfPieces(pieces: seq<string>)
    ensures Texts(LinesAt(pieces, 0)) == Normalized(pieces)
  {
  }

  lemma NormalizedConcat(a: seq<string>, b: seq<string>)
    ensures Normalized(a) <= Normalized(a + b)
  {
  }

  lemma {:induction false} HitsOfPrefix(a: seq<string>, b: seq<string>, isMatch: string -> bool, max: nat)
    ensures Hits(a, isMatch, max) <= Hits(a + b, isMatch, max)
    ensures |Hits(a, isMatch, max)| == max ==> Hits(a + b, isMatch, max) == Hits(a, isMatch, max)
  {
    if b == [] {
      assert a + b == a;
    } else {
      assert Front(a + b) == a + Front(b);
      HitsOfPrefix(a, Front(b), isMatch, max);
    }
  }

  /** A match in the first lines of a text against the same match in all of them. */
  lemma MatchInPrefix(a: seq<Line>, b: seq<Line>, i: nat, context: nat)
    requires i < |a| && Texts(a) <= Texts(b)
    ensures var m, n := MatchAt(a, i, context), MatchAt(b, i, context);
            && m.line == n.line && m.before == n.before && m.after <= n.after
            && (m.after == n.after <==> |a| >= Min(|b|, i + 1 + context))
  {
    var s, t := Texts(a), Texts(b);
    var top := Min(|s|, i + 1 + context);
    assert forall k :: 0 <= k < |s| ==> s[k] == t[k];
    assert s[i + 1..top] == t[i + 1..top];
    assert t[i + 1..top] <= t[i + 1..Min(|t|, i + 1 + context)];
  }

  /** The search of the pages finds the matches of the whole text: the same lines with the same lines
      before them. The lines after match `j` are the same exactly when the pages read complete them all. */
  lemma AgreesWithWholeText(pages: seq<Page>, text: string, startOffset: nat, isMatch: string -> bool, limits: Limits,
                            used: nat, result: SearchResult, j: nat)
    requires Cuts(pages, text) && Ends(pages, startOffset, isMatch, limits, used, Found(result))
    ensures |result.matches| == |WholeTextMatches(text, isMatch, limits)|
    ensures |result.matches| < limits.maxMatches ==> used == |pages|
    ensures j < |result.matches| ==>
              var m, whole := result.matches[j], WholeTextMatches(text, isMatch, limits)[j];
              var hits := Hits(Texts(LinesAt(Split(text), 0)), isMatch, limits.maxMatches);
              && m.line == whole.line && m.before == whole.before && m.after <= whole.after
              && (m.after == whole.after <==>
                   |LinesOf(pages[..used])| >= Min(|Split(text)|, hits[j] + 1 + limits.contextLines))
              && (used == |pages| ==> m.after == whole.after)
  {
    hide Split, LinesOf, Hits, LastNonZero, MatchAt;
    var lines, all := LinesOf(pages[..used]), LinesAt(Split(text), 0);
    CompletedLinesAreAPrefix(pages, text, used);
    HitsOfPrefix(Texts(lines), Texts(all)[|lines|..], isMatch, limits.maxMatches);
    assert Texts(lines) + Texts(all)[|lines|..] == Texts(all);
    if used < |pages| {
      assert pages[used - 1].hasMore;
    }
    if j < |result.matches| {
      MatchInPrefix(lines, all, Hits(Texts(lines), isMatch, limits.maxMatches)[j], limits.contextLines);
    }
  }

  /** Any two ways of cutting a text find the same lines with the same lines before them; if the limit
      does not end the search, also the same lines after them. */
  lemma ChunkingIsInvisible(p: seq<Page>, q: seq<Page>, text: string, start: nat, isMatch: string -> bool,
                            limits: Limits,
                            m: nat, n: nat, a: SearchResult, b: SearchResult, j: nat)
    requires Cuts(p, text) && Ends(p, start, isMatch, limits, m, Found(a))
    requires Cuts(q, text) && Ends(q, start, isMatch, limits, n, Found(b))
    ensures |a.matches| == |b.matches|
    ensures j < |a.matches| ==> a.matches[j].line == b.matches[j].line && a.matches[j].before == b.matches[j].before
    ensures j < |a.matches| && (|a.matches| < limits.maxMatches || (m == |p| && n == |q|))
            ==> a.matches[j].after == b.matches[j].after
  {
    hide Ends, Cuts, WholeTextMatches, Hits, LinesAt;
    AgreesWithWholeText(p, text, start, isMatch, limits, m, a, j);
    AgreesWithWholeText(q, text, start, isMatch, limits, n, b, j);
  }

  /** A result holds every matching line of the text exactly when no more than `maxMatches` lines match. */
  lemma CompleteIff(pages: seq<Page>, text: string, startOffset: nat, isMatch: string -> bool, limits: Limits,
                    used: nat, result: SearchResult)
    requires Cuts(pages, text) && Ends(pages, startOffset, isMatch, limits, used, Found(result))
    ensures var texts := Texts(LinesAt(Split(text), 0));
            |result.matches| == |Hits(texts, isMatch, |texts|)| <==>
                |Hits(texts, isMatch, |texts|)| <= limits.maxMatches
  {
    hide Split, Ends, Cuts, LinesOf;
    AgreesWithWholeText(pages, text, startOffset, isMatch, limits, used, result, 0);
    var texts := Texts(LinesAt(Split(text), 0));
    HitsUnderLimits(texts, isMatch, limits.maxMatches);
  }

  lemma {:induction false} HitsUnderLimits(texts: seq<string>, isMatch: string -> bool, max: nat)
    ensures |Hits(texts, isMatch, max)| == Min(max, |Hits(texts, isMatch, |texts|)|)
  {
    if texts != [] {
      HitsUnderLimits(Front(texts), isMatch, max);
      HitsUnderLimits(Front(texts), isMatch, |texts|);
      assert |Hits(Front(texts), isMatch, |texts| - 1)| <= |texts| - 1;
    }
  }

  // ---------- When `truncated` is right ----------

  /** The positions of all lines of a text that match. */
  function AllHits(text: string, isMatch: string -> bool): seq<nat> {
    var texts := Texts(LinesAt(Split(text), 0));
    Hits(texts, isMatch, |texts|)
  }

  /** The pages before the last hold as many matches as are wanted. */
  ghost predicate LimitFallsEarlier(pages: seq<Page>, isMatch: string -> bool, limits: Limits)
    requires pages != []
  {
    |SearchLines(LinesOf(Front(pages)), isMatch, limits)| >= limits.maxMatches
  }

  lemma {:induction false} LinesGrow(pages: seq<Page>, m: nat, n: nat)
    requires m <= n <= |pages|
    ensures LinesOf(pages[..m]) <= LinesOf(pages[..n])
    decreases n
  {
    hide Split, Completed, Carry;
    if m < n {
      LinesGrow(pages, m, n - 1);
      assert Front(pages[..n]) == pages[..n - 1];
    }
  }

  /** The search reads every page exactly if the limit does not fall before the last. */
  lemma ReadsAllIff(pages: seq<Page>, text: string, startOffset: nat, isMatch: string -> bool, limits: Limits,
                    used: nat, result: SearchResult)
    requires Cuts(pages, text) && Ends(pages, startOffset, isMatch, limits, used, Found(result))
        && limits.maxMatches > 0
    ensures used == |pages| <==> !LimitFallsEarlier(pages, isMatch, limits)
  {
    hide LinesOf, Hits, LastNonZero, MatchAt;
    var n := |pages| - 1;
    assert Front(pages) == pages[..n];
    if used == |pages| {
      if n > 0 {
        assert GoesOn(pages, n - 1, isMatch, limits);
      } else {
        EmptyRun(startOffset, isMatch, limits);
        assert Front(pages) == [];
      }
    } else {
      LinesGrow(pages, used, n);
      var a, b := LinesOf(pages[..used]), LinesOf(pages[..n]);
      assert Texts(a) + Texts(b)[|a|..] == Texts(b);
      HitsOfPrefix(Texts(a), Texts(b)[|a|..], isMatch, limits.maxMatches);
    }
  }

  /** `truncated` says whether the search stopped before the last page, if the pages end where the file does. */
  lemma TruncatedIff(pages: seq<Page>, text: string, startOffset: nat, isMatch: string -> bool, limits: Limits,
                     used: nat, result: SearchResult)
    requires Cuts(pages, text) && Ends(pages, startOffset, isMatch, limits, used, Found(result))
        && limits.maxMatches > 0
    requires Last(pages).nextOffset == LastNonZero(Totals(pages), 0)
    ensures result.truncated <==> LimitFallsEarlier(pages, isMatch, limits)
  {
    ReadsAllIff(pages, text, startOffset, isMatch, limits, used, result);
    hide LinesOf, SearchLines, LimitFallsEarlier, LastNonZero;
    if used == |pages| {
      assert pages[..used] == pages;
    } else {
      assert pages[used - 1].hasMore && Last(pages[..used]) == pages[used - 1];
    }
  }

  /** `truncated` says whether matches were dropped, except in two cases: more lines match than are wanted
      and the limit falls in the last page, or just as many match and it falls earlier. */
  lemma TruncatedIsRightIff(pages: seq<Page>, text: string, startOffset: nat, isMatch: string -> bool, limits: Limits,
                            used: nat, result: SearchResult)
    requires Cuts(pages, text) && Ends(pages, startOffset, isMatch, limits, used, Found(result))
        && limits.maxMatches > 0
    requires Last(pages).nextOffset == LastNonZero(Totals(pages), 0)
    ensures (result.truncated <==> |result.matches| < |AllHits(text, isMatch)|) <==>
              && !(|AllHits(text, isMatch)| > limits.maxMatches && !LimitFallsEarlier(pages, isMatch, limits))
              && !(|AllHits(text, isMatch)| == limits.maxMatches && LimitFallsEarlier(pages, isMatch, limits))
  {
    TruncatedIff(pages, text, startOffset, isMatch, limits, used, result);
    ReadsAllIff(pages, text, startOffset, isMatch, limits, used, result);
    AgreesWithWholeText(pages, text, startOffset, isMatch, limits, used, result, 0);
    HitsUnderLimits(Texts(LinesAt(Split(text), 0)), isMatch, limits.maxMatches);
    hide Split, LinesOf, Hits, LimitFallsEarlier, Cuts, Ends, Texts, LinesAt;
  }

  lemma SplitLine(c: char, rest: string)
    requires c != '\n'
    ensures Split([c]) == [[c]]
    ensures Split([c, '\n'] + rest) == [[c]] + Split(rest)
  {
    assert [c][1..] == "" && [c] + "" == [c] && [""][1..] == [];
    assert Split([c]) == Prepend(c, [""]) == [[c]] + [];
    assert ([c, '\n'] + rest)[1..] == ['\n'] + rest;
    assert (['\n'] + rest)[1..] == rest;
  }

  lemma TwoLines()
    ensures Split("a\nb") == ["a", "b"] && Split("a\n") == ["a", ""]
  {
    SplitLine('a', "b");
    SplitLine('a', "");
    SplitLine('b', "");
    assert "a\nb" == ['a', '\n'] + "b" && "a\n" == ['a', '\n'] + "";
  }

  lemma LinesOfOnePage(page: Page)
    ensures LinesOf([page]) == LinesAt(Completed(page.content, page.hasMore), page.offset)
  {
    assert Front([page]) == [] && "" + page.content == page.content;
    assert [] + CompletedBy("", page) == CompletedBy("", page);
  }

  lemma TwoLinesSearched(isMatch: string -> bool, page: Page)
    requires isMatch("a") && page.content == "a\nb" && !page.hasMore
    ensures Texts(LinesOf([page])) == Texts(LinesAt(Split("a\nb"), 0)) == ["a", "b"]
    ensures SearchLines(LinesOf([page]), isMatch, Limits(1, 1)) == [Match("a", [], ["b"], page.offset)]
    ensures isMatch("b") ==> |Hits(["a", "b"], isMatch, 2)| == 2
  {
    hide Split;
    TwoLines();
    LinesOfOnePage(page);
    assert Texts(LinesOf([page])) == ["a", "b"];
    assert Front(["a", "b"]) == ["a"] && Front(["a"]) == [];
    assert Hits(["a"], isMatch, 1) == [0] && Hits(["a"], isMatch, 2) == [0];
    assert Hits(["a", "b"], isMatch, 1) == [0];
    assert ["a", "b"][1..2] == ["b"] && ["a", "b"][0..0] == [];
  }

  /** `truncated` does not say that matches were dropped: it is false when the limit falls in the last page. */
  lemma UntruncatedCanDropMatches(isMatch: string -> bool)
    requires isMatch("a") && isMatch("b")
    ensures var page := Page("a\nb", false, 0, 3, 3, false);
            exists result ::
              && Ends([page], 0, isMatch, Limits(1, 1), 1, Found(result))
              && !result.truncated && |result.matches| == 1
              && |Hits(Texts(LinesAt(Split("a\nb"), 0)), isMatch, 2)| == 2
  {
    hide Split, LinesOf, SearchLines, Hits;
    var page := Page("a\nb", false, 0, 3, 3, false);
    TwoLinesSearched(isMatch, page);
    assert [page][..1] == [page];
    var result := ResultOf([page], 0, isMatch, Limits(1, 1));
    assert Totals([page]) == [3];
    assert Ends([page], 0, isMatch, Limits(1, 1), 1, Found(result));
  }

  lemma OneLineSearched(isMatch: string -> bool, lines: seq<Line>)
    requires isMatch("a") && lines == [Line("a", 0)]
    ensures SearchLines(lines, isMatch, Limits(1, 1)) == [Match("a", [], [], 0)]
  {
    assert Texts(lines) == ["a"] && Front(["a"]) == [];
    assert Hits(["a"], isMatch, 1) == [0];
    assert ["a"][0..0] == [] && ["a"][1..1] == [];
  }

  /** The lines after a match do depend on the pages once the limit ends the search. */
  lemma AfterDependsOnChunks(isMatch: string -> bool)
    requires isMatch("a")
    ensures var whole := [Page("a\nb", false, 0, 3, 3, false)];
            var cut := [Page("a\n", false, 0, 2, 3, true), Page("b", false, 2, 3, 3, false)];
            exists r, s ::
              && Ends(whole, 0, isMatch, Limits(1, 1), 1, Found(r)) && r.matches == [Match("a", [], ["b"], 0)]
              && Ends(cut, 0, isMatch, Limits(1, 1), 1, Found(s)) && s.matches == [Match("a", [], [], 0)]
  {
    hide Split, LinesOf;
    var page, first := Page("a\nb", false, 0, 3, 3, false), Page("a\n", false, 0, 2, 3, true);
    var second := Page("b", false, 2, 3, 3, false);
    TwoLinesSearched(isMatch, page);
    assert [page][..1] == [page];
    assert [first, second][..1] == [first];
    TwoLines();
    LinesOfOnePage(first);
    OneLineSearched(isMatch, LinesOf([first]));
    assert Ends([page], 0, isMatch, Limits(1, 1), 1, Found(ResultOf([page], 0, isMatch, Limits(1, 1))));
    assert Ends([first, second], 0, isMatch, Limits(1, 1), 1, Found(ResultOf([first], 0, isMatch, Limits(1, 1))));
  }

  // ---------- The search of a file through its pages ----------

  /** What the reader answers from a character edge of a fixed file on that is never taken for binary: one
      page after another. */
  ghost function FilePages(data: seq<byte>, start: nat, maxBytes: nat): (pages: seq<Page>)
    requires FileRange.MIN_RANGE_BYTES <= maxBytes && Valid(data) && Boundary(data, start)
  {
    PagesFromEdge(data, start, maxBytes);
    if start == |data| then [EndPage(start)] else PagesOver(data, FileRange.Pages(data, start, maxBytes))
  }

  /** The answer at the end of a file. */
  function EndPage(length: nat): Page { Page("", false, length, length, length, false) }

  /** The text from a character edge on. */
  ghost function TextFrom(data: seq<byte>, start: nat): string
    requires Valid(data) && Boundary(data, start)
  {
    RestIsValid(data, start);
    Decode(data[start..])
  }

  lemma RestIsValid(data: seq<byte>, start: nat)
    requires Valid(data) && Boundary(data, start)
    ensures start <= |data| && ValidFrom(data, start) && Valid(data[start..])
  {
    EdgeIsPosition(data, start);
    EdgesAreBoundaries(data);
    ValidAtBoundary(data, 0, start);
    ValidSlice(data, start, |data|);
    assert data[start..] == data[start..|data|];
  }

  lemma PagesFromEdge(data: seq<byte>, start: nat, maxBytes: nat)
    requires FileRange.MIN_RANGE_BYTES <= maxBytes && Valid(data) && Boundary(data, start)
    ensures forall p :: p in FileRange.Pages(data, start, maxBytes) ==> p.0 <= p.1 <= |data| && Valid(data[p.0..p.1])
    ensures FileRange.JoinedText(data, FileRange.Pages(data, start, maxBytes)) == TextFrom(data, start)
  {
    hide ValidFrom, Decode, FileRange.Pages, FileRange.JoinedText, Boundary;
    RestIsValid(data, start);
    FileRange.PagesOfValidFile(data, start, maxBytes);
  }

  lemma EdgeIsPosition(data: seq<byte>, start: nat)
    requires Boundary(data, start)
    ensures start <= |data|
  {
  }

  ghost function PagesOver(data: seq<byte>, ranges: seq<(nat, nat)>): (pages: seq<Page>)
    requires forall p :: p in ranges ==> p.0 <= p.1 <= |data| && Valid(data[p.0..p.1])
  {
    seq(|ranges|, k requires 0 <= k < |ranges| => PageOver(data, ranges[k]))
  }

  ghost function PageOver(data: seq<byte>, range: (nat, nat)): Page
    requires range.0 <= range.1 <= |data| && Valid(data[range.0..range.1])
  {
    Page(Decode(data[range.0..range.1]), false, range.0, range.1, |data|, range.1 < |data|)
  }

  lemma {:induction false} TextOfPagesOver(data: seq<byte>, ranges: seq<(nat, nat)>)
    requires forall p :: p in ranges ==> p.0 <= p.1 <= |data| && Valid(data[p.0..p.1])
    ensures TextOf(PagesOver(data, ranges)) == FileRange.JoinedText(data, ranges)
  {
    hide ValidFrom, Decode;
    if ranges != [] {
      TextOfPagesOver(data, ranges[1..]);
      var first := PageOver(data, ranges[0]);
      assert PagesOver(data, ranges) == [first] + PagesOver(data, ranges[1..]);
      TextOfConcat([first], PagesOver(data, ranges[1..]));
      assert Front([first]) == [] && "" + first.content == first.content;
    }
  }

  /** Exactly the last page ends the file. */
  lemma {:induction false} MoreUnlessLast(data: seq<byte>, offset: nat, maxBytes: nat)
    requires offset <= |data| && FileRange.MIN_RANGE_BYTES <= maxBytes
    ensures var ranges := FileRange.Pages(data, offset, maxBytes);
            && (offset < |data| ==> ranges != [])
            && forall k :: 0 <= k < |ranges| ==> (ranges[k].1 < |data| <==> k < |ranges| - 1)
    decreases |data| - offset
  {
    hide Boundary, FileRange.SafeStart, FileRange.PageEnd;
    if offset < |data| {
      FileRange.PageProperties(data, offset, maxBytes);
      MoreUnlessLast(data, FileRange.PageEnd(data, offset, maxBytes), maxBytes);
    }
  }

  /** Reading pages of any size from a character edge of a file cuts the text from there on, and every page
      makes progress. */
  lemma FilePagesCut(data: seq<byte>, start: nat, maxBytes: nat)
    requires FileRange.MIN_RANGE_BYTES <= maxBytes && Valid(data) && Boundary(data, start)
    ensures Cuts(FilePages(data, start, maxBytes), TextFrom(data, start))
    ensures forall page :: page in FilePages(data, start, maxBytes) ==>
              !page.binary && (page.hasMore ==> page.offset < page.nextOffset)
  {
    hide ValidFrom, Decode, Boundary, FileRange.Pages, FileRange.SafeStart, FileRange.JoinedText, TextOf;
    EdgeIsPosition(data, start);
    PagesFromEdge(data, start, maxBytes);
    EmptyText(start);
    if start < |data| {
      var ranges := FileRange.Pages(data, start, maxBytes);
      MoreUnlessLast(data, start, maxBytes);
      TextOfPagesOver(data, ranges);
      PagesProgress(data, start, maxBytes);
    } else {
      assert data[start..] == [];
    }
  }

  lemma PagesProgress(data: seq<byte>, start: nat, maxBytes: nat)
    requires FileRange.MIN_RANGE_BYTES <= maxBytes && start < |data| && Boundary(data, start)
    ensures forall range :: range in FileRange.Pages(data, start, maxBytes) && range.1 < |data| ==> range.0 < range.1
  {
    hide Boundary, FileRange.Pages, FileRange.SafeStart, FileRange.JoinedText, FileRange.Contents;
    FileRange.PagesTileTheFile(data, start, maxBytes);
    MoreUnlessLast(data, start, maxBytes);
    var ranges := FileRange.Pages(data, start, maxBytes);
    forall range | range in ranges && range.1 < |data| ensures range.0 < range.1 {
      var k :| 0 <= k < |ranges| && ranges[k] == range;
    }
  }

  /** The pages of a file end where it does: so the condition on `truncated` holds for them. */
  lemma FilePagesEndAtTotal(data: seq<byte>, start: nat, maxBytes: nat)
    requires FileRange.MIN_RANGE_BYTES <= maxBytes && Valid(data) && Boundary(data, start)
    ensures var pages := FilePages(data, start, maxBytes);
            pages != [] && Last(pages).nextOffset == |data| == LastNonZero(Totals(pages), 0)
  {
    hide ValidFrom, Decode, Boundary, FileRange.Pages, FileRange.SafeStart;
    EdgeIsPosition(data, start);
    PagesFromEdge(data, start, maxBytes);
    var pages := FilePages(data, start, maxBytes);
    if start == |data| {
      assert Totals(pages) == [start] && Front([start]) == [];
    } else {
      MoreUnlessLast(data, start, maxBytes);
      assert Last(pages).totalBytes == |data| && Last(Totals(pages)) == |data|;
    }
  }

  lemma EmptyText(length: nat)
    ensures Decode([]) == "" && TextOf([EndPage(length)]) == ""
  {
    assert Front([EndPage(length)]) == [];
  }

  /** Each of these pages is what `readTextRange` answers at the offset where the one before it ended. */
  lemma FilePagesAreAnswers(data: seq<byte>, start: nat, maxBytes: nat, k: nat, offset: nat)
    requires FileRange.MIN_RANGE_BYTES <= maxBytes <= FileRange.MAX_RANGE_BYTES && Valid(data) && Boundary(data, start)
    requires var pages := FilePages(data, start, maxBytes);
             k < |pages| && offset == if k == 0 then start else pages[k - 1].nextOffset
    ensures var page := FilePages(data, start, maxBytes)[k];
            var options := FileRange.RangeOptions(Some(offset), Some(maxBytes));
            var answer := FileRange.PageOf(data, options, _ => false);
            && page.offset == answer.offset && page.nextOffset == answer.nextOffset
            && page.totalBytes == answer.totalBytes && page.hasMore == answer.hasMore
            && Valid(answer.content) && page.content == Decode(answer.content)
  {
    hide ValidFrom, Decode, Boundary, FileRange.SafeStart, FileRange.PageEnd;
    EdgeIsPosition(data, start);
    PagesFromEdge(data, start, maxBytes);
    if start == |data| {
      EmptyText(start);
      NothingIsValid();
    } else {
      PageAt(data, start, maxBytes, k);
      AnswerAt(data, maxBytes, offset);
      assert FilePages(data, start, maxBytes)[k] == PageOver(data, FileRange.Pages(data, start, maxBytes)[k]);
    }
  }

  lemma NothingIsValid()
    ensures Valid([])
  {
  }

  lemma AnswerAt(data: seq<byte>, maxBytes: nat, offset: nat)
    requires FileRange.MIN_RANGE_BYTES <= maxBytes <= FileRange.MAX_RANGE_BYTES && offset < |data|
    ensures var options := FileRange.RangeOptions(Some(offset), Some(maxBytes));
            var start, end := FileRange.SafeStart(data, offset), FileRange.PageEnd(data, offset, maxBytes);
            && start <= end <= |data|
            && FileRange.PageOf(data, options, _ => false)
               == FileRange.RangeResult(data[start..end], false, start, end, |data|, end - start, end < |data|)
  {
    hide Boundary, FileRange.SafeStart, FileRange.PageEnd;
    FileRange.PageProperties(data, offset, maxBytes);
  }

  lemma {:induction false} PageAt(data: seq<byte>, offset: nat, maxBytes: nat, k: nat)
    requires offset <= |data| && FileRange.MIN_RANGE_BYTES <= maxBytes && k < |FileRange.Pages(data, offset, maxBytes)|
    ensures var ranges := FileRange.Pages(data, offset, maxBytes);
            var at := if k == 0 then offset else ranges[k - 1].1;
            at < |data| && ranges[k] == (FileRange.SafeStart(data, at), FileRange.PageEnd(data, at, maxBytes))
    decreases k
  {
    hide Boundary, FileRange.SafeStart, FileRange.PageEnd;
    if k > 0 {
      FileRange.PageProperties(data, offset, maxBytes);
      PageAt(data, FileRange.PageEnd(data, offset, maxBytes), maxBytes, k - 1);
    }
  }

  /** A search of a well-formed file that is not taken for binary, from any character edge on, always ends with
      a result, and for any two page sizes the results agree. */
  lemma FileSearchIndependentOfPageSize(
    data: seq<byte>, start: nat, sizeA: nat, sizeB: nat, isMatch: string -> bool, limits: Limits,
    usedA: nat, usedB: nat, outcomeA: Outcome, outcomeB: Outcome, j: nat)
    requires FileRange.MIN_RANGE_BYTES <= sizeA && FileRange.MIN_RANGE_BYTES <= sizeB && limits.maxMatches > 0
    requires Valid(data) && Boundary(data, start)
    requires Ends(FilePages(data, start, sizeA), start, isMatch, limits, usedA, outcomeA)
    requires Ends(FilePages(data, start, sizeB), start, isMatch, limits, usedB, outcomeB)
    ensures outcomeA.Found? && outcomeB.Found?
    ensures |outcomeA.result.matches| == |outcomeB.result.matches|
            == |WholeTextMatches(TextFrom(data, start), isMatch, limits)|
    ensures j < |outcomeA.result.matches| ==>
              var a, b := outcomeA.result.matches[j], outcomeB.result.matches[j];
              && a.line == b.line && a.before == b.before
              && (|outcomeA.result.matches| < limits.maxMatches ==> a.after == b.after)
  {
    hide ValidFrom, TextFrom, WholeTextMatches, FilePages, Cuts, Boundary, Ends;
    FilePagesCut(data, start, sizeA);
    FilePagesCut(data, start, sizeB);
    var text, a, b := TextFrom(data, start), FilePages(data, start, sizeA), FilePages(data, start, sizeB);
    AlwaysFound(a, text, start, isMatch, limits, usedA, outcomeA);
    AlwaysFound(b, text, start, isMatch, limits, usedB, outcomeB);
    AgreesWithWholeText(a, text, start, isMatch, limits, usedA, outcomeA.result, j);
    ChunkingIsInvisible(a, b, text, start, isMatch, limits, usedA, usedB, outcomeA.result, outcomeB.result, j);
  }

  lemma AlwaysFound(pages: seq<Page>, text: string, startOffset: nat, isMatch: string -> bool, limits: Limits,
                    used: nat, outcome: Outcome)
    requires Cuts(pages, text) && Ends(pages, startOffset, isMatch, limits, used, outcome)
    requires forall page :: page in pages ==> !page.binary && (page.hasMore ==> page.offset < page.nextOffset)
    ensures outcome.Found?
  {
  }
}
