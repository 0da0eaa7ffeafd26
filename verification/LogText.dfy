/** What a log search finds, said of the text alone: its lines, the matches among them and what stands round
    each (`common/log-search.js`). */
module LogText {
  import opened Prelude
  import opened Utf8
  import opened LogSearch
  import FileRange

  // ---------- The lines of a text ----------

  /** The pieces with a newline between every two. */
  function Join(pieces: seq<string>): string
    requires pieces != []
  {
    if |pieces| == 1 then pieces[0] else pieces[0] + "\n" + Join(pieces[1..])
  }

  predicate ArePieces(text: string, pieces: seq<string>) {
    pieces != [] && Join(pieces) == text && forall piece :: piece in pieces ==> '\n' !in piece
  }

  /** Splitting gives the pieces without a newline that give the text back when joined: there is one such list. */
  lemma SplitIff(text: string, pieces: seq<string>)
    ensures pieces == Split(text) <==> ArePieces(text, pieces)
  {
    SplitJoins(text);
    if ArePieces(text, pieces) {
      PiecesAreSplit(text, pieces);
    }
  }

  lemma {:induction false} SplitJoins(text: string)
    ensures ArePieces(text, Split(text))
  {
    if text != "" {
      SplitJoins(text[1..]);
      var rest := Split(text[1..]);
      if text[0] == '\n' {
        assert ([""] + rest)[1..] == rest;
        assert text == "" + "\n" + text[1..];
      } else {
        var first := [text[0]] + rest[0];
        assert ([first] + rest[1..])[1..] == rest[1..];
        assert text == [text[0]] + text[1..];
        if |rest| > 1 {
          assert [text[0]] + (rest[0] + "\n" + Join(rest[1..])) == first + "\n" + Join(rest[1..]);
        }
      }
    }
  }

  lemma {:induction false} PiecesAreSplit(text: string, pieces: seq<string>)
    requires ArePieces(text, pieces)
    ensures pieces == Split(text)
    decreases |text|
  {
    if text == "" {
      assert |pieces| == 1 && pieces[0] == "";
    } else if text[0] == '\n' {
      assert pieces[0] in pieces;
      assert |pieces| > 1;
      assert text[1..] == Join(pieces[1..]);
      PiecesAreSplit(text[1..], pieces[1..]);
    } else {
      assert pieces[0] != "";
      var rest := [pieces[0][1..]] + pieces[1..];
      assert rest[1..] == pieces[1..];
      assert text[1..] == Join(rest);
      assert forall c :: c in pieces[0][1..] ==> c in pieces[0];
      PiecesAreSplit(text[1..], rest);
      assert [text[0]] + rest[0] == pieces[0];
      assert [pieces[0]] + pieces[1..] == pieces;
    }
  }

  /** A line is its piece without one carriage return at the end. */
  predicate IsLine(piece: string, line: string) {
    line + "\r" == piece || (line == piece && (piece == "" || Last(piece) != '\r'))
  }

  lemma NormalizeLineIff(piece: string, line: string)
    ensures line == NormalizeLine(piece) <==> IsLine(piece, line)
  {
    if line + "\r" == piece {
      assert Front(piece) == line;
    }
  }

  ghost predicate AreLines(text: string, lines: seq<string>) {
    exists pieces :: ArePieces(text, pieces) && |pieces| == |lines|
                     && forall i :: 0 <= i < |lines| ==> IsLine(pieces[i], lines[i])
  }

  lemma LinesIff(text: string, lines: seq<string>)
    ensures AreLines(text, lines) <==> lines == Texts(LinesAt(Split(text), 0))
  {
    var pieces := Split(text);
    SplitIff(text, pieces);
    TextsOfPieces(pieces);
    hide Split, Texts, LinesAt, NormalizeLine;
    if AreLines(text, lines) {
      var those :| ArePieces(text, those) && |those| == |lines|
                   && forall i :: 0 <= i < |lines| ==> IsLine(those[i], lines[i]);
      SplitIff(text, those);
      forall i | 0 <= i < |lines| ensures lines[i] == NormalizeLine(pieces[i]) {
        NormalizeLineIff(pieces[i], lines[i]);
      }
    } else if lines == Normalized(pieces) {
      forall i | 0 <= i < |lines| ensures IsLine(pieces[i], lines[i]) { NormalizeLineIff(pieces[i], lines[i]); }
    }
  }

  // ---------- The matches of a text ----------

  /** The match is line `i` with up to `context` lines before it; after it stand as many, or fewer if the search
      ended early. */
  predicate Shows(m: Match, lines: seq<string>, i: nat, context: nat, all: bool)
    requires i < |lines|
  {
    var rest := lines[i + 1..];
    && m.line == lines[i]
    && m.before == lines[i - Min(context, i)..i]
    && |m.after| <= Min(context, |rest|) && m.after == rest[..|m.after|]
    && (all ==> |m.after| == Min(context, |rest|))
  }

  /** Whatever the pages: the matches are the first matching lines of the text, each with the lines round it;
      one is missing only if there are as many as were wanted before it. */
  lemma MatchesOfText(pages: seq<Page>, text: string, startOffset: nat, isMatch: string -> bool, limits: Limits,
                      used: nat, result: SearchResult, lines: seq<string>)
    returns (hits: seq<nat>)
    requires Cuts(pages, text) && Ends(pages, startOffset, isMatch, limits, used, Found(result))
    requires AreLines(text, lines)
    ensures |hits| == |result.matches| <= limits.maxMatches
    ensures forall j :: 0 <= j < |hits| ==> hits[j] < |lines| && isMatch(lines[hits[j]])
    ensures forall i, j :: 0 <= i < j < |hits| ==> hits[i] < hits[j]
    ensures forall i :: 0 <= i < |lines| && isMatch(lines[i]) && i !in hits ==>
              |hits| == limits.maxMatches && forall h :: h in hits ==> h < i
    ensures forall j :: 0 <= j < |hits| ==>
              Shows(result.matches[j], lines, hits[j], limits.contextLines, used == |pages|)
  {
    hide Ends, Cuts, MatchAt, Texts, LinesAt, Hits, AreLines, Shows, Split;
    LinesIff(text, lines);
    hits := Hits(lines, isMatch, limits.maxMatches);
    HitsAreTheFirst(lines, isMatch, limits.maxMatches);
    AgreesWithWholeText(pages, text, startOffset, isMatch, limits, used, result, 0);
    WholeTextCount(text, isMatch, limits);
    forall j | 0 <= j < |hits|
      ensures Shows(result.matches[j], lines, hits[j], limits.contextLines, used == |pages|)
    {
      MatchShows(pages, text, startOffset, isMatch, limits, used, result, lines, j);
    }
    forall i | 0 <= i < |lines| && isMatch(lines[i]) && i !in hits
      ensures |hits| == limits.maxMatches && forall h :: h in hits ==> h < i
    {
      MissedIsLater(hits, i);
    }
  }

  lemma WholeTextCount(text: string, isMatch: string -> bool, limits: Limits)
    ensures |WholeTextMatches(text, isMatch, limits)|
        == |Hits(Texts(LinesAt(Split(text), 0)), isMatch, limits.maxMatches)|
  {
    hide Split, Hits, MatchAt;
  }

  lemma MatchShows(pages: seq<Page>, text: string, startOffset: nat, isMatch: string -> bool, limits: Limits,
                   used: nat, result: SearchResult, lines: seq<string>, j: nat)
    requires Cuts(pages, text) && Ends(pages, startOffset, isMatch, limits, used, Found(result))
    requires AreLines(text, lines) && j < |Hits(lines, isMatch, limits.maxMatches)|
    ensures j < |result.matches|
    ensures Shows(result.matches[j], lines, Hits(lines, isMatch, limits.maxMatches)[j], limits.contextLines,
                  used == |pages|)
  {
    hide Ends, Cuts, MatchAt, Texts, LinesAt, Hits, AreLines, Shows, Split;
    LinesIff(text, lines);
    var i := Hits(lines, isMatch, limits.maxMatches)[j];
    var all := LinesAt(Split(text), 0);
    AgreesWithWholeText(pages, text, startOffset, isMatch, limits, used, result, j);
    WholeTextCount(text, isMatch, limits);
    assert WholeTextMatches(text, isMatch, limits)[j] == MatchAt(all, i, limits.contextLines);
    WholeMatchShows(all, i, limits.contextLines);
    PrefixShows(MatchAt(all, i, limits.contextLines), result.matches[j], lines, i, limits.contextLines,
                used == |pages|);
  }

  lemma MissedIsLater(hits: seq<nat>, i: nat)
    requires forall k, j :: 0 <= k < j < |hits| ==> hits[k] < hits[j]
    requires i !in hits && (hits != [] ==> i >= Last(hits))
    ensures forall h :: h in hits ==> h < i
  {
    forall h | h in hits ensures h < i {
      var k :| 0 <= k < |hits| && hits[k] == h;
      assert hits[|hits| - 1] in hits;
    }
  }

  lemma WholeMatchShows(all: seq<Line>, i: nat, context: nat)
    requires i < |all|
    ensures Shows(MatchAt(all, i, context), Texts(all), i, context, true)
  {
    var texts := Texts(all);
    var m := MatchAt(all, i, context);
    assert m.after == texts[i + 1..][..|m.after|];
    assert m.before == texts[i - Min(context, i)..i];
  }

  lemma PrefixShows(whole: Match, m: Match, lines: seq<string>, i: nat, context: nat, all: bool)
    requires i < |lines| && Shows(whole, lines, i, context, true)
    requires m.line == whole.line && m.before == whole.before && m.after <= whole.after
    requires all ==> m.after == whole.after
    ensures Shows(m, lines, i, context, all)
  {
    var rest := lines[i + 1..];
    assert m.after == whole.after[..|m.after|] == rest[..|m.after|];
  }

  // ---------- Where a match was found ----------

  function Newlines(text: string): nat {
    if text == "" then 0 else Newlines(text[1..]) + if text[0] == '\n' then 1 else 0
  }

  lemma {:induction false} PiecesOfNewlines(text: string)
    ensures |Split(text)| == Newlines(text) + 1
  {
    if text != "" { PiecesOfNewlines(text[1..]); }
  }

  /** The page that holds the newline at the end of line `i`, or is the last. */
  ghost predicate Completes(pages: seq<Page>, k: nat, i: nat)
    requires k < |pages|
  {
    && Newlines(TextOf(pages[..k])) <= i
    && (i < Newlines(TextOf(pages[..k + 1])) || (k == |pages| - 1 && !pages[k].hasMore))
  }

  lemma LinesOfLength(pages: seq<Page>)
    requires Continues(pages) && pages != []
    ensures |LinesOf(pages)| == Newlines(TextOf(pages)) + if Last(pages).hasMore then 0 else 1
  {
    LinesOfJoinedText(pages);
    PiecesOfNewlines(TextOf(pages));
    hide LinesOf, TextOf, Split;
  }

  lemma NoLines()
    ensures LinesOf([]) == [] && Newlines(TextOf([])) == 0
  {
  }

  lemma OffsetOfLast(pages: seq<Page>, i: nat)
    requires pages != [] && i < |LinesOf(pages)|
    ensures var n := |pages| - 1;
            var before := LinesOf(pages[..n]);
            LinesOf(pages)[i].offset == if i < |before| then before[i].offset else pages[n].offset
  {
    hide Completed;
  }

  /** A line carries the offset of the page that completes it. */
  lemma {:induction false} LineOffset(pages: seq<Page>, i: nat) returns (k: nat)
    requires Continues(pages) && i < |LinesOf(pages)|
    ensures k < |pages| && pages[k].offset == LinesOf(pages)[i].offset && Completes(pages, k, i)
    decreases |pages|
  {
    hide LinesOf, TextOf, Newlines;
    NoLines();
    var n := |pages| - 1;
    var front := pages[..n];
    assert pages == pages[..n + 1];
    if front != [] {
      LinesOfLength(front);
      assert front[n - 1].hasMore;
    }
    LinesOfLength(pages);
    OffsetOfLast(pages, i);
    if i < |LinesOf(front)| {
      k := LineOffset(front, i);
      assert front[..k] == pages[..k] && front[..k + 1] == pages[..k + 1];
    } else {
      k := n;
    }
  }

  /** A match carries the offset of the page that completes its line. */
  lemma MatchOffset(pages: seq<Page>, text: string, startOffset: nat, isMatch: string -> bool, limits: Limits,
                    used: nat, result: SearchResult, lines: seq<string>, hits: seq<nat>, j: nat) returns (k: nat)
    requires Cuts(pages, text) && Ends(pages, startOffset, isMatch, limits, used, Found(result))
    requires AreLines(text, lines) && hits == Hits(lines, isMatch, limits.maxMatches) && j < |hits|
    ensures j < |result.matches|
    ensures k < used && result.matches[j].offset == pages[k].offset && Completes(pages[..used], k, hits[j])
  {
    LinesIff(text, lines);
    var read := pages[..used];
    CompletedLinesAreAPrefix(pages, text, used);
    SameHits(Texts(LinesOf(read)), lines, isMatch, limits.maxMatches);
    assert |result.matches| == |Hits(lines, isMatch, limits.maxMatches)| by {
      hide MatchAt, LinesOf, LastNonZero;
      AgreesWithWholeText(pages, text, startOffset, isMatch, limits, used, result, j);
    }
    assert Continues(read);
    assert result.matches == SearchLines(LinesOf(read), isMatch, limits);
    hide Ends, Cuts, Split, Hits, LastNonZero, TextOf, LinesOf;
    k := LineOffset(read, hits[j]);
  }

  lemma SameHits(texts: seq<string>, lines: seq<string>, isMatch: string -> bool, max: nat)
    requires texts <= lines
    ensures Hits(texts, isMatch, max) <= Hits(lines, isMatch, max)
  {
    assert lines == texts + lines[|texts|..];
    HitsOfPrefix(texts, lines[|texts|..], isMatch, max);
  }

  /** The numbers of the result: where the last page read ends, and the sizes last reported that are not 0. */
  lemma ResultNumbers(pages: seq<Page>, startOffset: nat, isMatch: string -> bool, limits: Limits, used: nat,
                      result: SearchResult)
    requires Ends(pages, startOffset, isMatch, limits, used, Found(result))
    ensures 0 < used <= |pages| && result.nextOffset == pages[used - 1].nextOffset
    ensures pages[used - 1].nextOffset != 0 ==> result.scannedBytes == pages[used - 1].nextOffset
    ensures pages[used - 1].totalBytes != 0 ==> result.totalBytes == pages[used - 1].totalBytes
    ensures (forall k :: 0 <= k < used ==> pages[k].nextOffset == 0) ==> result.scannedBytes == startOffset
    ensures (forall k :: 0 <= k < used ==> pages[k].totalBytes == 0) ==> result.totalBytes == 0
  {
    hide SearchLines, LinesOf;
    AllZero(NextOffsets(pages[..used]), startOffset);
    AllZero(Totals(pages[..used]), 0);
  }

  lemma {:induction false} AllZero(values: seq<nat>, initial: nat)
    ensures (forall k :: 0 <= k < |values| ==> values[k] == 0) ==> LastNonZero(values, initial) == initial
  {
    if values != [] {
      AllZero(Front(values), initial);
    }
  }

  // ---------- Carriage returns ----------

  /** The same text with "\r\n" for every newline. */
  function WithReturns(text: string): string {
    if text == "" then ""
    else if text[0] == '\n' then "\r\n" + WithReturns(text[1..])
    else [text[0]] + WithReturns(text[1..])
  }

  /** Every piece but the last gets a carriage return. */
  function Returned(pieces: seq<string>): seq<string> {
    seq(|pieces|, i requires 0 <= i < |pieces| => if i < |pieces| - 1 then pieces[i] + "\r" else pieces[i])
  }

  lemma {:induction false} SplitWithReturns(text: string)
    ensures Split(WithReturns(text)) == Returned(Split(text))
  {
    if text == "" {
      assert Returned([""]) == [""];
    } else {
      var rest := Split(text[1..]);
      SplitWithReturns(text[1..]);
      if text[0] == '\n' {
        var more := WithReturns(text[1..]);
        SplitLineBreak(more);
        assert WithReturns(text) == ['\r', '\n'] + more;
        ReturnedEmpty(rest);
      } else {
        assert WithReturns(text)[1..] == WithReturns(text[1..]);
        ReturnedPrepend(text[0], rest);
      }
    }
  }

  lemma ReturnedEmpty(pieces: seq<string>)
    requires pieces != []
    ensures Returned([""] + pieces) == ["\r"] + Returned(pieces)
  {
    var a, b := Returned([""] + pieces), ["\r"] + Returned(pieces);
    assert "" + "\r" == "\r";
    forall i | 0 <= i < |a| ensures a[i] == b[i] {
    }
  }

  lemma SplitLineBreak(rest: string)
    ensures Split(['\r', '\n'] + rest) == ["\r"] + Split(rest)
  {
    SplitLine('\r', rest);
  }

  lemma ReturnedPrepend(c: char, pieces: seq<string>)
    requires pieces != [] && c != '\n'
    ensures Prepend(c, Returned(pieces)) == Returned(Prepend(c, pieces))
  {
    assert Returned(pieces) != [];
    hide Prepend, Returned;
    var a, b := Prepend(c, Returned(pieces)), Returned(Prepend(c, pieces));
    FirstReturned(c, pieces);
    forall i | 1 <= i < |pieces| ensures a[i] == b[i] { OtherReturned(c, pieces, i); }
  }

  lemma FirstReturned(c: char, pieces: seq<string>)
    requires pieces != [] && c != '\n'
    ensures |Prepend(c, Returned(pieces))| == |Returned(Prepend(c, pieces))| == |pieces|
    ensures Prepend(c, Returned(pieces))[0] == Returned(Prepend(c, pieces))[0]
  {
    assert [c] + (pieces[0] + "\r") == ([c] + pieces[0]) + "\r";
  }

  lemma OtherReturned(c: char, pieces: seq<string>, i: nat)
    requires 1 <= i < |pieces| && c != '\n'
    ensures |Prepend(c, Returned(pieces))| == |Returned(Prepend(c, pieces))| == |pieces|
    ensures Prepend(c, Returned(pieces))[i] == Returned(Prepend(c, pieces))[i]
  {
    assert Returned(pieces)[1..][i - 1] == Returned(pieces)[i] && pieces[1..][i - 1] == pieces[i];
  }

  /** No newline has a carriage return before it yet. */
  predicate HasNoReturns(text: string) {
    var pieces := Split(text);
    forall i :: 0 <= i < |pieces| - 1 ==> pieces[i] == "" || Last(pieces[i]) != '\r'
  }

  /** Line ends of two characters change no line of a text, exactly if none has them already. */
  lemma ReturnsChangeNoLineIff(text: string)
    ensures Normalized(Split(WithReturns(text))) == Normalized(Split(text)) <==> HasNoReturns(text)
  {
    SplitWithReturns(text);
    var pieces := Split(text);
    var returned := Returned(pieces);
    hide Split, WithReturns;
    forall i | 0 <= i < |pieces|
      ensures NormalizeLine(returned[i]) == NormalizeLine(pieces[i])
          <==> (i < |pieces| - 1 ==> pieces[i] == "" || Last(pieces[i]) != '\r')
    {
      if i < |pieces| - 1 {
        assert Front(pieces[i] + "\r") == pieces[i];
      }
    }
    var a, b := Normalized(returned), Normalized(pieces);
    assert forall i :: 0 <= i < |pieces| ==> a[i] == NormalizeLine(returned[i]) && b[i] == NormalizeLine(pieces[i]);
    if HasNoReturns(text) {
      assert a == b;
    } else {
      var i :| 0 <= i < |pieces| - 1 && pieces[i] != "" && Last(pieces[i]) == '\r';
      assert a[i] != b[i];
    }
  }

  /** A log with "\r\n" at its line ends gives the same matches as with "\n", however both are cut. */
  lemma ReturnsAreInvisible(p: seq<Page>, q: seq<Page>, text: string, start: nat, isMatch: string -> bool,
                            limits: Limits, m: nat, n: nat, a: SearchResult, b: SearchResult, j: nat)
    requires Cuts(p, text) && Ends(p, start, isMatch, limits, m, Found(a)) && HasNoReturns(text)
    requires Cuts(q, WithReturns(text)) && Ends(q, start, isMatch, limits, n, Found(b))
    ensures |a.matches| == |b.matches|
    ensures j < |a.matches| ==> a.matches[j].line == b.matches[j].line && a.matches[j].before == b.matches[j].before
    ensures j < |a.matches| && m == |p| && n == |q| ==> a.matches[j].after == b.matches[j].after
  {
    ReturnsChangeNoLineIff(text);
    AgreesWithWholeText(p, text, start, isMatch, limits, m, a, j);
    AgreesWithWholeText(q, WithReturns(text), start, isMatch, limits, n, b, j);
    var s, t := LinesAt(Split(text), 0), LinesAt(Split(WithReturns(text)), 0);
    TextsOfPieces(Split(text));
    TextsOfPieces(Split(WithReturns(text)));
    assert s == t by {
      assert |s| == |t| && forall i :: 0 <= i < |s| ==> s[i].text == Texts(s)[i] == Texts(t)[i] == t[i].text;
    }
    hide Ends, Cuts, Split, Texts, LinesAt, Hits, WithReturns, MatchAt;
  }

  // ---------- Binary files ----------

  /** A search ends as binary exactly with the first page that is. */
  lemma BinaryContentIff(pages: seq<Page>, startOffset: nat, isMatch: string -> bool, limits: Limits, used: nat,
                         outcome: Outcome)
    requires Ends(pages, startOffset, isMatch, limits, used, outcome)
    ensures outcome.BinaryContent? <==> exists k :: 0 <= k < used && pages[k].binary
    ensures forall k :: 0 <= k < used - 1 ==> !pages[k].binary
    ensures pages != [] ==> used > 0
  {
    hide SearchLines, LinesOf, LastNonZero;
    forall k | 0 <= k < used - 1 ensures !pages[k].binary { assert GoesOn(pages, k, isMatch, limits); }
  }

  /** The page a search gets for an answer of `readTextRange`. */
  ghost function PageFor(answer: FileRange.RangeResult): Page
    requires Valid(answer.content)
  {
    Page(Decode(answer.content), answer.binary, answer.offset, answer.nextOffset, answer.totalBytes, answer.hasMore)
  }

  /** The search of a file whose first page is taken for binary is refused, whatever the file holds. */
  lemma BinaryFileIsRefused(
    data: seq<byte>, start: nat, maxBytes: nat, isLikelyBinary: seq<byte> -> bool, answer: FileRange.RangeResult,
    pages: seq<Page>, isMatch: string -> bool, limits: Limits, used: nat, outcome: Outcome)
    requires FileRange.MIN_RANGE_BYTES <= maxBytes <= FileRange.MAX_RANGE_BYTES && start < |data|
    requires answer
        == FileRange.PageOf(data, FileRange.RangeOptions(Some(start), Some(maxBytes)), isLikelyBinary)
    requires isLikelyBinary(data[answer.offset..answer.nextOffset])
    requires Valid(answer.content) && pages != [] && pages[0] == PageFor(answer)
    requires Ends(pages, start, isMatch, limits, used, outcome)
    ensures outcome == BinaryContent && used == 1
  {
    FileRange.PageShows(data, FileRange.RangeOptions(Some(start), Some(maxBytes)), isLikelyBinary);
    assert pages[0].binary;
    BinaryContentIff(pages, start, isMatch, limits, used, outcome);
    hide Ends, FileRange.PageOf;
  }
}
