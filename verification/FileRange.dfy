/** Byte-exact paging of a text file: `common/file-range.js`.
    A page is a window of the file whose two edges never cut a well-formed UTF-8 sequence. */
module FileRange {
  import opened Prelude
  import opened Utf8

  const MIN_RANGE_BYTES: nat := 4
  const DEFAULT_RANGE_BYTES: nat := 256 * 1024
  const MAX_RANGE_BYTES: nat := 1024 * 1024

  /** The caller's options; None stands for a value that is not a safe integer. */
  datatype RangeOptions = RangeOptions(offset: Option<int>, maxBytes: Option<int>)

  datatype NormalizedOptions = NormalizedOptions(offset: nat, maxBytes: nat)

  function NormalizeRangeOptions(options: RangeOptions): (n: NormalizedOptions)
    ensures MIN_RANGE_BYTES <= n.maxBytes <= MAX_RANGE_BYTES
    ensures options.maxBytes.Some? && MIN_RANGE_BYTES <= options.maxBytes.value <= MAX_RANGE_BYTES
            ==> n.maxBytes == options.maxBytes.value
    ensures options.offset.Some? && options.offset.value >= 0 ==> n.offset == options.offset.value
  {
    NormalizedOptions(
      if options.offset.Some? && options.offset.value >= 0 then options.offset.value else 0,
      if options.maxBytes.Some? && options.maxBytes.value > 0
      then Max(MIN_RANGE_BYTES, Min(options.maxBytes.value, MAX_RANGE_BYTES))
      else DEFAULT_RANGE_BYTES)
  }

  /** A page size is cut to 4 bytes to 1 MiB and is 256 KiB by default; an offset is 0 by default. */
  lemma RangeOptionsIff(options: RangeOptions)
    ensures var n := NormalizeRangeOptions(options);
            && n.maxBytes == (match options.maxBytes
                              case Some(v) => if v <= 0 then 262144 else Max(4, Min(v, 1048576))
                              case None => 262144)
            && n.offset == (match options.offset case Some(v) => Max(0, v) case None => 0)
  {
  }

  // ---------- The start of a page ----------

  /** The first character position at or after `k`: past the sequence that lies across `k`, else `k`. */
  ghost function SafeStart(s: seq<byte>, k: nat): (start: nat)
    requires k <= |s|
    ensures k <= start <= k + 3 && start <= |s| && Boundary(s, start)
    ensures Boundary(s, k) ==> start == k
    ensures forall i, n :: CharAt(s, i, n) && i < k < i + n ==> start == i + n
  {
    if Boundary(s, k) then k
    else
      var i, n :| CharAt(s, i, n) && i < k < i + n;
      OneCover(s, i, n, k);
      i + n
  }

  lemma OneCover(s: seq<byte>, i: int, n: int, k: int)
    requires CharAt(s, i, n) && i < k < i + n
    ensures forall j, m :: CharAt(s, j, m) && j < k < j + m ==> j + m == i + n
    ensures Boundary(s, i + n)
  {
    CharStartIsBoundary(s, i, n);
    CharShape(s, i, n);
    forall j, m | CharAt(s, j, m) && j < k < j + m ensures j + m == i + n {
      CharShape(s, j, m);
      if j < i { CharsDisjoint(s, j, m, i, n); }
      if i < j { CharsDisjoint(s, i, n, j, m); }
    }
  }

  method FindSafeStart(buffer: seq<byte>, requestedIndex: nat) returns (start: nat)
    ensures requestedIndex >= |buffer| ==> start == |buffer|
    ensures requestedIndex < |buffer| ==> start == SafeStart(buffer, requestedIndex)
  {
    if requestedIndex >= |buffer| {
      return |buffer|;
    }
    if !IsContinuation(buffer[requestedIndex]) {
      NoCoverAtLead(buffer, requestedIndex);
      return requestedIndex;
    }
    var contextStart := Max(0, requestedIndex - 3);
    for candidate := contextStart to requestedIndex
      invariant forall i, n :: CharAt(buffer, i, n) && i < candidate ==> i + n <= requestedIndex
    {
      var sequenceLength := LeadLength(buffer[candidate]);
      var sequenceEnd := candidate + sequenceLength;
      if sequenceLength > 1 && sequenceEnd > requestedIndex
         && IsValidUtf8Sequence(buffer, candidate, sequenceLength) {
        return sequenceEnd;
      }
      forall n | CharAt(buffer, candidate, n) ensures candidate + n <= requestedIndex {
        CharShape(buffer, candidate, n);
      }
    }
    return requestedIndex;
  }

  /** Decoding and re-encoding `length` bytes gives them back exactly when they are well formed;
      after a lead byte that announces `length` bytes that means one well-formed sequence. */
  predicate IsValidUtf8Sequence(buffer: seq<byte>, start: nat, length: nat) {
    CharAt(buffer, start, length)
  }

  lemma NoCoverAtLead(s: seq<byte>, k: nat)
    requires k < |s| && !IsContinuation(s[k])
    ensures Boundary(s, k)
  {
    forall i, n | CharAt(s, i, n) ensures k <= i || i + n <= k {
      CharShape(s, i, n);
    }
  }

  // ---------- The end of a page ----------

  /** One step of the scan from `cursor`: the next cursor, or `cursor` itself to stop. */
  function NextCursor(buffer: seq<byte>, cursor: nat, byteLimit: nat, atFileEnd: bool): nat
    requires cursor < |buffer|
  {
    var sequenceLength := LeadLength(buffer[cursor]);
    var sequenceEnd := cursor + sequenceLength;
    if sequenceLength == 1 then cursor + 1
    else if sequenceEnd > |buffer| then (if atFileEnd then cursor + 1 else cursor)
    else if forall k :: cursor < k < sequenceEnd ==> IsContinuation(buffer[k]) then
      (if sequenceEnd > byteLimit then cursor else sequenceEnd)
    else cursor + 1
  }

  /** Where the scan from `cursor` stops. */
  function ContentEnd(buffer: seq<byte>, cursor: nat, byteLimit: nat, atFileEnd: bool): (end: nat)
    ensures cursor <= end <= Max(cursor, |buffer|)
    decreases |buffer| - cursor
  {
    if cursor < |buffer| && cursor < byteLimit then
      var next := NextCursor(buffer, cursor, byteLimit, atFileEnd);
      if next <= cursor then cursor else ContentEnd(buffer, next, byteLimit, atFileEnd)
    else cursor
  }

  method FindContentEnd(buffer: seq<byte>, start: nat, byteLimit: nat, atFileEnd: bool) returns (cursor: nat)
    ensures cursor == ContentEnd(buffer, start, byteLimit, atFileEnd)
  {
    cursor := start;
    while cursor < |buffer| && cursor < byteLimit
      invariant ContentEnd(buffer, cursor, byteLimit, atFileEnd) == ContentEnd(buffer, start, byteLimit, atFileEnd)
      decreases |buffer| - cursor
    {
      var sequenceLength := LeadLength(buffer[cursor]);
      if sequenceLength == 1 {
        cursor := cursor + 1;
        continue;
      }
      var sequenceEnd := cursor + sequenceLength;
      if sequenceEnd > |buffer| {
        if atFileEnd {
          cursor := cursor + 1;
          continue;
        }
        break;
      }
      if forall k :: cursor < k < sequenceEnd ==> IsContinuation(buffer[k]) {
        if sequenceEnd > byteLimit {
          break;
        }
        cursor := sequenceEnd;
      } else {
        cursor := cursor + 1;
      }
    }
  }

  lemma NextCursorIsBoundary(
    data: seq<byte>, base: nat, buffer: seq<byte>, cursor: nat, byteLimit: nat, atFileEnd: bool)
    requires base + |buffer| <= |data| && buffer == data[base..base + |buffer|]
    requires atFileEnd <==> base + |buffer| == |data|
    requires cursor < byteLimit <= |buffer|
    requires Boundary(data, base + cursor)
    ensures Boundary(data, base + NextCursor(buffer, cursor, byteLimit, atFileEnd))
  {
    var next := NextCursor(buffer, cursor, byteLimit, atFileEnd);
    assert forall k :: 0 <= k < |buffer| ==> buffer[k] == data[base + k];
    forall i, n | CharAt(data, i, n) ensures base + next <= i || i + n <= base + next {
      CharShape(data, i, n);
      assert base + cursor <= i < base + |buffer| ==> buffer[i - base] == data[i];
    }
  }

  /** The scan over a window of the file stops at a boundary of the whole file, never past the
      limit, and never more than three bytes short of it unless the file ends there. */
  lemma {:induction false} ContentEndProperties(
    data: seq<byte>, base: nat, buffer: seq<byte>, cursor: nat, byteLimit: nat, atFileEnd: bool)
    requires base + |buffer| <= |data| && buffer == data[base..base + |buffer|]
    requires atFileEnd <==> base + |buffer| == |data|
    requires cursor <= byteLimit <= |buffer| && (atFileEnd || byteLimit < |buffer|)
    requires Boundary(data, base + cursor)
    ensures var end := ContentEnd(buffer, cursor, byteLimit, atFileEnd);
            && cursor <= end <= byteLimit
            && Boundary(data, base + end)
            && byteLimit - 3 <= end
            && (byteLimit == |buffer| ==> end == byteLimit)
    decreases |buffer| - cursor
  {
    if cursor < byteLimit {
      var next := NextCursor(buffer, cursor, byteLimit, atFileEnd);
      if cursor < next {
        NextCursorIsBoundary(data, base, buffer, cursor, byteLimit, atFileEnd);
        ContentEndProperties(data, base, buffer, next, byteLimit, atFileEnd);
      }
    }
  }

  // ---------- One page ----------

  /** The page result; `content` holds the bytes before they are decoded to text. */
  datatype RangeResult = RangeResult(
    content: seq<byte>, binary: bool, offset: nat, nextOffset: nat,
    totalBytes: nat, bytesRead: nat, hasMore: bool)

  /** What a reader answers during one call: its size, the bytes of a read, and its size after a short read. */
  datatype Reader = Reader(size: int, read: (nat, nat) -> seq<byte>, sizeAfterRead: int)

  /** The reader answers for a file that keeps its contents. */
  ghost predicate Serves(reader: Reader, data: seq<byte>) {
    && reader.size == reader.sizeAfterRead == |data|
    && forall offset: nat, length: nat :: offset + length <= |data| ==>
        reader.read(offset, length) == data[offset..offset + length]
  }

  /** Where the bytes read for a request begin: up to three bytes of context before it. */
  function ReadOffset(offset: nat): nat {
    offset - Min(3, offset)
  }

  /** Where the bytes read for a request end. */
  function ReadEnd(data: seq<byte>, offset: nat, maxBytes: nat): nat {
    Min(|data|, ReadOffset(offset) + maxBytes + 4)
  }

  /** Where the page requested at `offset` ends. */
  ghost function PageEnd(data: seq<byte>, offset: nat, maxBytes: nat): nat
    requires offset < |data|
  {
    var base := ReadOffset(offset);
    var top := ReadEnd(data, offset, maxBytes);
    base + ContentEnd(data[base..top], SafeStart(data, offset) - base, Min(top, offset + maxBytes) - base,
                      top == |data|)
  }

  /** The page of a fixed file: its content runs from the first boundary at or after the request. */
  ghost function PageOf(data: seq<byte>, options: RangeOptions, isLikelyBinary: seq<byte> -> bool): RangeResult {
    var n := NormalizeRangeOptions(options);
    if n.offset >= |data| then RangeResult([], false, |data|, |data|, |data|, 0, false)
    else PageAt(data, n.offset, n.maxBytes, isLikelyBinary)
  }

  ghost function PageAt(data: seq<byte>, offset: nat, maxBytes: nat, isLikelyBinary: seq<byte> -> bool): RangeResult
    requires offset < |data| && MIN_RANGE_BYTES <= maxBytes
  {
    var start, end := SafeStart(data, offset), PageEnd(data, offset, maxBytes);
    PageProperties(data, offset, maxBytes);
    var binary := isLikelyBinary(data[start..end]);
    RangeResult(if binary then [] else data[start..end], binary, start, end, |data|, end - start, end < |data|)
  }

  lemma PageAtEnd(data: seq<byte>, options: RangeOptions, isLikelyBinary: seq<byte> -> bool)
    requires NormalizeRangeOptions(options).offset >= |data|
    ensures PageOf(data, options, isLikelyBinary) == RangeResult([], false, |data|, |data|, |data|, 0, false)
  {
  }

  /** Both edges of a page are boundaries of the file, the page stays within `maxBytes` of the
      requested offset, and unless the file ends it comes within three bytes of that. */
  lemma PageProperties(data: seq<byte>, offset: nat, maxBytes: nat)
    requires offset < |data| && MIN_RANGE_BYTES <= maxBytes
    ensures var end := PageEnd(data, offset, maxBytes);
            && offset <= SafeStart(data, offset) <= end <= |data|
            && offset < end <= offset + maxBytes
            && Boundary(data, end)
            && (end < |data| ==> offset + maxBytes - 3 <= end)
            && (offset + maxBytes >= |data| ==> end == |data|)
  {
    hide Boundary, CharAt, ContentEnd, SafeStart;
    var base := ReadOffset(offset);
    var top := ReadEnd(data, offset, maxBytes);
    ContentEndProperties(data, base, data[base..top], SafeStart(data, offset) - base,
                         Min(top, offset + maxBytes) - base, top == |data|);
  }

  /** The bytes read hold every sequence that can lie across the requested offset. */
  lemma SafeStartOfWindow(data: seq<byte>, base: nat, top: nat, k: nat)
    requires base <= k < top <= |data|
    requires base == 0 || base + 3 <= k
    requires top == |data| || k + 3 <= top
    ensures SafeStart(data[base..top], k - base) + base == SafeStart(data, k)
  {
    var buffer := data[base..top];
    forall i, n | base <= i && i + n <= top ensures CharAt(buffer, i - base, n) == CharAt(data, i, n) {
      if 1 <= n <= 4 {
        var c := data[i..i + n];
        assert buffer[i - base..i - base + n] == c by {
          assert forall k :: 0 <= k < n ==> buffer[i - base + k] == c[k];
        }
      }
    }
    if !Boundary(data, k) {
      var i, n :| CharAt(data, i, n) && i < k < i + n;
      assert CharAt(buffer, i - base, n);
    } else {
      forall j, m | CharAt(buffer, j, m) ensures k - base <= j || j + m <= k - base {
        assert CharAt(data, j + base, m);
      }
    }
  }

  /** What the scans find in the bytes read for a request are the edges of the page of the file. */
  lemma EdgesFromBytesRead(data: seq<byte>, offset: nat, maxBytes: nat)
    requires offset < |data| && MIN_RANGE_BYTES <= maxBytes
    ensures var base, top := ReadOffset(offset), ReadEnd(data, offset, maxBytes);
            base <= offset < top <= |data| &&
            var buffer := data[base..top];
            var start := SafeStart(buffer, offset - base);
            && base + start == SafeStart(data, offset)
            && base + ContentEnd(buffer, start, Min(|buffer|, offset - base + maxBytes), base + |buffer| >= |data|)
               == PageEnd(data, offset, maxBytes)
  {
    hide Boundary, CharAt, ContentEnd, SafeStart;
    var base, top := ReadOffset(offset), ReadEnd(data, offset, maxBytes);
    SafeStartOfWindow(data, base, top, offset);
    assert Min(top - base, offset - base + maxBytes) == Min(top, offset + maxBytes) - base;
  }

  /** What the scans find in the bytes read at `readOffset`. */
  ghost function CutOf(buffer: seq<byte>, readOffset: nat, contextBytes: nat, maxBytes: nat, totalBytes: nat,
                       isLikelyBinary: seq<byte> -> bool): RangeResult
    requires contextBytes < |buffer|
  {
    var start := SafeStart(buffer, contextBytes);
    var end := ContentEnd(buffer, start, Min(|buffer|, contextBytes + maxBytes), readOffset + |buffer| >= totalBytes);
    var content := buffer[start..end];
    var binary := isLikelyBinary(content);
    RangeResult(if binary then [] else content, binary, readOffset + start, readOffset + end,
                totalBytes, end - start, readOffset + end < totalBytes)
  }

  lemma PageFromBytesRead(data: seq<byte>, offset: nat, maxBytes: nat, isLikelyBinary: seq<byte> -> bool)
    requires offset < |data| && MIN_RANGE_BYTES <= maxBytes
    ensures var base, top := ReadOffset(offset), ReadEnd(data, offset, maxBytes);
            && base <= offset < top <= |data|
            && PageAt(data, offset, maxBytes, isLikelyBinary)
               == CutOf(data[base..top], base, offset - base, maxBytes, |data|, isLikelyBinary)
  {
    hide Boundary, CharAt, ContentEnd, SafeStart, PageEnd, ReadOffset, ReadEnd;
    EdgesFromBytesRead(data, offset, maxBytes);
    PageProperties(data, offset, maxBytes);
    SliceOfSlice(data, ReadOffset(offset), ReadEnd(data, offset, maxBytes), SafeStart(data, offset),
                 PageEnd(data, offset, maxBytes));
  }

  lemma SliceOfSlice(data: seq<byte>, base: nat, top: nat, start: nat, end: nat)
    requires base <= start <= end <= top <= |data|
    ensures data[base..top][start - base..end - base] == data[start..end]
  {
    var a, b := data[base..top][start - base..end - base], data[start..end];
    assert |a| == |b| && forall k :: 0 <= k < |a| ==> a[k] == data[start + k] == b[k];
  }

  /** If the reader answers for a fixed file, `r` is the page of that file. */
  ghost predicate IsPage(reader: Reader, options: RangeOptions, isLikelyBinary: seq<byte> -> bool, r: RangeResult) {
    forall data :: Serves(reader, data) ==> r == PageOf(data, options, isLikelyBinary)
  }

  lemma IsPageShows(reader: Reader, options: RangeOptions, isLikelyBinary: seq<byte> -> bool)
    ensures forall r :: IsPage(reader, options, isLikelyBinary, r) ==>
              var n := NormalizeRangeOptions(options);
              forall data :: Serves(reader, data) ==> Shows(data, n.offset, n.maxBytes, isLikelyBinary, r)
  {
    hide Shows, PageOf, NormalizeRangeOptions;
    forall data { PageShows(data, options, isLikelyBinary); }
  }

  lemma EndIsPage(reader: Reader, options: RangeOptions, isLikelyBinary: seq<byte> -> bool)
    requires reader.size <= NormalizeRangeOptions(options).offset
    ensures var n := Max(0, reader.size);
            IsPage(reader, options, isLikelyBinary, RangeResult([], false, n, n, n, 0, false))
  {
    forall data | Serves(reader, data) { PageAtEnd(data, options, isLikelyBinary); }
  }

  /** A fixed file answers with exactly as many bytes as were asked for. */
  lemma OtherReadIsPage(reader: Reader, options: RangeOptions, isLikelyBinary: seq<byte> -> bool,
                        offset: nat, length: nat, r: RangeResult)
    requires offset + length <= reader.size && |reader.read(offset, length)| != length
    ensures IsPage(reader, options, isLikelyBinary, r)
  {
    forall data ensures !Serves(reader, data) {
      if offset + length <= |data| {
        assert |data[offset..offset + length]| == length;
      }
    }
  }

  lemma FullReadIsPage(reader: Reader, options: RangeOptions, isLikelyBinary: seq<byte> -> bool, r: RangeResult)
    requires NormalizeRangeOptions(options).offset < reader.size
    requires var n := NormalizeRangeOptions(options);
             var base := ReadOffset(n.offset);
             var length := Min(reader.size - base, n.maxBytes + 4);
             var buffer := reader.read(base, length);
             |buffer| == length && n.offset - base < length &&
             r == CutOf(buffer, base, n.offset - base, n.maxBytes, reader.size, isLikelyBinary)
    ensures IsPage(reader, options, isLikelyBinary, r)
  {
    hide CutOf, PageAt, NormalizeRangeOptions;
    var n := NormalizeRangeOptions(options);
    forall data | Serves(reader, data) ensures r == PageOf(data, options, isLikelyBinary) {
      PageFromBytesRead(data, n.offset, n.maxBytes, isLikelyBinary);
    }
  }

  /** What an answer says about a file: where it begins and ends, and that it shows the bytes between
      exactly unless they look binary. */
  ghost predicate Shows(data: seq<byte>, offset: nat, maxBytes: nat, isLikelyBinary: seq<byte> -> bool,
                        r: RangeResult)
    requires MIN_RANGE_BYTES <= maxBytes
  {
    && r.totalBytes == |data| && r.bytesRead == r.nextOffset - r.offset && (r.hasMore <==> r.nextOffset < |data|)
    && (offset >= |data| ==> r.offset == r.nextOffset == |data| && r.content == [] && !r.binary)
    && (offset < |data| ==>
          && r.offset == SafeStart(data, offset) && r.nextOffset == PageEnd(data, offset, maxBytes)
          && offset <= r.offset <= r.nextOffset <= |data|
          && (r.binary <==> isLikelyBinary(data[r.offset..r.nextOffset]))
          && r.content == if r.binary then [] else data[r.offset..r.nextOffset])
  }

  lemma PageShows(data: seq<byte>, options: RangeOptions, isLikelyBinary: seq<byte> -> bool)
    ensures var n := NormalizeRangeOptions(options);
            Shows(data, n.offset, n.maxBytes, isLikelyBinary, PageOf(data, options, isLikelyBinary))
  {
    hide SafeStart, PageEnd, NormalizeRangeOptions, Boundary;
    var n := NormalizeRangeOptions(options);
    if n.offset < |data| { PageProperties(data, n.offset, n.maxBytes); }
  }

  /** The total an answer states for a file that is shorter than it was when the read began: what is left of it. */
  predicate CountsShortRead(reader: Reader, offset: nat, maxBytes: nat, totalBytes: nat) {
    var base := ReadOffset(offset);
    offset < reader.size ==>
      var length := Min(reader.size - base, maxBytes + 4);
      var got := |reader.read(base, length)|;
      && (got == 0 ==> totalBytes == Max(0, reader.sizeAfterRead))
      && (0 < got < length ==>
            totalBytes == if reader.sizeAfterRead > reader.size then base + got
                else Max(reader.sizeAfterRead, base + got))
      && (got >= length ==> totalBytes == reader.size)
  }

  lemma CountsAtEnd(reader: Reader, offset: nat, maxBytes: nat, totalBytes: nat)
    requires reader.size <= offset
    ensures CountsShortRead(reader, offset, maxBytes, totalBytes)
  {
  }

  lemma CountsRead(reader: Reader, offset: nat, maxBytes: nat, got: nat)
    requires offset < reader.size && got == |reader.read(ReadOffset(offset), Min(reader.size - ReadOffset(offset),
                                                                                 maxBytes + 4))|
    ensures var base, length := ReadOffset(offset), Min(reader.size - ReadOffset(offset), maxBytes + 4);
            var after := if reader.sizeAfterRead > reader.size then base + got
                         else Max(reader.sizeAfterRead, base + got);
            && (got == 0 ==> CountsShortRead(reader, offset, maxBytes, Max(0, reader.sizeAfterRead)))
            && (0 < got < length ==> CountsShortRead(reader, offset, maxBytes, after))
            && (0 < length <= got ==> CountsShortRead(reader, offset, maxBytes, reader.size))
  {
  }

  method ReadTextRange(reader: Reader, options: RangeOptions, isLikelyBinary: seq<byte> -> bool)
    returns (r: RangeResult)
    ensures r.offset <= r.nextOffset && r.bytesRead == r.nextOffset - r.offset
    ensures r.hasMore ==> r.nextOffset < r.totalBytes
    ensures r.binary ==> r.content == []
    ensures IsPage(reader, options, isLikelyBinary, r)
    ensures var n := NormalizeRangeOptions(options);
            && (forall data :: Serves(reader, data) ==> Shows(data, n.offset, n.maxBytes, isLikelyBinary, r))
            && CountsShortRead(reader, n.offset, n.maxBytes, r.totalBytes)
  {
    hide Shows, CountsShortRead;
    IsPageShows(reader, options, isLikelyBinary);
    hide Boundary, CharAt, ContentEnd, SafeStart, PageOf, NormalizeRangeOptions, IsPage, CutOf;
    var normalized := NormalizeRangeOptions(options);
    var totalBytes := Max(0, reader.size);
    var requestedOffset := Min(normalized.offset, totalBytes);
    if requestedOffset == totalBytes {
      EndIsPage(reader, options, isLikelyBinary);
      CountsAtEnd(reader, normalized.offset, normalized.maxBytes, totalBytes);
      return RangeResult([], false, requestedOffset, requestedOffset, totalBytes, 0, false);
    }
    var contextBytes := Min(3, requestedOffset);
    var readOffset := requestedOffset - contextBytes;
    var readLength := Min(totalBytes - readOffset, normalized.maxBytes + 4);
    var buffer := reader.read(readOffset, readLength);
    CountsRead(reader, normalized.offset, normalized.maxBytes, |buffer|);
    if |buffer| == 0 {
      var currentTotalBytes := Max(0, reader.sizeAfterRead);
      var currentOffset := Min(requestedOffset, currentTotalBytes);
      r := RangeResult([], false, currentOffset, currentOffset, currentTotalBytes, 0, false);
      OtherReadIsPage(reader, options, isLikelyBinary, readOffset, readLength, r);
      return;
    }
    if |buffer| < readLength {
      var currentTotalBytes := Max(0, reader.sizeAfterRead);
      var observedEnd := readOffset + |buffer|;
      totalBytes := if currentTotalBytes <= totalBytes then Max(currentTotalBytes, observedEnd) else observedEnd;
      if requestedOffset >= totalBytes {
        r := RangeResult([], false, totalBytes, totalBytes, totalBytes, 0, false);
        OtherReadIsPage(reader, options, isLikelyBinary, readOffset, readLength, r);
        return;
      }
    }
    r := CutPage(buffer, readOffset, contextBytes, normalized.maxBytes, totalBytes, isLikelyBinary);
    if |buffer| == readLength {
      FullReadIsPage(reader, options, isLikelyBinary, r);
    } else {
      OtherReadIsPage(reader, options, isLikelyBinary, readOffset, readLength, r);
    }
  }

  /** The last step of a read: cuts the page out of the bytes read at `readOffset`. */
  method CutPage(buffer: seq<byte>, readOffset: nat, contextBytes: nat, maxBytes: nat, totalBytes: nat,
                 isLikelyBinary: seq<byte> -> bool)
    returns (r: RangeResult)
    ensures r.offset <= r.nextOffset && r.bytesRead == r.nextOffset - r.offset
    ensures r.hasMore <==> r.nextOffset < r.totalBytes
    ensures r.binary ==> r.content == []
    ensures r.totalBytes == totalBytes
    ensures contextBytes < |buffer| ==> r == CutOf(buffer, readOffset, contextBytes, maxBytes, totalBytes,
                                                   isLikelyBinary)
  {
    hide Boundary, CharAt, ContentEnd, SafeStart;
    var requestedIndex := Min(contextBytes, |buffer|);
    var byteLimit := Min(|buffer|, requestedIndex + maxBytes);
    var start := FindSafeStart(buffer, requestedIndex);
    var end := FindContentEnd(buffer, start, byteLimit, readOffset + |buffer| >= totalBytes);
    var contentBuffer := buffer[start..end];
    var binary := isLikelyBinary(contentBuffer);
    var offset := readOffset + start;
    var nextOffset := readOffset + end;
    r := RangeResult(if binary then [] else contentBuffer, binary, offset, nextOffset,
                     totalBytes, nextOffset - offset, nextOffset < totalBytes);
  }

  // ---------- Paging through a file ----------

  /** The pages read from `offset` on, each request starting where the last page ended. */
  ghost function Pages(data: seq<byte>, offset: nat, maxBytes: nat): (pages: seq<(nat, nat)>)
    requires offset <= |data| && MIN_RANGE_BYTES <= maxBytes
    decreases |data| - offset
  {
    if offset == |data| then []
    else
      PageProperties(data, offset, maxBytes);
      var end := PageEnd(data, offset, maxBytes);
      [(SafeStart(data, offset), end)] + Pages(data, end, maxBytes)
  }

  ghost predicate PageFits(data: seq<byte>, page: (nat, nat), maxBytes: nat) {
    && page.0 <= page.1 <= |data|
    && page.1 - page.0 <= maxBytes
    && Boundary(data, page.0) && Boundary(data, page.1)
  }

  /** The bytes of the pages, one after another. */
  ghost function Contents(data: seq<byte>, pages: seq<(nat, nat)>): seq<byte>
    requires forall p :: p in pages ==> p.0 <= p.1 <= |data|
  {
    if pages == [] then [] else data[pages[0].0..pages[0].1] + Contents(data, pages[1..])
  }

  /** From any offset the pages fit, are contiguous, and together hold every byte from the first
      boundary to the end of the file; from a boundary each page but the last holds at least
      `maxBytes - 3` bytes. The file may hold any bytes. */
  lemma PagesTileTheFile(data: seq<byte>, offset: nat, maxBytes: nat)
    requires offset <= |data| && MIN_RANGE_BYTES <= maxBytes
    ensures var pages := Pages(data, offset, maxBytes);
            && (forall p :: p in pages ==> PageFits(data, p, maxBytes))
            && Contents(data, pages) == data[SafeStart(data, offset)..]
            && (pages != [] ==> pages[0].0 == SafeStart(data, offset) && pages[|pages| - 1].1 == |data|)
            && (forall k :: 0 <= k < |pages| - 1 ==> pages[k].1 == pages[k + 1].0)
            && (Boundary(data, offset) ==> forall k :: 0 <= k < |pages| - 1 ==> pages[k].0 + maxBytes <= pages[k].1 + 3)
  {
    hide Pages, Contents, SafeStart, Boundary;
    PagesFit(data, offset, maxBytes);
    PagesHoldEveryByte(data, offset, maxBytes);
    PagesAreContiguous(data, offset, maxBytes);
  }

  lemma {:induction false} PagesFit(data: seq<byte>, offset: nat, maxBytes: nat)
    requires offset <= |data| && MIN_RANGE_BYTES <= maxBytes
    ensures forall p :: p in Pages(data, offset, maxBytes) ==> p.0 <= p.1 <= |data| && PageFits(data, p, maxBytes)
    decreases |data| - offset
  {
    hide Boundary, SafeStart, PageEnd;
    if offset < |data| {
      PageProperties(data, offset, maxBytes);
      PagesFit(data, PageEnd(data, offset, maxBytes), maxBytes);
    }
  }

  lemma {:induction false} PagesHoldEveryByte(data: seq<byte>, offset: nat, maxBytes: nat)
    requires offset <= |data| && MIN_RANGE_BYTES <= maxBytes
    ensures forall p :: p in Pages(data, offset, maxBytes) ==> p.0 <= p.1 <= |data|
    ensures Contents(data, Pages(data, offset, maxBytes)) == data[SafeStart(data, offset)..]
    decreases |data| - offset
  {
    hide Boundary, SafeStart, PageEnd;
    PagesFit(data, offset, maxBytes);
    if offset < |data| {
      PageProperties(data, offset, maxBytes);
      var start, end := SafeStart(data, offset), PageEnd(data, offset, maxBytes);
      PagesHoldEveryByte(data, end, maxBytes);
      assert Pages(data, offset, maxBytes)[1..] == Pages(data, end, maxBytes);
      assert data[start..end] + data[end..] == data[start..];
    }
  }

  lemma {:induction false} PagesAreContiguous(data: seq<byte>, offset: nat, maxBytes: nat)
    requires offset <= |data| && MIN_RANGE_BYTES <= maxBytes
    ensures var pages := Pages(data, offset, maxBytes);
            && (pages != [] ==> pages[0].0 == SafeStart(data, offset) && pages[|pages| - 1].1 == |data|)
            && (forall k :: 0 <= k < |pages| - 1 ==> pages[k].1 == pages[k + 1].0)
            && (Boundary(data, offset) ==> forall k :: 0 <= k < |pages| - 1 ==> pages[k].0 + maxBytes <= pages[k].1 + 3)
    decreases |data| - offset
  {
    hide Boundary, SafeStart, PageEnd;
    if offset < |data| {
      var end := PageEnd(data, offset, maxBytes);
      PageProperties(data, offset, maxBytes);
      PagesAreContiguous(data, end, maxBytes);
      var rest := Pages(data, end, maxBytes);
      assert Pages(data, offset, maxBytes) == [(SafeStart(data, offset), end)] + rest;
      assert rest != [] ==> rest[0].0 == end by { if end < |data| { SafeStartAtEdge(data, end); } }
      hide Pages;
    }
  }

  lemma SafeStartAtEdge(data: seq<byte>, k: nat)
    requires k <= |data| && Boundary(data, k)
    ensures SafeStart(data, k) == k
  {
  }

  /** Every page of a well-formed file read from the start is well formed, and the page texts
      joined together are the text of the file. */
  lemma {:induction false} PagesOfValidFile(data: seq<byte>, offset: nat, maxBytes: nat)
    requires offset <= |data| && MIN_RANGE_BYTES <= maxBytes
    requires ValidFrom(data, offset) && Boundary(data, offset)
    ensures forall p :: p in Pages(data, offset, maxBytes) ==> p.0 <= p.1 <= |data| && Valid(data[p.0..p.1])
    ensures Valid(data[offset..])
    ensures JoinedText(data, Pages(data, offset, maxBytes)) == Decode(data[offset..])
    decreases |data| - offset
  {
    hide CharAt, ValidFrom, SafeStart, PageEnd;
    EdgesAreBoundaries(data);
    ValidSlice(data, offset, |data|);
    assert data[offset..] == data[offset..|data|];
    if offset < |data| {
      hide Decode, Boundary;
      PageProperties(data, offset, maxBytes);
      var end := PageEnd(data, offset, maxBytes);
      ValidAtBoundary(data, offset, end);
      ValidSlice(data, offset, end);
      PagesOfValidFile(data, end, maxBytes);
      DecodeConcat(data[offset..end], data[end..]);
      assert data[offset..end] + data[end..] == data[offset..];
      assert Pages(data, offset, maxBytes)[1..] == Pages(data, end, maxBytes);
    }
  }

  ghost function JoinedText(data: seq<byte>, pages: seq<(nat, nat)>): string
    requires forall p :: p in pages ==> p.0 <= p.1 <= |data| && Valid(data[p.0..p.1])
  {
    if pages == [] then "" else Decode(data[pages[0].0..pages[0].1]) + JoinedText(data, pages[1..])
  }

  // ---------- Pages without bytes ----------

  /** The byte at `at` announces a sequence that ends after `limit`, as far as the bytes before `top` tell. */
  predicate AnnouncesPast(data: seq<byte>, at: nat, limit: nat, top: nat)
    requires at < |data|
  {
    var end := at + LeadLength(data[at]);
    && LeadLength(data[at]) > 1 && end > limit
    && (if end > top then top < |data| else forall k :: at < k < end ==> k < |data| && IsContinuation(data[k]))
  }

  /** The page requested at `offset` holds no bytes although more follow. */
  ghost predicate IsEmptyWithMore(data: seq<byte>, offset: nat, maxBytes: nat)
    requires offset < |data|
  {
    PageEnd(data, offset, maxBytes) == SafeStart(data, offset) < |data|
  }

  /** That happens exactly if what stands at the first boundary announces a sequence that does not end
      within `maxBytes` of the request; never from seven bytes on, and never for a request at a boundary. */
  lemma EmptyPageIff(data: seq<byte>, offset: nat, maxBytes: nat)
    requires offset < |data| && MIN_RANGE_BYTES <= maxBytes
    ensures var start := SafeStart(data, offset);
            IsEmptyWithMore(data, offset, maxBytes) <==>
              start < |data| && AnnouncesPast(data, start, offset + maxBytes, ReadEnd(data, offset, maxBytes))
    ensures IsEmptyWithMore(data, offset, maxBytes) ==> maxBytes < 7 && !Boundary(data, offset)
  {
    hide Boundary, CharAt, SafeStart, ContentEnd, NextCursor, AnnouncesPast;
    PageProperties(data, offset, maxBytes);
    var base, top, start := ReadOffset(offset), ReadEnd(data, offset, maxBytes), SafeStart(data, offset);
    if start < |data| {
      var limit := Min(top, offset + maxBytes) - base;
      FirstStep(data[base..top], start - base, limit, top == |data|);
      StaysIff(data, base, top, start, offset + maxBytes);
      if AnnouncesPast(data, start, offset + maxBytes, top) { PastIsNear(data, start, offset + maxBytes, top); }
    }
  }

  /** The scan stays where it is exactly if its first step does. */
  lemma FirstStep(buffer: seq<byte>, cursor: nat, byteLimit: nat, atFileEnd: bool)
    requires cursor < |buffer| && cursor < byteLimit
    ensures ContentEnd(buffer, cursor, byteLimit, atFileEnd) == cursor <==>
        NextCursor(buffer, cursor, byteLimit, atFileEnd) == cursor
  {
  }

  lemma StaysIff(data: seq<byte>, base: nat, top: nat, at: nat, limit: nat)
    requires base <= at < top <= |data| && base <= limit && (limit < top || top == |data|)
    ensures NextCursor(data[base..top], at - base, Min(top, limit) - base, top == |data|) == at - base
            <==> AnnouncesPast(data, at, limit, top)
  {
    var buffer := data[base..top];
    var end := at + LeadLength(data[at]);
    assert buffer[at - base] == data[at];
    if end <= top {
      if forall k :: at < k < end ==> IsContinuation(data[k]) {
        assert forall k :: at - base < k < end - base ==> buffer[k] == data[base + k];
      } else {
        var k :| at < k < end && !IsContinuation(data[k]);
        assert buffer[k - base] == data[k];
      }
    }
  }

  lemma PastIsNear(data: seq<byte>, at: nat, limit: nat, top: nat)
    requires at < |data| && AnnouncesPast(data, at, limit, top)
    ensures limit < at + 4
  {
  }

  /** Such a request: inside a character of four bytes, before another one, with pages of four bytes. */
  lemma MidCharacterPageCanBeEmpty()
    ensures var data: seq<byte> := [0xF0, 0x9F, 0x98, 0x80, 0xF0, 0x9F, 0x98, 0x80];
            IsEmptyWithMore(data, 1, 4)
  {
    var data: seq<byte> := [0xF0, 0x9F, 0x98, 0x80, 0xF0, 0x9F, 0x98, 0x80];
    assert data[0..4] == [0xF0, 0x9F, 0x98, 0x80];
    assert CharAt(data, 0, 4);
    assert SafeStart(data, 1) == 4;
    EmptyPageIff(data, 1, 4);
  }
}
