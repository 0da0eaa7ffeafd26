/** The bounded collector of remote command output: `server/session-common.js`.
    One allocation holds the first bytes of the stream and, as a ring, the last bytes of the rest;
    the two collectors of a command share one budget. */
module OutputCollector {
  import opened Prelude
  import opened Utf8

  // ---------- Cutting at character edges ----------

  /** The position of the last byte that is not a continuation byte, or -1. */
  function LastLead(buffer: seq<byte>): (lead: int)
    ensures -1 <= lead < |buffer|
    ensures lead >= 0 ==> !IsContinuation(buffer[lead])
    ensures forall k :: lead < k < |buffer| ==> IsContinuation(buffer[k])
  {
    if buffer == [] then -1
    else if !IsContinuation(buffer[|buffer| - 1]) then |buffer| - 1
    else LastLead(buffer[..|buffer| - 1])
  }

  /** Where to cut off an unfinished last character. */
  function SafeEnd(buffer: seq<byte>): (end: nat)
    ensures end <= |buffer|
  {
    var lead := LastLead(buffer);
    if lead < 0 then 0 else if |buffer| - lead < LeadLength(buffer[lead]) then lead else |buffer|
  }

  /** The number of continuation bytes a buffer begins with. */
  function SafeStart(buffer: seq<byte>): (start: nat)
    ensures start <= |buffer|
    ensures start < |buffer| ==> !IsContinuation(buffer[start])
    ensures forall k :: 0 <= k < start ==> IsContinuation(buffer[k])
  {
    if buffer != [] && IsContinuation(buffer[0]) then 1 + SafeStart(buffer[1..]) else 0
  }

  method Utf8SafeEnd(buffer: seq<byte>) returns (end: nat)
    ensures end == SafeEnd(buffer)
  {
    if |buffer| == 0 { return 0; }
    var lead := |buffer| - 1;
    while lead >= 0 && IsContinuation(buffer[lead])
      invariant -1 <= lead < |buffer|
      invariant forall k :: lead < k < |buffer| ==> IsContinuation(buffer[k])
    {
      lead := lead - 1;
    }
    if lead < 0 { return 0; }
    var expected := LeadLength(buffer[lead]);
    end := if |buffer| - lead < expected then lead else |buffer|;
  }

  method Utf8SafeStart(buffer: seq<byte>) returns (start: nat)
    ensures start == SafeStart(buffer)
  {
    start := 0;
    while start < |buffer| && IsContinuation(buffer[start])
      invariant start <= |buffer|
      invariant forall k :: 0 <= k < start ==> IsContinuation(buffer[k])
    {
      start := start + 1;
    }
  }

  /** In a prefix of well-formed text the safe end is the last character edge, at most three bytes back. */
  lemma SafeEndIsLastBoundary(s: seq<byte>, k: nat)
    requires Valid(s) && k <= |s|
    ensures var end := SafeEnd(s[..k]);
            && Boundary(s, end)
            && k - 3 <= end <= k
            && forall j :: end < j <= k ==> !Boundary(s, j)
  {
    EdgesAreBoundaries(s);
    var p := s[..k];
    var lead := LastLead(p);
    if k > 0 {
      if lead < 0 {
        BoundaryIffNoContinuation(s, 0, 0);
      } else {
        BoundaryIffNoContinuation(s, 0, lead);
        ValidAtBoundary(s, 0, lead);
        var n := LeadLength(s[lead]);
        CharStartIsBoundary(s, lead, n);
        CharShape(s, lead, n);
        if lead + n < k {
          BoundaryIffNoContinuation(s, 0, lead + n);
        }
      }
    }
  }

  /** In a suffix of well-formed text the safe start is the first character edge, at most three bytes in. */
  lemma SafeStartIsFirstBoundary(s: seq<byte>, k: nat)
    requires Valid(s) && k <= |s|
    ensures var start := k + SafeStart(s[k..]);
            && Boundary(s, start)
            && k <= start <= k + 3
            && forall j :: k <= j < start ==> !Boundary(s, j)
  {
    EdgesAreBoundaries(s);
    var start := k + SafeStart(s[k..]);
    BoundaryIffNoContinuation(s, 0, start);
    forall j | k <= j < start ensures !Boundary(s, j) {
      assert s[j] == s[k..][j - k];
      BoundaryIffNoContinuation(s, 0, j);
    }
    StartNearCharacter(s, k, start);
  }

  /** A suffix of well-formed text ends whole, unless it holds no character at all. */
  lemma SafeEndOfSuffix(s: seq<byte>, k: nat)
    requires Valid(s) && k <= |s|
    ensures SafeEnd(s[k..]) == if SafeStart(s[k..]) == |s| - k then 0 else |s| - k
  {
    var t := s[k..];
    var lead := LastLead(t);
    if lead >= 0 {
      BoundaryIffNoContinuation(s, 0, k + lead);
      ValidAtBoundary(s, 0, k + lead);
      assert t[lead] == s[k + lead];
    }
  }

  lemma StartNearCharacter(s: seq<byte>, k: nat, start: nat)
    requires k <= start <= |s| && (forall j :: k <= j < start ==> !Boundary(s, j))
    ensures start <= k + 3
  {
    if k < start {
      assert !Boundary(s, k);
      var i, n :| CharAt(s, i, n) && i < k < i + n;
      CharStartIsBoundary(s, i, n);
    }
  }

  // ---------- The separator ----------

  function Ascii(text: string): (b: seq<byte>)
    requires forall i :: 0 <= i < |text| ==> text[i] as int < 0x80
    ensures |b| == |text| && forall k :: 0 <= k < |b| ==> b[k] <= 0x7F
  {
    seq(|text|, i requires 0 <= i < |text| => text[i] as int)
  }

  function Tildes(n: nat): (t: seq<byte>)
    ensures |t| == n
  {
    seq(n, _ => 0x7E)
  }

  /** The longest separator that fits the limit. */
  function OutputTruncationSeparator(limit: nat): (separator: seq<byte>)
    ensures |separator| <= limit && (limit > 0 ==> separator != [])
    ensures Valid(separator)
  {
    var s := if 31 <= limit then Ascii("\n[ShellPilot output truncated]\n")
             else if 7 <= limit then Ascii("\n[...]\n")
             else if 3 <= limit then Ascii("...")
             else Tildes(limit);
    AsciiIsValid(s, 0);
    s
  }

  // ---------- What a collector renders, as a function of the whole stream ----------

  /** What is kept of a stream: its first bytes and the last bytes of the rest. */
  function Head(stream: seq<byte>, limit: nat): seq<byte> {
    stream[..Min(|stream|, limit / 2)]
  }

  function Tail(stream: seq<byte>, limit: nat): (tail: seq<byte>)
    ensures |tail| <= |stream| && tail == stream[|stream| - |tail|..]
  {
    Last(stream[|Head(stream, limit)|..], limit - limit / 2)
  }

  /** The last `n` bytes of a sequence, or all of them. */
  function Last(s: seq<byte>, n: nat): (t: seq<byte>)
    ensures |t| == Min(|s|, n)
  {
    s[|s| - Min(|s|, n)..]
  }

  lemma LastOfLong(s: seq<byte>, source: seq<byte>, n: nat)
    requires n <= |source|
    ensures Last(s + source, n) == source[|source| - n..]
  {
  }

  lemma LastOfAppended(s: seq<byte>, more: seq<byte>, n: nat)
    ensures Last(Last(s, n) + more, n) == Last(s + more, n)
  {
  }

  /** How the head and the tail of a stream grow when `offset` more bytes go to the head. */
  lemma HeadAndTailGrow(stream: seq<byte>, source: seq<byte>, limit: nat, offset: nat)
    requires offset == Min(limit / 2 - |Head(stream, limit)|, |source|)
    ensures Head(stream + source, limit) == Head(stream, limit) + source[..offset]
    ensures Tail(stream + source, limit) == Last(Tail(stream, limit) + source[offset..], limit - limit / 2)
  {
    HeadGrows(stream, source, limit, offset);
    var h := |Head(stream, limit)|;
    if h < limit / 2 {
      TailBegins(stream, source, h, offset);
    } else {
      LastOfAppended(stream[h..], source, limit - limit / 2);
      TailContinues(stream, source, h);
    }
  }

  lemma HeadGrows(stream: seq<byte>, source: seq<byte>, limit: nat, offset: nat)
    requires offset == Min(limit / 2 - |Head(stream, limit)|, |source|)
    ensures Head(stream + source, limit) == Head(stream, limit) + source[..offset]
  {
  }

  lemma TailBegins(stream: seq<byte>, source: seq<byte>, h: nat, offset: nat)
    requires h == |stream| && offset <= |source|
    ensures (stream + source)[h + offset..] == source[offset..] == stream[h..] + source[offset..]
  {
  }

  lemma TailContinues(stream: seq<byte>, source: seq<byte>, h: nat)
    requires h <= |stream|
    ensures (stream + source)[h..] == stream[h..] + source && source[0..] == source
  {
  }

  /** At most `budget` bytes of a head, cut after a whole character. */
  function KeptHead(head: seq<byte>, budget: nat): (kept: seq<byte>)
    ensures |kept| <= budget
  {
    var bounded := head[..Min(|head|, budget)];
    bounded[..SafeEnd(bounded)]
  }

  /** At most the last `budget` bytes of a tail, from a first whole character to a last one. */
  function KeptTail(tail: seq<byte>, budget: nat): (kept: seq<byte>)
    ensures |kept| <= budget
  {
    var bounded := tail[Max(0, |tail| - budget)..];
    var end := SafeEnd(bounded);
    bounded[Min(SafeStart(bounded), end)..end]
  }

  function HeadBudget(claimed: nat): nat {
    (claimed - |OutputTruncationSeparator(claimed)|) / 2
  }

  function TailBudget(claimed: nat): nat {
    claimed - |OutputTruncationSeparator(claimed)| - HeadBudget(claimed)
  }

  function Rendering(stream: seq<byte>, limit: nat, claimed: nat): seq<byte> {
    var head, tail := Head(stream, limit), Tail(stream, limit);
    if |stream| <= claimed then head + tail
    else KeptHead(head, HeadBudget(claimed)) + OutputTruncationSeparator(claimed) + KeptTail(tail, TailBudget(claimed))
  }

  /** The rendering never exceeds the claim, and it is the stream itself when nothing was cut. */
  lemma RenderingExactOrBounded(stream: seq<byte>, limit: nat, claimed: nat)
    requires claimed <= limit
    ensures |Rendering(stream, limit, claimed)| <= claimed
    ensures |stream| <= claimed ==> Rendering(stream, limit, claimed) == stream
  {
    hide KeptHead, KeptTail, OutputTruncationSeparator;
  }

  /** A cut rendering is a prefix of the stream, the separator, and a later part of the stream
      that does not overlap the prefix. */
  lemma CutRendering(stream: seq<byte>, limit: nat, claimed: nat) returns (a: nat, b: nat, c: nat)
    requires claimed < |stream|
    ensures a <= b <= c <= |stream|
    ensures Rendering(stream, limit, claimed) == stream[..a] + OutputTruncationSeparator(claimed) + stream[b..c]
  {
    hide KeptHead, KeptTail, OutputTruncationSeparator, HeadBudget, TailBudget;
    var head, tail := Head(stream, limit), Tail(stream, limit);
    a := KeptHeadPosition(stream, |head|, HeadBudget(claimed));
    b, c := KeptTailPosition(stream, |stream| - |tail|, TailBudget(claimed));
  }

  lemma KeptHeadPosition(stream: seq<byte>, to: nat, budget: nat) returns (a: nat)
    requires to <= |stream|
    ensures a <= to && KeptHead(stream[..to], budget) == stream[..a]
  {
    hide SafeEnd;
    a := |KeptHead(stream[..to], budget)|;
  }

  lemma KeptTailPosition(stream: seq<byte>, from: nat, budget: nat) returns (b: nat, c: nat)
    requires from <= |stream|
    ensures from <= b <= c <= |stream| && KeptTail(stream[from..], budget) == stream[b..c]
  {
    hide SafeEnd, SafeStart;
    var tail := stream[from..];
    var drop := Max(0, |tail| - budget);
    var bounded := tail[drop..];
    c := from + drop + SafeEnd(bounded);
    b := Min(from + drop + SafeStart(bounded), c);
    PartOfEnd(stream, from, drop, drop);
    PartOfEnd(stream, from + drop, Min(SafeStart(bounded), SafeEnd(bounded)), SafeEnd(bounded));
  }

  lemma PartOfEnd(stream: seq<byte>, from: nat, low: nat, high: nat)
    requires from <= |stream|
    ensures from + low <= |stream| ==> stream[from..][low..] == stream[from + low..]
    ensures low <= high && from + high <= |stream| ==> stream[from..][low..high] == stream[from + low..from + high]
  {
  }

  /** The kept head of well-formed text ends at the last character edge within its budget. */
  lemma KeptHeadOfValidText(stream: seq<byte>, head: seq<byte>, budget: nat) returns (a: nat)
    requires Valid(stream) && |head| <= |stream| && head == stream[..|head|]
    ensures Min(|head|, budget) - 3 <= a <= Min(|head|, budget)
    ensures KeptHead(head, budget) == stream[..a] && Valid(stream[..a]) && Boundary(stream, a)
  {
    hide SafeEnd, Boundary;
    var k := Min(|head|, budget);
    assert head[..k] == stream[..k];
    SafeEndIsLastBoundary(stream, k);
    a := SafeEnd(stream[..k]);
    assert stream[..k][..a] == stream[..a] == stream[0..a];
    EdgesAreBoundaries(stream);
    ValidSlice(stream, 0, a);
  }

  /** The kept tail of well-formed text begins at the first character edge within its budget and
      reaches to the very end. */
  lemma KeptTailOfValidText(stream: seq<byte>, tail: seq<byte>, budget: nat) returns (b: nat)
    requires Valid(stream) && |tail| <= |stream| && tail == stream[|stream| - |tail|..]
    ensures |stream| - Min(|tail|, budget) <= b <= |stream| - Min(|tail|, budget) + 3
    ensures b <= |stream| && KeptTail(tail, budget) == stream[b..] && Valid(stream[b..]) && Boundary(stream, b)
  {
    hide SafeEnd, SafeStart, Boundary;
    var k := |stream| - Min(|tail|, budget);
    assert tail[Max(0, |tail| - budget)..] == stream[k..];
    SafeStartIsFirstBoundary(stream, k);
    SafeEndOfSuffix(stream, k);
    b := k + SafeStart(stream[k..]);
    var end := SafeEnd(stream[k..]);
    assert stream[k..][Min(SafeStart(stream[k..]), end)..end] == stream[b..] == stream[b..|stream|];
    EdgesAreBoundaries(stream);
    ValidAtBoundary(stream, 0, b);
    ValidSlice(stream, b, |stream|);
  }

  /** Of well-formed text the cut rendering keeps whole characters only: it is itself well formed,
      reaches to the very end of the stream, and wastes at most three bytes at each inner edge. */
  lemma CutRenderingOfValidText(stream: seq<byte>, limit: nat, claimed: nat) returns (a: nat, b: nat)
    requires claimed < |stream| && Valid(stream)
    ensures Valid(Rendering(stream, limit, claimed))
    ensures var kept := Min(|Head(stream, limit)|, HeadBudget(claimed));
            var late := Min(|Tail(stream, limit)|, TailBudget(claimed));
            && kept - 3 <= a <= kept
            && |stream| - late <= b <= |stream| - late + 3
            && b <= |stream|
            && Boundary(stream, a) && Boundary(stream, b)
            && Rendering(stream, limit, claimed) == stream[..a] + OutputTruncationSeparator(claimed) + stream[b..]
  {
    hide KeptHead, KeptTail, OutputTruncationSeparator, HeadBudget, TailBudget, Boundary, ValidFrom;
    var head, tail := Head(stream, limit), Tail(stream, limit);
    a := KeptHeadOfValidText(stream, head, HeadBudget(claimed));
    assert tail == stream[|stream| - |tail|..];
    b := KeptTailOfValidText(stream, tail, TailBudget(claimed));
    ValidConcat(stream[..a], OutputTruncationSeparator(claimed));
    ValidConcat(stream[..a] + OutputTruncationSeparator(claimed), stream[b..]);
  }

  // ---------- The numbers of a cut rendering ----------

  /** Of what the separator leaves of the claim, the beginning gets one half and the end the other, up to three
      bytes that would cut a character; a stream that fits the head has no end to show. */
  lemma CutRenderingNumbers(stream: seq<byte>, limit: nat, claimed: nat) returns (a: nat, b: nat)
    requires claimed < |stream| && claimed <= limit && Valid(stream)
    ensures var separator := OutputTruncationSeparator(claimed);
            var early := (claimed - |separator|) / 2;
            var late := Min(claimed - |separator| - early, Max(0, |stream| - limit / 2));
            && early - 3 <= a <= early && |stream| - late <= b <= Min(|stream|, |stream| - late + 3)
            && a <= b && Rendering(stream, limit, claimed) == stream[..a] + separator + stream[b..]
  {
    hide Rendering, OutputTruncationSeparator, Boundary, ValidFrom, Head, Tail, HeadBudget, TailBudget;
    KeptNumbers(stream, limit, claimed);
    a, b := CutRenderingOfValidText(stream, limit, claimed);
  }

  lemma KeptNumbers(stream: seq<byte>, limit: nat, claimed: nat)
    requires claimed < |stream| && claimed <= limit
    ensures var early := (claimed - |OutputTruncationSeparator(claimed)|) / 2;
            var late := Min(claimed - |OutputTruncationSeparator(claimed)| - early, Max(0, |stream| - limit / 2));
            && Min(|Head(stream, limit)|, HeadBudget(claimed)) == early
            && Min(|Tail(stream, limit)|, TailBudget(claimed)) == late && early <= |stream| - late
  {
    hide OutputTruncationSeparator;
  }

  /** The texts of the separator, longest first. */
  const SEPARATORS := ["\n[ShellPilot output truncated]\n", "\n[...]\n", "..."]

  /** The separator reads as the first of the texts that fits the limit, or as so many tildes. */
  lemma SeparatorText(limit: nat)
    ensures var text := Decode(OutputTruncationSeparator(limit));
            if |SEPARATORS[0]| <= limit then text == SEPARATORS[0]
            else if |SEPARATORS[1]| <= limit then text == SEPARATORS[1]
            else if |SEPARATORS[2]| <= limit then text == SEPARATORS[2]
            else |text| == limit && forall k :: 0 <= k < limit ==> text[k] == '~'
  {
    var tildes := seq(limit, _ => '~');
    assert Tildes(limit) == Ascii(tildes);
    DecodeAscii("\n[ShellPilot output truncated]\n");
    DecodeAscii("\n[...]\n");
    DecodeAscii("...");
    DecodeAscii(tildes);
    hide Decode, ValidFrom, Ascii;
  }

  lemma {:induction false} DecodeAscii(text: string)
    requires forall i :: 0 <= i < |text| ==> text[i] as int < 0x80
    ensures Valid(Ascii(text)) && Decode(Ascii(text)) == text
  {
    AsciiIsValid(Ascii(text), 0);
    if text != "" {
      DecodeAscii(text[1..]);
      assert Ascii(text) == [text[0] as int] + Ascii(text[1..]);
      DecodeHead([text[0] as int], Ascii(text[1..]));
      assert CodePoint([text[0] as int]) as char == text[0];
      assert text == [text[0]] + text[1..];
    }
  }

  // ---------- The collector object ----------

  class SharedOutputBudget {
    var remainingBytes: nat

    constructor (maxOutputBytes: nat)
      ensures remainingBytes == maxOutputBytes
    {
      remainingBytes := maxOutputBytes;
    }

    method Claim(requestedBytes: nat) returns (grantedBytes: nat)
      modifies this
      ensures grantedBytes == Min(old(remainingBytes), requestedBytes)
      ensures remainingBytes == old(remainingBytes) - grantedBytes
    {
      grantedBytes := Min(remainingBytes, requestedBytes);
      remainingBytes := remainingBytes - grantedBytes;
    }
  }

  // ---------- The ring ----------

  function Wrapped(x: nat, capacity: nat): (w: nat)
    requires x < 2 * capacity
    ensures w == if x < capacity then x else x - capacity
  {
    if x >= capacity then
      assert x == capacity * 1 + (x - capacity);
      x % capacity
    else
      x % capacity
  }

  /** The slot of ring position `i` when position 0 is at slot `start`. */
  function Slot(start: nat, i: nat, capacity: nat): nat
    requires start < capacity && i <= capacity
  {
    if start + i < capacity then start + i else start + i - capacity
  }

  /** The ring, read from its oldest byte. */
  function Unrolled(ring: seq<byte>, start: nat, length: nat): (u: seq<byte>)
    requires length <= |ring| && (ring != [] ==> start < |ring|)
    ensures |u| == length
    ensures forall i :: 0 <= i < length ==> u[i] == ring[Slot(start, i, |ring|)]
  {
    if length == 0 then []
    else if start + length <= |ring| then ring[start..start + length]
    else ring[start..] + ring[..start + length - |ring|]
  }

  /** The ring after the bytes of `source` are written at `slot`, wrapping round its end. */
  ghost predicate Written(before: seq<byte>, after: seq<byte>, slot: nat, source: seq<byte>) {
    && |after| == |before| && slot < |before| && |source| <= |before|
    && forall k :: 0 <= k < |after| ==>
         after[k] == if slot <= k < slot + |source| then source[k - slot]
                     else if k + |before| < slot + |source| then source[k + |before| - slot]
                     else before[k]
  }

  /** Writing past the newest byte and dropping the overflow keeps the last bytes. */
  lemma RingAppend(before: seq<byte>, after: seq<byte>, start: nat, length: nat, source: seq<byte>)
    requires length <= |before| == |after| && start < |before| && 0 < |source| < |before|
    requires Written(before, after, Slot(start, length, |before|), source)
    ensures var overflow := Max(0, length + |source| - |before|);
            Unrolled(after, Slot(start, overflow, |before|), length + |source| - overflow)
            == Last(Unrolled(before, start, length) + source, |before|)
  {
    hide Written, Unrolled;
    var overflow := Max(0, length + |source| - |before|);
    var newStart := Slot(start, overflow, |before|);
    var u := Unrolled(after, newStart, length + |source| - overflow);
    var all := Unrolled(before, start, length) + source;
    forall i | 0 <= i < |u| ensures u[i] == all[overflow + i] {
      RingAppendAt(before, after, start, length, source, i);
    }
    SuffixByElements(u, all, overflow, |before|);
  }

  lemma SuffixByElements(u: seq<byte>, all: seq<byte>, overflow: nat, n: nat)
    requires overflow == |all| - Min(|all|, n) && |u| == |all| - overflow
    requires forall i :: 0 <= i < |u| ==> u[i] == all[overflow + i]
    ensures u == Last(all, n)
  {
  }

  lemma RingAppendAt(before: seq<byte>, after: seq<byte>, start: nat, length: nat, source: seq<byte>, i: nat)
    requires length <= |before| && start < |before| && 0 < |source| < |before|
    requires Written(before, after, Slot(start, length, |before|), source)
    requires var overflow := Max(0, length + |source| - |before|); overflow + i < length + |source|
    ensures var overflow := Max(0, length + |source| - |before|);
            after[Slot(Slot(start, overflow, |before|), i, |before|)]
                == (Unrolled(before, start, length) + source)[overflow + i]
  {
  }

  class BoundedOutputCollector {
    const limit: nat
    const headCapacity: nat
    const tailCapacity: nat
    const storage: array<byte>
    const sharedBudget: SharedOutputBudget?
    var headLength: nat
    var tailLength: nat
    var tailStart: nat
    var totalBytes: nat
    var claimedBytes: nat
    /** Everything that was ever appended. */
    ghost var stream: seq<byte>

    ghost predicate Shape()
      reads this
    {
      && headCapacity == limit / 2 && tailCapacity == limit - headCapacity && storage.Length == limit
      && headLength <= headCapacity && tailLength <= tailCapacity
      && (tailCapacity > 0 ==> tailStart < tailCapacity)
    }

    ghost function TailContents(): (t: seq<byte>)
      requires Shape()
      reads this, storage
      ensures |t| == tailLength
    {
      Unrolled(storage[headCapacity..], tailStart, tailLength)
    }

    ghost predicate Valid()
      reads this, storage
    {
      && Shape()
      && totalBytes == |stream|
      && (sharedBudget == null ==> claimedBytes == limit)
      && storage[..headLength] == Head(stream, limit)
      && TailContents() == Tail(stream, limit)
    }

    constructor (limit: nat, sharedBudget: SharedOutputBudget?)
      ensures Valid() && fresh(storage) && stream == []
      ensures this.limit == limit && this.sharedBudget == sharedBudget
      ensures claimedBytes == if sharedBudget != null then 0 else limit
    {
      this.limit := limit;
      this.sharedBudget := sharedBudget;
      storage := new byte[limit](_ => 0);
      headCapacity := limit / 2;
      tailCapacity := limit - limit / 2;
      headLength, tailLength, tailStart, totalBytes := 0, 0, 0, 0;
      claimedBytes := if sharedBudget != null then 0 else limit;
      stream := [];
    }

    method CopyToStorage(source: seq<byte>, at: nat)
      requires at + |source| <= storage.Length
      modifies storage
      ensures forall k :: 0 <= k < storage.Length ==>
                storage[k] == if at <= k < at + |source| then source[k - at] else old(storage[k])
    {
      forall k | 0 <= k < |source| {
        storage[at + k] := source[k];
      }
    }

    /** The ring keeps the last bytes of what it is given. */
    method AppendTail(source: seq<byte>)
      requires Shape()
      modifies this`tailLength, this`tailStart, storage
      ensures Shape()
      ensures TailContents() == Last(old(TailContents()) + source, tailCapacity)
      ensures storage[..headCapacity] == old(storage[..headCapacity])
    {
      if tailCapacity == 0 || |source| == 0 {
        assert old(TailContents()) + source == if tailCapacity == 0 then source else TailContents();
        return;
      }
      if |source| >= tailCapacity {
        CopyToStorage(source[|source| - tailCapacity..], headCapacity);
        tailStart := 0;
        tailLength := tailCapacity;
        LastOfLong(old(TailContents()), source, tailCapacity);
        return;
      }
      WriteRing(source);
    }

    method WriteRing(source: seq<byte>)
      requires Shape() && 0 < |source| < tailCapacity
      modifies this`tailLength, this`tailStart, storage
      ensures Shape()
      ensures TailContents() == Last(old(TailContents()) + source, tailCapacity)
      ensures storage[..headCapacity] == old(storage[..headCapacity])
    {
      hide Written, Unrolled, Last, Slot;
      ghost var ring := storage[headCapacity..];
      var writeStart := AdvanceRing(|source|);
      CopyAround(source, writeStart);
      ghost var after := storage[headCapacity..];
      RingAppend(ring, after, old(tailStart), old(tailLength), source);
    }

    /** Makes room for `n` bytes and tells where they go. */
    method AdvanceRing(n: nat) returns (writeStart: nat)
      requires Shape() && 0 < n < tailCapacity
      modifies this`tailLength, this`tailStart
      ensures Shape() && writeStart < tailCapacity
      ensures writeStart == Slot(old(tailStart), old(tailLength), tailCapacity)
      ensures var overflow := Max(0, old(tailLength) + n - tailCapacity);
              && tailStart == Slot(old(tailStart), overflow, tailCapacity)
              && tailLength == old(tailLength) + n - overflow
    {
      hide Wrapped;
      writeStart := Wrapped(tailStart + tailLength, tailCapacity);
      var overflow := Max(0, tailLength + n - tailCapacity);
      if overflow > 0 { tailStart := Wrapped(tailStart + overflow, tailCapacity); }
      tailLength := Min(tailCapacity, tailLength + n);
    }

    method CopyAround(source: seq<byte>, writeStart: nat)
      requires Shape() && writeStart < tailCapacity && |source| < tailCapacity
      modifies storage
      ensures Written(old(storage[headCapacity..]), storage[headCapacity..], writeStart, source)
      ensures storage[..headCapacity] == old(storage[..headCapacity])
    {
      var firstLength := Min(|source|, tailCapacity - writeStart);
      CopyToStorage(source[..firstLength], headCapacity + writeStart);
      if firstLength < |source| {
        CopyToStorage(source[firstLength..], headCapacity);
      }
    }

    method Append(source: seq<byte>)
      requires Valid()
      modifies this`headLength, this`tailLength, this`tailStart, this`totalBytes, this`claimedBytes, this`stream
      modifies storage, sharedBudget
      ensures Valid()
      ensures stream == old(stream) + source
      ensures sharedBudget == null ==> claimedBytes == old(claimedBytes)
      ensures sharedBudget != null ==>
                var granted := Min(old(sharedBudget.remainingBytes), |source|);
                claimedBytes == old(claimedBytes) + granted
                    && sharedBudget.remainingBytes == old(sharedBudget.remainingBytes) - granted
    {
      hide Unrolled, Last, Slot, Head, Tail;
      totalBytes := totalBytes + |source|;
      if sharedBudget != null {
        var granted := sharedBudget.Claim(|source|);
        claimedBytes := claimedBytes + granted;
      }
      Store(source);
      stream := stream + source;
    }

    method Store(source: seq<byte>)
      requires Shape() && storage[..headLength] == Head(stream, limit) && TailContents() == Tail(stream, limit)
      modifies this`headLength, this`tailLength, this`tailStart, storage
      ensures Shape() && storage[..headLength] == Head(stream + source, limit)
          && TailContents() == Tail(stream + source, limit)
    {
      hide TailContents, Last, Head, Tail;
      var offset := StoreHead(source);
      HeadAndTailGrow(stream, source, limit, offset);
      ghost var head := storage[..headLength];
      AppendTail(source[offset..]);
      assert storage[..headLength] == head by {
        assert storage[..headLength] == storage[..headCapacity][..headLength];
      }
    }

    method StoreHead(source: seq<byte>) returns (offset: nat)
      requires Shape()
      modifies this`headLength, storage
      ensures Shape() && offset == Min(headCapacity - old(headLength), |source|)
      ensures storage[..headLength] == old(storage[..headLength]) + source[..offset]
      ensures TailContents() == old(TailContents())
    {
      offset := 0;
      if headLength < headCapacity {
        var length := Min(headCapacity - headLength, |source|);
        CopyToStorage(source[..length], headLength);
        headLength := headLength + length;
        offset := length;
      }
      assert storage[headCapacity..] == old(storage[headCapacity..]);
    }

    method TailBuffers() returns (parts: seq<seq<byte>>)
      requires Valid()
      ensures parts == [] <==> tailLength == 0
      ensures |parts| <= 2
      ensures |parts| == 1 ==> parts[0] == Tail(stream, limit)
      ensures |parts| == 2 ==> parts[0] + parts[1] == Tail(stream, limit)
    {
      hide Tail, Head, Unrolled, Valid;
      TailOfStorage();
      if tailLength == 0 { return []; }
      var firstLength := Min(tailLength, tailCapacity - tailStart);
      UnrolledParts(storage[..], headCapacity, tailStart, tailLength);
      var part := Subarray(headCapacity + tailStart, headCapacity + tailStart + firstLength);
      parts := [part];
      if firstLength < tailLength {
        part := Subarray(headCapacity, headCapacity + tailLength - firstLength);
        parts := parts + [part];
      }
    }

    lemma TailOfStorage()
      requires Valid()
      ensures Shape() && Tail(stream, limit) == Unrolled(storage[..][headCapacity..], tailStart, tailLength)
    {
      assert storage[..][headCapacity..] == storage[headCapacity..];
    }

    method Subarray(from: nat, to: nat) returns (part: seq<byte>)
      requires from <= to <= storage.Length
      ensures part == storage[..][from..to]
    {
      part := storage[from..to];
    }

    lemma UnrolledParts(all: seq<byte>, drop: nat, start: nat, length: nat)
      requires drop + start < |all| && length <= |all| - drop
      ensures var first := Min(length, |all| - drop - start);
              Unrolled(all[drop..], start, length) ==
                if first < length then all[drop + start..drop + start + first] + all[drop..drop + length - first]
                else all[drop + start..drop + start + first]
    {
    }

    predicate Truncated()
      reads this
    {
      totalBytes > claimedBytes
    }

    /** The bytes of the rendering, before they are decoded to text. */
    method Render() returns (r: seq<byte>)
      requires Valid()
      ensures r == Rendering(stream, limit, claimedBytes)
    {
      hide KeptHead, KeptTail, OutputTruncationSeparator, Unrolled, Last;
      var head := storage[..headLength];
      var tails := TailBuffers();
      var tail := if tails == [] then [] else if |tails| == 1 then tails[0] else tails[0] + tails[1];
      if totalBytes <= claimedBytes {
        return head + tail;
      }
      var separator := OutputTruncationSeparator(claimedBytes);
      var dataBudget := claimedBytes - |separator|;
      var headBudget := dataBudget / 2;
      var tailBudget := dataBudget - headBudget;
      var safeHead := KeepHead(head, headBudget);
      if tails == [] {
        KeptNothing(tailBudget);
        return safeHead + separator;
      }
      var safeTail := KeepTail(tail, tailBudget);
      r := safeHead + separator + safeTail;
    }
  }

  lemma KeptNothing(budget: nat)
    ensures KeptTail([], budget) == []
  {
  }

  method KeepHead(head: seq<byte>, budget: nat) returns (kept: seq<byte>)
    ensures kept == KeptHead(head, budget)
  {
    var boundedHead := head[..Min(|head|, budget)];
    var end := Utf8SafeEnd(boundedHead);
    kept := boundedHead[..end];
  }

  method KeepTail(tail: seq<byte>, budget: nat) returns (kept: seq<byte>)
    ensures kept == KeptTail(tail, budget)
  {
    var boundedTail := tail[Max(0, |tail| - budget)..];
    var start := Utf8SafeStart(boundedTail);
    var end := Utf8SafeEnd(boundedTail);
    kept := boundedTail[Min(start, end)..end];
  }

  // ---------- The two collectors of one command ----------

  /** One arrival of output data. */
  datatype Output = Stdout(data: seq<byte>) | Stderr(data: seq<byte>)

  datatype Collected = Collected(out: seq<byte>, err: seq<byte>, outClaimed: nat, errClaimed: nat, remaining: nat)

  /** The two streams and what each has claimed of the shared budget after any arrivals. */
  function Collect(maxOutputBytes: nat, events: seq<Output>): Collected {
    if events == [] then Collected([], [], 0, 0, maxOutputBytes)
    else
      var c := Collect(maxOutputBytes, events[..|events| - 1]);
      match events[|events| - 1]
      case Stdout(data) =>
        var granted := Min(c.remaining, |data|);
        c.(out := c.out + data, outClaimed := c.outClaimed + granted, remaining := c.remaining - granted)
      case Stderr(data) =>
        var granted := Min(c.remaining, |data|);
        c.(err := c.err + data, errClaimed := c.errClaimed + granted, remaining := c.remaining - granted)
  }

  /** The budget is conserved, and something is refused only once it is spent. */
  lemma {:induction false} BudgetConserved(maxOutputBytes: nat, events: seq<Output>)
    ensures var c := Collect(maxOutputBytes, events);
            && c.outClaimed + c.errClaimed + c.remaining == maxOutputBytes
            && c.outClaimed <= |c.out| && c.errClaimed <= |c.err|
            && (c.remaining > 0 ==> c.outClaimed == |c.out| && c.errClaimed == |c.err|)
  {
    if events != [] {
      BudgetConserved(maxOutputBytes, events[..|events| - 1]);
    }
  }

  /** Under every interleaving of stdout and stderr the two renderings together fit the budget; they
      are flagged as cut exactly when the two streams together do not fit; uncut they are the
      streams; and each rendering of a well-formed stream is well formed. */
  lemma JointRendering(maxOutputBytes: nat, events: seq<Output>)
    ensures var c := Collect(maxOutputBytes, events);
            var out := Rendering(c.out, maxOutputBytes, c.outClaimed);
            var err := Rendering(c.err, maxOutputBytes, c.errClaimed);
            && |out| + |err| <= maxOutputBytes
            && ((|c.out| > c.outClaimed || |c.err| > c.errClaimed) <==> |c.out| + |c.err| > maxOutputBytes)
            && (|c.out| <= c.outClaimed ==> out == c.out)
            && (|c.err| <= c.errClaimed ==> err == c.err)
            && (Utf8.Valid(c.out) ==> Utf8.Valid(out))
            && (Utf8.Valid(c.err) ==> Utf8.Valid(err))
  {
    hide Rendering, ValidFrom;
    BudgetConserved(maxOutputBytes, events);
    var c := Collect(maxOutputBytes, events);
    RenderingExactOrBounded(c.out, maxOutputBytes, c.outClaimed);
    RenderingExactOrBounded(c.err, maxOutputBytes, c.errClaimed);
    if Utf8.Valid(c.out) && |c.out| > c.outClaimed {
      var _, _ := CutRenderingOfValidText(c.out, maxOutputBytes, c.outClaimed);
    }
    if Utf8.Valid(c.err) && |c.err| > c.errClaimed {
      var _, _ := CutRenderingOfValidText(c.err, maxOutputBytes, c.errClaimed);
    }
  }

  lemma NothingCollected(maxOutputBytes: nat)
    ensures Collect(maxOutputBytes, []) == Collected([], [], 0, 0, maxOutputBytes)
  {
  }

  /** The bounded output of one remote command. */
  class RunCmdOutput {
    const maxOutputBytes: nat
    const outputBudget: SharedOutputBudget
    const stdoutCollector: BoundedOutputCollector
    const stderrCollector: BoundedOutputCollector
    ghost var events: seq<Output>

    ghost function Repr(): set<object>
      reads this
    {
      {this, outputBudget, stdoutCollector, stderrCollector, stdoutCollector.storage, stderrCollector.storage}
    }

    ghost predicate Valid()
      reads this, Repr()
    {
      && stdoutCollector != stderrCollector && stdoutCollector.storage != stderrCollector.storage
      && stdoutCollector.Valid() && stderrCollector.Valid()
      && stdoutCollector.limit == stderrCollector.limit == maxOutputBytes
      && stdoutCollector.sharedBudget == stderrCollector.sharedBudget == outputBudget
      && Collect(maxOutputBytes, events)
         == Collected(stdoutCollector.stream, stderrCollector.stream, stdoutCollector.claimedBytes,
                      stderrCollector.claimedBytes, outputBudget.remainingBytes)
    }

    constructor (maxOutputBytes: nat)
      ensures Valid() && events == [] && this.maxOutputBytes == maxOutputBytes
      ensures fresh(Repr() - {this})
    {
      hide BoundedOutputCollector.Valid, Collect;
      this.maxOutputBytes := maxOutputBytes;
      var budget := new SharedOutputBudget(maxOutputBytes);
      outputBudget := budget;
      stdoutCollector := new BoundedOutputCollector(maxOutputBytes, budget);
      stderrCollector := new BoundedOutputCollector(maxOutputBytes, budget);
      events := [];
      new;
      NothingCollected(maxOutputBytes);
    }

    method OnStdout(data: seq<byte>)
      requires Valid()
      modifies Repr()
      ensures Valid() && events == old(events) + [Stdout(data)]
    {
      hide Unrolled, Last, Head, Tail;
      stdoutCollector.Append(data);
      events := events + [Stdout(data)];
      assert events[..|events| - 1] == old(events);
    }

    method OnStderr(data: seq<byte>)
      requires Valid()
      modifies Repr()
      ensures Valid() && events == old(events) + [Stderr(data)]
    {
      hide Unrolled, Last, Head, Tail;
      stderrCollector.Append(data);
      events := events + [Stderr(data)];
      assert events[..|events| - 1] == old(events);
    }

    method BoundedResult() returns (stdout: seq<byte>, stderr: seq<byte>, truncated: bool)
      requires Valid()
      ensures |stdout| + |stderr| <= maxOutputBytes
      ensures var c := Collect(maxOutputBytes, events);
              && (truncated <==> |c.out| + |c.err| > maxOutputBytes)
              && (!truncated ==> stdout == c.out && stderr == c.err)
              && stdout == Rendering(c.out, maxOutputBytes, c.outClaimed)
              && stderr == Rendering(c.err, maxOutputBytes, c.errClaimed)
    {
      hide Rendering, Collect;
      JointRendering(maxOutputBytes, events);
      stdout := stdoutCollector.Render();
      stderr := stderrCollector.Render();
      truncated := stdoutCollector.Truncated() || stderrCollector.Truncated();
    }
  }
}
