/** The DER helpers and RDCleanPath messages of apps/electerm-agent/src/app/server/rdp-proxy.js, with the
    32-bit shifts and the reads past the end that the source's numbers and buffers have. */
module Der {
  import opened Prelude
  import opened Utf8

  const VERSION_1: nat := 3390
  const TAG_SEQUENCE: byte := 0x30
  const TAG_INTEGER: byte := 0x02
  const TAG_OCTET_STRING: byte := 0x04
  const TAG_UTF8STRING: byte := 0x0c

  const TWO_31: int := 0x8000_0000
  const TWO_32: int := 0x1_0000_0000

  // ---------- Numbers and buffers of the source ----------

  /** The 32-bit value of an integer under a shift. */
  function ToInt32(v: int): (r: int)
    ensures -TWO_31 <= r < TWO_31
    ensures -TWO_31 <= v < TWO_31 ==> r == v
  {
    var m := v % TWO_32;
    if m < TWO_31 then m else m - TWO_32
  }

  /** `v >> 8`. */
  function ShiftRight8(v: int): int { ToInt32(v) / 256 }

  /** `buffer[i]` in a bit operation: past the end it counts as 0. */
  function ByteAt(buf: seq<byte>, i: int): byte {
    if 0 <= i < |buf| then buf[i] else 0
  }

  function Relative(i: int, length: nat): (r: nat)
    ensures r <= length
  {
    if i < 0 then (if length + i < 0 then 0 else length + i) else if i < length then i else length
  }

  /** `buffer.slice(start, end)`: negative positions count from the end. */
  function Slice(buf: seq<byte>, start: int, end: int): seq<byte> {
    var a, b := Relative(start, |buf|), Relative(end, |buf|);
    if a < b then buf[a..b] else []
  }

  // ---------- Encoding ----------

  /** The big-endian octets of a number, without leading zeros. */
  function Octets(v: nat): (octets: seq<byte>)
    ensures octets != [] ==> octets[0] != 0
    ensures octets == [] <==> v == 0
  {
    if v == 0 then [] else Octets(v / 256) + [v % 256]
  }

  /** What the encoding loops produce: the octets of numbers below 2^31. */
  function ShiftedOctets(v: int): (octets: seq<byte>)
    decreases if v < 0 then 0 else if v < TWO_31 then v else TWO_31 + v
  {
    if v <= 0 then [] else ShiftedOctets(ShiftRight8(v)) + [v % 256]
  }

  lemma {:induction false} ShiftedOctetsAreOctets(v: nat)
    requires v < TWO_31
    ensures ShiftedOctets(v) == Octets(v)
  {
    if v > 0 {
      ShiftedOctetsAreOctets(v / 256);
    }
  }

  method OctetsByShifting(value: int) returns (bytes: seq<byte>)
    ensures bytes == ShiftedOctets(value)
  {
    bytes := [];
    var temp := value;
    while temp > 0
      invariant ShiftedOctets(value) == ShiftedOctets(temp) + bytes
      decreases if temp < 0 then 0 else if temp < TWO_31 then temp else TWO_31 + temp
    {
      bytes := [temp % 256] + bytes;
      temp := ShiftRight8(temp);
    }
  }

  function LengthOctets(length: nat): seq<byte> {
    if length < 0x80 then [length]
    else
      var octets := ShiftedOctets(length);
      ShiftedOctetsAreFew(length);
      [0x80 + |octets|] + octets
  }

  lemma ShiftedOctetsAreFew(v: int)
    ensures |ShiftedOctets(v)| <= 4
  {
    var w := ShiftRight8(v);
    assert w < 0x80_0000;
    if w > 0 {
      ShiftedOctetsAreOctets(w);
      assert |Octets(w)| <= |Octets(w / 256)| + 1;
      assert |Octets(w / 256)| <= |Octets(w / 256 / 256)| + 1;
      assert |Octets(w / 256 / 256)| <= |Octets(w / 256 / 256 / 256)| + 1;
    }
  }

  method DerEncodeLength(length: nat) returns (bytes: seq<byte>)
    ensures bytes == LengthOctets(length)
  {
    if length < 0x80 { return [length]; }
    var octets := OctetsByShifting(length);
    ShiftedOctetsAreFew(length);
    bytes := [0x80 + |octets|] + octets;
  }

  function Wrap(tag: byte, content: seq<byte>): seq<byte> {
    [tag] + LengthOctets(|content|) + content
  }

  /** The contents octets of an INTEGER: a leading zero keeps it from reading as negative. */
  function IntegerOctets(value: int): seq<byte> {
    if value == 0 then [0]
    else
      var octets := ShiftedOctets(value);
      if octets != [] && octets[0] >= 0x80 then [0] + octets else octets
  }

  method DerEncodeInteger(value: int) returns (bytes: seq<byte>)
    ensures bytes == Wrap(TAG_INTEGER, IntegerOctets(value))
  {
    if value == 0 { return Wrap(TAG_INTEGER, [0]); }
    var octets := OctetsByShifting(value);
    if octets != [] && octets[0] >= 0x80 { octets := [0] + octets; }
    bytes := Wrap(TAG_INTEGER, octets);
  }

  // ---------- Decoding ----------

  /** `(v << 8) | b`. */
  function ShiftIn(v: int, b: byte): (r: int)
    ensures -TWO_31 <= r < TWO_31
    ensures 0 <= v < 0x80_0000 ==> r == v * 256 + b
  {
    ShiftedLeavesRoom(v);
    ToInt32(v * 256) + b
  }

  lemma ShiftedLeavesRoom(v: int)
    ensures ToInt32(v * 256) <= TWO_31 - 256
  {
    var m, q := v % 0x100_0000, v / 0x100_0000;
    assert v * 256 == q * TWO_32 + m * 256 && 0 <= m * 256 < TWO_32;
    assert v * 256 % TWO_32 == m * 256;
  }

  /** The number in `n` bytes, shifted in one after another. */
  function ValueAt(buf: seq<byte>, at: int, n: nat): (v: int)
    ensures -TWO_31 <= v < TWO_31
  {
    if n == 0 then 0 else ShiftIn(ValueAt(buf, at, n - 1), ByteAt(buf, at + n - 1))
  }

  datatype Length = Length(length: int, bytesRead: nat)

  function LengthAt(buf: seq<byte>, offset: int): Length {
    if 0 <= offset < |buf| && buf[offset] < 0x80 then Length(buf[offset], 1)
    else
      var numBytes := ByteAt(buf, offset) % 0x80;
      Length(ValueAt(buf, offset + 1, numBytes), 1 + numBytes)
  }

  method DerDecodeLength(buf: seq<byte>, offset: int) returns (r: Length)
    ensures r == LengthAt(buf, offset)
  {
    if 0 <= offset < |buf| && buf[offset] < 0x80 { return Length(buf[offset], 1); }
    var numBytes := ByteAt(buf, offset) % 0x80;
    var length := 0;
    for i := 0 to numBytes
      invariant length == ValueAt(buf, offset + 1, i)
    {
      length := ShiftIn(length, ByteAt(buf, offset + 1 + i));
    }
    r := Length(length, 1 + numBytes);
  }

  method DerDecodeInteger(buf: seq<byte>) returns (val: int)
    ensures val == ValueAt(buf, 0, |buf|)
  {
    val := 0;
    for i := 0 to |buf|
      invariant val == ValueAt(buf, 0, i)
    {
      val := ShiftIn(val, buf[i]);
    }
  }

  /** A decoded element; the tag is None when the offset lies past the end. */
  datatype Tlv = Tlv(tag: Option<byte>, value: seq<byte>, totalLength: int)

  function DecodeTlv(buf: seq<byte>, offset: int): Tlv {
    var length := LengthAt(buf, offset + 1);
    var start := offset + 1 + length.bytesRead;
    Tlv(if 0 <= offset < |buf| then Some(buf[offset]) else None,
        Slice(buf, start, start + length.length),
        1 + length.bytesRead + length.length)
  }

  // ---------- Minimal encodings that decode to themselves ----------

  lemma {:induction false} ValueOfOctets(buf: seq<byte>, at: nat, v: nat)
    requires v < TWO_31 && at + |Octets(v)| <= |buf| && buf[at..at + |Octets(v)|] == Octets(v)
    ensures ValueAt(buf, at, |Octets(v)|) == v
  {
    if v > 0 {
      var n := |Octets(v)| - 1;
      var octets := buf[at..at + n + 1];
      assert buf[at..at + n] == octets[..n] == Octets(v / 256);
      assert buf[at + n] == octets[n] == v % 256;
      ValueOfOctets(buf, at, v / 256);
      assert v / 256 * 256 + v % 256 == v;
    }
  }

  /** A length below 2^31 decodes to itself, wherever it stands. */
  lemma LengthRoundTrip(buf: seq<byte>, offset: nat, length: nat)
    requires length < TWO_31 && offset + |LengthOctets(length)| <= |buf|
    requires buf[offset..offset + |LengthOctets(length)|] == LengthOctets(length)
    ensures LengthAt(buf, offset) == Length(length, |LengthOctets(length)|)
  {
    hide ShiftedOctets, ValueAt, Octets;
    var octets := LengthOctets(length);
    assert buf[offset] == octets[0];
    if length >= 0x80 {
      ShiftedOctetsAreOctets(length);
      ShiftedOctetsAreFew(length);
      var n := |Octets(length)|;
      assert buf[offset + 1..offset + 1 + n] == octets[1..] == Octets(length);
      ValueOfOctets(buf, offset + 1, length);
    }
  }

  /** The shortest form: one byte below 0x80, else no leading zero. */
  lemma LengthIsMinimal(length: nat)
    requires length < TWO_31
    ensures var octets := LengthOctets(length);
            if length < 0x80 then octets == [length]
            else |octets| >= 2 && octets[0] == 0x80 + |octets| - 1 && octets[1] != 0
  {
    ShiftedOctetsAreOctets(length);
  }

  /** Only lengths below 2^31 survive: from there on the shifts lose the high bytes. */
  lemma LengthRoundTripIff(length: nat)
    ensures LengthAt(LengthOctets(length), 0).length == length <==> length < TWO_31
  {
    var octets := LengthOctets(length);
    assert octets[0..] == octets;
    if length < TWO_31 {
      assert octets[0..0 + |octets|] == octets;
      LengthRoundTrip(octets, 0, length);
    }
  }

  /** An element decodes to its tag and content, whatever stands around it. */
  lemma TlvRoundTrip(before: seq<byte>, tag: byte, content: seq<byte>, after: seq<byte>)
    requires |content| < TWO_31
    ensures var element := Wrap(tag, content);
            DecodeTlv(before + element + after, |before|) == Tlv(Some(tag), content, |element|)
  {
    hide LengthOctets, LengthAt;
    var element, octets := Wrap(tag, content), LengthOctets(|content|);
    var buf := before + element + after;
    assert buf[|before|] == tag;
    assert buf[|before| + 1..|before| + 1 + |octets|] == octets;
    LengthRoundTrip(buf, |before| + 1, |content|);
    var start := |before| + 1 + |octets|;
    assert buf[start..start + |content|] == content;
  }

  /** An integer below 2^31 decodes to itself; its octets are minimal and never read as negative. */
  lemma IntegerRoundTrip(value: nat)
    requires value < TWO_31
    ensures var octets := IntegerOctets(value);
            && ValueAt(octets, 0, |octets|) == value
            && 1 <= |octets| <= 5 && octets[0] < 0x80
            && (|octets| > 1 && octets[0] == 0 ==> octets[1] >= 0x80)
  {
    hide ShiftedOctets, ValueAt;
    ShiftedOctetsAreOctets(value);
    ShiftedOctetsAreFew(value);
    var octets := IntegerOctets(value);
    if value == 0 {
      ValueOfZero();
    } else {
      var plain := Octets(value);
      assert plain[0..0 + |plain|] == plain;
      ValueOfOctets(plain, 0, value);
      if octets != plain {
        assert octets == [0] + plain && octets[1..1 + |plain|] == plain;
        ValueOfOctets(octets, 1, value);
        ValueAfterZero(octets, |plain|);
      }
    }
  }

  lemma ValueOfZero()
    ensures ValueAt([0], 0, 1) == 0
  {
    assert ValueAt([0], 0, 1) == ShiftIn(0, 0);
  }

  lemma {:induction false} ValueAfterZero(octets: seq<byte>, n: nat)
    requires n < |octets| && octets[0] == 0
    ensures ValueAt(octets, 0, n + 1) == ValueAt(octets, 1, n)
  {
    if n == 0 {
      assert ValueAt(octets, 0, 1) == ShiftIn(ValueAt(octets, 0, 0), 0) == 0;
    } else {
      ValueAfterZero(octets, n - 1);
    }
  }

  // ---------- Children ----------

  /** Where the loop over the elements stands after `n` rounds; past the end it stops. */
  function OffsetAt(buf: seq<byte>, n: nat): int {
    if n == 0 then 0
    else
      var offset := OffsetAt(buf, n - 1);
      if offset < |buf| then offset + DecodeTlv(buf, offset).totalLength else offset
  }

  /** The loop ends. A decoded length can be negative, so it need not. */
  ghost predicate Ends(buf: seq<byte>) {
    exists n: nat :: OffsetAt(buf, n) >= |buf|
  }

  /** More rounds than there are offsets the loop can stand at. */
  function MaxRounds(buf: seq<byte>): nat { |buf| + TWO_31 }

  /** The elements from `offset` on; None when the loop has not ended after `rounds` more rounds. */
  function ChildrenFrom(buf: seq<byte>, offset: int, rounds: nat): Option<seq<Tlv>>
    decreases rounds
  {
    if offset >= |buf| then Some([])
    else if rounds == 0 then None
    else
      var tlv := DecodeTlv(buf, offset);
      Prefixed([tlv], ChildrenFrom(buf, offset + tlv.totalLength, rounds - 1))
  }

  /** The elements of a buffer; None when decoding them never ends. */
  function Children(buf: seq<byte>): Option<seq<Tlv>> { ChildrenFrom(buf, 0, MaxRounds(buf)) }

  function Prefixed(list: seq<Tlv>, rest: Option<seq<Tlv>>): Option<seq<Tlv>> {
    if rest.None? then None else Some(list + rest.value)
  }

  lemma PrefixedSteps(list: seq<Tlv>, tlv: Tlv, rest: Option<seq<Tlv>>)
    ensures Prefixed([], rest) == rest
    ensures Prefixed(list, Prefixed([tlv], rest)) == Prefixed(list + [tlv], rest)
    ensures Prefixed(list, Some([])) == Some(list)
  {
    if rest.Some? {
      assert [] + rest.value == rest.value;
      assert list + ([tlv] + rest.value) == list + [tlv] + rest.value;
    }
    assert list + [] == list;
  }

  /** The loop, given up where it is known never to end: None stands for that. */
  method DerDecodeChildren(buf: seq<byte>) returns (children: Option<seq<Tlv>>)
    ensures children == Children(buf)
    ensures children.None? <==> !Ends(buf)
  {
    hide DecodeTlv, Prefixed, Ends;
    NoneIffEndless(buf);
    var list: seq<Tlv> := [];
    var offset := 0;
    var rounds := MaxRounds(buf);
    PrefixedSteps([], Tlv(None, [], 0), Children(buf));
    while offset < |buf|
      invariant Children(buf) == Prefixed(list, ChildrenFrom(buf, offset, rounds))
      decreases rounds
    {
      if rounds == 0 {
        NothingPrefixed(list);
        return None;
      }
      var tlv := DecodeTlv(buf, offset);
      PrefixedSteps(list, tlv, ChildrenFrom(buf, offset + tlv.totalLength, rounds - 1));
      list := list + [tlv];
      offset := offset + tlv.totalLength;
      rounds := rounds - 1;
    }
    PrefixedSteps(list, Tlv(None, [], 0), None);
    children := Some(list);
  }

  lemma NothingPrefixed(list: seq<Tlv>)
    ensures Prefixed(list, None) == None
  {
  }

  /** The decoded elements are those at the offsets the loop stands at, one after another up to the end. */
  lemma {:induction false} ChildrenAreVisited(buf: seq<byte>, m: nat, rounds: nat)
    ensures ChildrenFrom(buf, OffsetAt(buf, m), rounds).None? ==> OffsetAt(buf, m + rounds) < |buf|
    ensures ChildrenFrom(buf, OffsetAt(buf, m), rounds).Some? ==>
              var list := ChildrenFrom(buf, OffsetAt(buf, m), rounds).value;
              && |list| <= rounds && OffsetAt(buf, m + |list|) >= |buf|
              && forall k :: 0 <= k < |list| ==> IsVisited(buf, m + k, list[k])
    decreases rounds
  {
    hide DecodeTlv, IsVisited;
    var offset := OffsetAt(buf, m);
    if offset < |buf| && rounds > 0 {
      var rest := ChildrenFrom(buf, OffsetAt(buf, m + 1), rounds - 1);
      ChildrenAreVisited(buf, m + 1, rounds - 1);
      var list := ChildrenFrom(buf, offset, rounds);
      assert list == Prefixed([DecodeTlv(buf, offset)], rest);
      if list.Some? {
        assert IsVisited(buf, m, DecodeTlv(buf, offset)) by { VisitedAt(buf, m); }
        forall k | 0 <= k < |list.value| ensures IsVisited(buf, m + k, list.value[k]) {
          if k > 0 { assert list.value[k] == rest.value[k - 1] && IsVisited(buf, m + 1 + (k - 1), rest.value[k - 1]); }
        }
      }
    }
  }

  /** The loop comes to this element in round `n`. */
  predicate IsVisited(buf: seq<byte>, n: nat, tlv: Tlv) {
    OffsetAt(buf, n) < |buf| && tlv == DecodeTlv(buf, OffsetAt(buf, n))
  }

  lemma VisitedAt(buf: seq<byte>, n: nat)
    requires OffsetAt(buf, n) < |buf|
    ensures IsVisited(buf, n, DecodeTlv(buf, OffsetAt(buf, n)))
  {
  }

  // ---------- When decoding ends ----------

  lemma {:induction false} StaysEnded(buf: seq<byte>, n: nat, m: nat)
    requires n <= m && OffsetAt(buf, n) >= |buf|
    ensures OffsetAt(buf, m) == OffsetAt(buf, n)
    decreases m
  {
    hide DecodeTlv;
    if n < m {
      StaysEnded(buf, n, m - 1);
    }
  }

  lemma {:induction false} SamePath(buf: seq<byte>, m: nat, n: nat, k: nat)
    requires OffsetAt(buf, m) == OffsetAt(buf, n)
    ensures OffsetAt(buf, m + k) == OffsetAt(buf, n + k)
  {
    hide DecodeTlv;
    if k > 0 {
      SamePath(buf, m, n, k - 1);
    }
  }

  /** Once an offset repeats, the loop goes round for ever. */
  lemma {:induction false} RepeatNeverEnds(buf: seq<byte>, m: nat, n: nat, k: nat)
    requires m < n && OffsetAt(buf, m) == OffsetAt(buf, n) < |buf|
    ensures OffsetAt(buf, k) < |buf|
  {
    hide OffsetAt;
    if k >= n {
      SamePath(buf, m, n, k - n);
      RepeatNeverEnds(buf, m, n, m + (k - n));
    } else if OffsetAt(buf, k) >= |buf| {
      StaysEnded(buf, k, n);
    }
  }

  lemma ForwardLength(buf: seq<byte>, offset: int)
    ensures offset >= -1 ==> DecodeTlv(buf, offset).totalLength >= 2 - TWO_31
    ensures offset < -1 ==> DecodeTlv(buf, offset).totalLength == 2
  {
    hide ValueAt, Slice;
    if offset < -1 { assert ValueAt(buf, offset + 2, 0) == 0 by { NoOctets(buf, offset + 2); } }
  }

  lemma NoOctets(buf: seq<byte>, at: int)
    ensures ValueAt(buf, at, 0) == 0
  {
  }

  lemma {:induction false} OffsetsAreBounded(buf: seq<byte>, n: nat)
    ensures OffsetAt(buf, n) > -TWO_31
  {
    hide DecodeTlv;
    if n > 0 {
      OffsetsAreBounded(buf, n - 1);
      ForwardLength(buf, OffsetAt(buf, n - 1));
    }
  }

  /** More numbers than there is room for are not all different. */
  lemma {:induction false} Pigeonhole(s: seq<int>, low: int, high: int)
    requires low <= high && forall i :: 0 <= i < |s| ==> low <= s[i] < high
    requires forall i, j :: 0 <= i < j < |s| ==> s[i] != s[j]
    ensures |s| <= high - low
    decreases high - low
  {
    if s == [] {
    } else {
      assert low <= s[0] < high;
      if i :| 0 <= i < |s| && s[i] == high - 1 {
        Pigeonhole(s[..i] + s[i + 1..], low, high - 1);
      } else {
        Pigeonhole(s, low, high - 1);
      }
    }
  }

  /** If the loop has not ended after `MaxRounds`, it has stood at an offset twice. */
  lemma SomeOffsetRepeats(buf: seq<byte>) returns (m: nat, n: nat)
    requires OffsetAt(buf, MaxRounds(buf)) < |buf|
    ensures m < n && OffsetAt(buf, m) == OffsetAt(buf, n) < |buf|
  {
    hide OffsetAt;
    var max := MaxRounds(buf);
    var offsets := seq(max, k requires 0 <= k < max => OffsetAt(buf, k));
    forall k | 0 <= k < max ensures -TWO_31 + 1 <= offsets[k] < |buf| {
      OffsetsAreBounded(buf, k);
      if OffsetAt(buf, k) >= |buf| { StaysEnded(buf, k, max); }
    }
    if forall i, j :: 0 <= i < j < |offsets| ==> offsets[i] != offsets[j] {
      Pigeonhole(offsets, -TWO_31 + 1, |buf|);
      assert false;
    }
    m, n :| 0 <= m < n < |offsets| && offsets[m] == offsets[n];
  }

  /** Decoding ends exactly if the loop never stands at the same offset twice. */
  lemma EndsIffNoRepeat(buf: seq<byte>)
    ensures Ends(buf) <==> forall m: nat, n: nat :: m < n && OffsetAt(buf, m) < |buf| ==>
        OffsetAt(buf, m) != OffsetAt(buf, n)
  {
    hide OffsetAt;
    if Ends(buf) {
      var k: nat :| OffsetAt(buf, k) >= |buf|;
      forall m: nat, n: nat | m < n && OffsetAt(buf, m) < |buf| ensures OffsetAt(buf, m) != OffsetAt(buf, n) {
        if OffsetAt(buf, m) == OffsetAt(buf, n) { RepeatNeverEnds(buf, m, n, k); }
      }
    } else {
      assert OffsetAt(buf, MaxRounds(buf)) < |buf|;
      var m, n := SomeOffsetRepeats(buf);
    }
  }

  lemma NoneIffEndless(buf: seq<byte>)
    ensures Children(buf).None? <==> !Ends(buf)
  {
    ChildrenAreVisited(buf, 0, MaxRounds(buf));
    hide OffsetAt, ChildrenFrom;
    if Ends(buf) && OffsetAt(buf, MaxRounds(buf)) < |buf| {
      var m, n := SomeOffsetRepeats(buf);
      var k: nat :| OffsetAt(buf, k) >= |buf|;
      RepeatNeverEnds(buf, m, n, k);
    }
  }

  /** Decoding ends if no element it comes to has a negative decoded length. */
  lemma ForwardEnds(buf: seq<byte>)
    requires forall n: nat :: OffsetAt(buf, n) < |buf| ==> LengthAt(buf, OffsetAt(buf, n) + 1).length >= 0
    ensures Ends(buf)
  {
    ForwardOffsets(buf, |buf|);
  }

  lemma {:induction false} ForwardOffsets(buf: seq<byte>, n: nat)
    requires forall k: nat :: OffsetAt(buf, k) < |buf| ==> LengthAt(buf, OffsetAt(buf, k) + 1).length >= 0
    ensures OffsetAt(buf, n) >= |buf| || OffsetAt(buf, n) >= n
  {
    hide LengthAt, Slice;
    if n > 0 {
      ForwardOffsets(buf, n - 1);
    }
  }

  /** An element of length -6, as the shifts read it: with its header it takes up nothing. */
  const ENDLESS: seq<byte> := [0x30, 0x84, 0xff, 0xff, 0xff, 0xfa]

  lemma EndlessLength()
    ensures DecodeTlv(ENDLESS, 0).totalLength == 0
  {
    var buf := ENDLESS;
    hide ValueAt;
    NoOctets(buf, 2);
    OneMoreOctet(buf, 2, 0);
    OneMoreOctet(buf, 2, 1);
    OneMoreOctet(buf, 2, 2);
    OneMoreOctet(buf, 2, 3);
    LastOctet();
    hide ShiftIn;
    assert LengthAt(buf, 1) == Length(-6, 5);
  }

  lemma OneMoreOctet(buf: seq<byte>, at: int, n: nat)
    ensures ValueAt(buf, at, n + 1) == ShiftIn(ValueAt(buf, at, n), ByteAt(buf, at + n))
  {
  }

  lemma LastOctet()
    ensures ShiftIn(0xff_ffff, 0xfa) == -6
  {
  }

  /** The loop stands at such an element for ever. */
  lemma EndlessNeverEnds()
    ensures !Ends(ENDLESS) && Children(ENDLESS).None?
  {
    hide DecodeTlv, Children;
    EndlessLength();
    assert OffsetAt(ENDLESS, 1) == OffsetAt(ENDLESS, 0) == 0;
    forall n: nat ensures OffsetAt(ENDLESS, n) < |ENDLESS| {
      RepeatNeverEnds(ENDLESS, 0, 1, n);
    }
    NoneIffEndless(ENDLESS);
  }

  // ---------- Elements written and read back ----------

  datatype Element = Element(tag: byte, content: seq<byte>)

  function WrapAll(elements: seq<Element>): seq<byte> {
    if elements == [] then [] else Wrap(elements[0].tag, elements[0].content) + WrapAll(elements[1..])
  }

  function Decoded(e: Element): Tlv { Tlv(Some(e.tag), e.content, |Wrap(e.tag, e.content)|) }

  function DecodedAll(elements: seq<Element>): seq<Tlv> {
    seq(|elements|, i requires 0 <= i < |elements| => Decoded(elements[i]))
  }

  lemma {:induction false} ChildrenRoundTripFrom(before: seq<byte>, elements: seq<Element>, rounds: nat)
    requires forall e :: e in elements ==> |e.content| < TWO_31
    requires |elements| <= rounds
    ensures ChildrenFrom(before + WrapAll(elements), |before|, rounds) == Some(DecodedAll(elements))
    decreases |elements|
  {
    hide Wrap, DecodeTlv, WrapAll;
    WrapAllUnfold(elements);
    if elements == [] {
      assert before + [] == before;
    } else {
      hide ChildrenFrom, DecodedAll, Decoded;
      var e, rest := elements[0], elements[1..];
      var element := Wrap(e.tag, e.content);
      TlvRoundTrip(before, e.tag, e.content, WrapAll(rest));
      assert before + (element + WrapAll(rest)) == before + element + WrapAll(rest);
      ChildrenRoundTripFrom(before + element, rest, rounds - 1);
      WrapNotEmpty(e);
      ChildrenFromUnfold(before + element + WrapAll(rest), |before|, rounds);
      DecodedUnfold(elements);
    }
  }

  lemma ChildrenFromUnfold(buf: seq<byte>, offset: int, rounds: nat)
    requires offset < |buf| && rounds > 0
    ensures ChildrenFrom(buf, offset, rounds)
            == Prefixed([DecodeTlv(buf, offset)],
                        ChildrenFrom(buf, offset + DecodeTlv(buf, offset).totalLength, rounds - 1))
  {
    hide DecodeTlv;
  }

  lemma DecodedUnfold(elements: seq<Element>)
    requires elements != []
    ensures DecodedAll(elements) == [Decoded(elements[0])] + DecodedAll(elements[1..])
    ensures Decoded(elements[0]) == Tlv(Some(elements[0].tag), elements[0].content,
                                        |Wrap(elements[0].tag, elements[0].content)|)
  {
  }

  /** Elements written one after another are the children read back. */
  lemma ChildrenRoundTrip(elements: seq<Element>)
    requires forall e :: e in elements ==> |e.content| < TWO_31
    ensures Children(WrapAll(elements)) == Some(DecodedAll(elements))
  {
    hide ChildrenFrom, WrapAll, DecodedAll;
    FewElements(elements);
    ChildrenRoundTripFrom([], elements, MaxRounds(WrapAll(elements)));
    assert [] + WrapAll(elements) == WrapAll(elements);
  }

  lemma {:induction false} FewElements(elements: seq<Element>)
    ensures |elements| <= |WrapAll(elements)|
  {
    if elements != [] {
      FewElements(elements[1..]);
    }
  }

  lemma WrapAllUnfold(elements: seq<Element>)
    ensures WrapAll(elements) == if elements == [] then []
        else Wrap(elements[0].tag, elements[0].content) + WrapAll(elements[1..])
  {
  }

  lemma WrapNotEmpty(e: Element)
    ensures |Wrap(e.tag, e.content)| > 0
  {
  }

  // ---------- RDCleanPath messages ----------

  datatype Fields = Fields(version: Option<int>, destination: Option<string>, proxyAuth: Option<string>,
                           preconnectionBlob: Option<string>, x224: Option<seq<byte>>)

  datatype Request =
    | Request(destination: string, proxyAuth: Option<string>, x224: seq<byte>, preconnectionBlob: Option<string>)
    | ExpectedSequence | NeverReturns | UnsupportedVersion | MissingDestination | MissingX224

  function NoFields(): Fields { Fields(None, None, None, None, None) }

  /** The number of a tag without its class bits. */
  function TagNumber(tag: Option<byte>): nat {
    if tag.Some? then tag.value % 0x20 else 0
  }

  /** What a child of the request sets; the value inside it is decoded once more. */
  function SetField(fields: Fields, child: Tlv, text: seq<byte> -> string): Fields {
    var value := DecodeTlv(child.value, 0).value;
    var number := TagNumber(child.tag);
    if number == 0 then fields.(version := Some(ValueAt(value, 0, |value|)))
    else if number == 2 then fields.(destination := Some(text(value)))
    else if number == 3 then fields.(proxyAuth := Some(text(value)))
    else if number == 5 then fields.(preconnectionBlob := Some(text(value)))
    else if number == 6 then fields.(x224 := Some(value))
    else fields
  }

  function SetFields(fields: Fields, children: seq<Tlv>, text: seq<byte> -> string): Fields
    decreases |children|
  {
    if children == [] then fields else SetFields(SetField(fields, children[0], text), children[1..], text)
  }

  function Checked(fields: Fields): Request {
    if fields.version != Some(VERSION_1) then UnsupportedVersion
    else if fields.destination.None? || fields.destination.value == "" then MissingDestination
    else if fields.x224.None? then MissingX224
    else Request(fields.destination.value, fields.proxyAuth, fields.x224.value, fields.preconnectionBlob)
  }

  function Parsed(buf: seq<byte>, text: seq<byte> -> string): Request {
    var outer := DecodeTlv(buf, 0);
    if outer.tag != Some(TAG_SEQUENCE) then ExpectedSequence
    else
      var children := Children(outer.value);
      if children.None? then NeverReturns else Checked(SetFields(NoFields(), children.value, text))
  }

  method ParseRDCleanPathRequest(buf: seq<byte>, text: seq<byte> -> string) returns (r: Request)
    ensures r == Parsed(buf, text)
    ensures r == NeverReturns <==> DecodeTlv(buf, 0).tag == Some(TAG_SEQUENCE) && !Ends(DecodeTlv(buf, 0).value)
  {
    hide DecodeTlv;
    var outer := DecodeTlv(buf, 0);
    if outer.tag != Some(TAG_SEQUENCE) { return ExpectedSequence; }
    var children := DerDecodeChildren(outer.value);
    if children.None? { return NeverReturns; }
    var fields := NoFields();
    var i := 0;
    while i < |children.value|
      invariant 0 <= i <= |children.value|
      invariant SetFields(NoFields(), children.value, text) == SetFields(fields, children.value[i..], text)
    {
      var child := children.value[i];
      assert children.value[i..][1..] == children.value[i + 1..];
      var tlv := DecodeTlv(child.value, 0);
      match TagNumber(child.tag) {
        case 0 =>
          var version := DerDecodeInteger(tlv.value);
          fields := fields.(version := Some(version));
        case 2 => fields := fields.(destination := Some(text(tlv.value)));
        case 3 => fields := fields.(proxyAuth := Some(text(tlv.value)));
        case 5 => fields := fields.(preconnectionBlob := Some(text(tlv.value)));
        case 6 => fields := fields.(x224 := Some(tlv.value));
        case _ =>
      }
      i := i + 1;
    }
    if fields.version != Some(VERSION_1) { return UnsupportedVersion; }
    if fields.destination.None? || fields.destination.value == "" { return MissingDestination; }
    if fields.x224.None? { return MissingX224; }
    r := Request(fields.destination.value, fields.proxyAuth, fields.x224.value, fields.preconnectionBlob);
  }

  /** So a request that holds such an element never gets an answer. */
  lemma EndlessRequest(text: seq<byte> -> string)
    ensures Parsed(Wrap(TAG_SEQUENCE, ENDLESS), text) == NeverReturns
  {
    hide Wrap, DecodeTlv, Children, Ends;
    EndlessNeverEnds();
    var message := Wrap(TAG_SEQUENCE, ENDLESS);
    assert [] + message + [] == message;
    TlvRoundTrip([], TAG_SEQUENCE, ENDLESS, []);
  }

  /** A context element around one inner element. */
  function Context(number: nat, tag: byte, content: seq<byte>): Element
    requires number < 0x20
  {
    Element(0xa0 + number, Wrap(tag, content))
  }

  function OptionalText(number: nat, value: Option<seq<byte>>): seq<Element>
    requires number < 0x20
  {
    if value.Some? then [Context(number, TAG_UTF8STRING, value.value)] else []
  }

  /** A request as a client writes it. */
  function RequestElements(destination: seq<byte>, proxyAuth: Option<seq<byte>>, blob: Option<seq<byte>>,
                           x224: seq<byte>): seq<Element> {
    [Context(0, TAG_INTEGER, IntegerOctets(VERSION_1)), Context(2, TAG_UTF8STRING, destination)]
    + OptionalText(3, proxyAuth) + OptionalText(5, blob) + [Context(6, TAG_OCTET_STRING, x224)]
  }

  function EncodeRequest(destination: seq<byte>, proxyAuth: Option<seq<byte>>, blob: Option<seq<byte>>,
                         x224: seq<byte>): seq<byte> {
    Wrap(TAG_SEQUENCE, WrapAll(RequestElements(destination, proxyAuth, blob, x224)))
  }

  function TextOf(value: Option<seq<byte>>, text: seq<byte> -> string): Option<string> {
    if value.Some? then Some(text(value.value)) else None
  }

  /** A whole message whose length is below 2^31 decodes to its elements. */
  lemma MessageRoundTrip(elements: seq<Element>)
    requires |WrapAll(elements)| < TWO_31
    ensures var outer := DecodeTlv(Wrap(TAG_SEQUENCE, WrapAll(elements)), 0);
            outer.tag == Some(TAG_SEQUENCE) && Children(outer.value) == Some(DecodedAll(elements))
  {
    hide Wrap, DecodeTlv, WrapAll, Children;
    var content := WrapAll(elements);
    assert [] + Wrap(TAG_SEQUENCE, content) + [] == Wrap(TAG_SEQUENCE, content);
    TlvRoundTrip([], TAG_SEQUENCE, content, []);
    PartsAreShorter(elements);
    ChildrenRoundTrip(elements);
    assert [] + content == content;
  }

  lemma {:induction false} PartsAreShorter(elements: seq<Element>)
    ensures forall e :: e in elements ==> |e.content| <= |WrapAll(elements)|
  {
    if elements != [] {
      PartsAreShorter(elements[1..]);
    }
  }

  lemma InnerRoundTrip(number: nat, tag: byte, content: seq<byte>)
    requires number < 0x20 && |content| < TWO_31
    ensures var child := Decoded(Context(number, tag, content));
            TagNumber(child.tag) == number && DecodeTlv(child.value, 0) == Tlv(Some(tag), content, |Wrap(tag, content)|)
  {
    hide DecodeTlv, Wrap;
    assert [] + Wrap(tag, content) + [] == Wrap(tag, content);
    TlvRoundTrip([], tag, content, []);
    assert (0xa0 + number) % 0x20 == number;
  }

  lemma {:induction false} SetFieldsConcat(fields: Fields, a: seq<Tlv>, b: seq<Tlv>, text: seq<byte> -> string)
    ensures SetFields(fields, a + b, text) == SetFields(SetFields(fields, a, text), b, text)
    decreases |a|
  {
    hide SetField;
    if a == [] {
      assert a + b == b;
    } else {
      assert (a + b)[1..] == a[1..] + b;
      SetFieldsConcat(SetField(fields, a[0], text), a[1..], b, text);
    }
  }

  lemma SetOne(fields: Fields, number: nat, tag: byte, content: seq<byte>, text: seq<byte> -> string)
    requires number < 0x20 && |content| < TWO_31
    ensures SetFields(fields, DecodedAll([Context(number, tag, content)]), text) ==
              if number == 0 then fields.(version := Some(ValueAt(content, 0, |content|)))
              else if number == 2 then fields.(destination := Some(text(content)))
              else if number == 3 then fields.(proxyAuth := Some(text(content)))
              else if number == 5 then fields.(preconnectionBlob := Some(text(content)))
              else if number == 6 then fields.(x224 := Some(content))
              else fields
  {
    InnerRoundTrip(number, tag, content);
    hide DecodeTlv, ValueAt, Decoded, Context, TagNumber;
    var children := DecodedAll([Context(number, tag, content)]);
    assert children[1..] == [];
    assert SetFields(fields, children, text) == SetField(fields, children[0], text);
  }

  lemma DecodedConcat(a: seq<Element>, b: seq<Element>)
    ensures DecodedAll(a + b) == DecodedAll(a) + DecodedAll(b)
  {
  }

  /** A request parses back to its fields. */
  lemma RequestRoundTrip(destination: seq<byte>, proxyAuth: Option<seq<byte>>, blob: Option<seq<byte>>, x224: seq<byte>,
                         text: seq<byte> -> string)
    requires |WrapAll(RequestElements(destination, proxyAuth, blob, x224))| < TWO_31 && text(destination) != ""
    ensures Parsed(EncodeRequest(destination, proxyAuth, blob, x224), text)
            == Request(text(destination), TextOf(proxyAuth, text), x224, TextOf(blob, text))
  {
    hide Wrap, WrapAll, DecodeTlv, Children, SetFields, ValueAt, IntegerOctets;
    var elements := RequestElements(destination, proxyAuth, blob, x224);
    MessageRoundTrip(elements);
    FieldsOfRequest(destination, proxyAuth, blob, x224, text);
  }

  lemma FieldsOfRequest(destination: seq<byte>, proxyAuth: Option<seq<byte>>, blob: Option<seq<byte>>, x224: seq<byte>,
                        text: seq<byte> -> string)
    requires |WrapAll(RequestElements(destination, proxyAuth, blob, x224))| < TWO_31
    ensures SetFields(NoFields(), DecodedAll(RequestElements(destination, proxyAuth, blob, x224)), text)
            == Fields(Some(VERSION_1), Some(text(destination)), TextOf(proxyAuth, text), TextOf(blob, text), Some(x224))
  {
    hide SetFields, DecodedAll, WrapAll, IntegerOctets, ValueAt, Context;
    var version, name := [Context(0, TAG_INTEGER, IntegerOctets(VERSION_1))], [Context(2, TAG_UTF8STRING, destination)];
    var auth, extra, pdu := OptionalText(3, proxyAuth), OptionalText(5, blob), [Context(6, TAG_OCTET_STRING, x224)];
    ContentsAreShort(destination, proxyAuth, blob, x224);
    IntegerRoundTrip(VERSION_1);
    var f0 := NoFields();
    SetOne(f0, 0, TAG_INTEGER, IntegerOctets(VERSION_1), text);
    var f1 := f0.(version := Some(VERSION_1));
    SetOne(f1, 2, TAG_UTF8STRING, destination, text);
    var f2 := f1.(destination := Some(text(destination)));
    SetOptional(f2, 3, proxyAuth, text);
    var f3 := f2.(proxyAuth := TextOf(proxyAuth, text));
    SetOptional(f3, 5, blob, text);
    var f4 := f3.(preconnectionBlob := TextOf(blob, text));
    SetOne(f4, 6, TAG_OCTET_STRING, x224, text);
    SetTwo(f0, version, name, text);
    SetTwo(f0, version + name, auth, text);
    SetTwo(f0, version + name + auth, extra, text);
    SetTwo(f0, version + name + auth + extra, pdu, text);
    assert RequestElements(destination, proxyAuth, blob, x224) == version + name + auth + extra + pdu;
  }

  lemma SetTwo(fields: Fields, a: seq<Element>, b: seq<Element>, text: seq<byte> -> string)
    ensures SetFields(fields, DecodedAll(a + b), text) == SetFields(SetFields(fields, DecodedAll(a), text),
                                                                    DecodedAll(b), text)
  {
    hide SetFields;
    DecodedConcat(a, b);
    SetFieldsConcat(fields, DecodedAll(a), DecodedAll(b), text);
  }

  lemma SetOptional(fields: Fields, number: nat, value: Option<seq<byte>>, text: seq<byte> -> string)
    requires number in {3, 5} && (value.Some? ==> |value.value| < TWO_31)
    requires if number == 3 then fields.proxyAuth.None? else fields.preconnectionBlob.None?
    ensures SetFields(fields, DecodedAll(OptionalText(number, value)), text) ==
              if number == 3 then fields.(proxyAuth := TextOf(value, text))
                  else fields.(preconnectionBlob := TextOf(value, text))
  {
    if value.Some? {
      SetOne(fields, number, TAG_UTF8STRING, value.value, text);
    } else {
      assert DecodedAll([]) == [];
    }
  }

  lemma ContentsAreShort(destination: seq<byte>, proxyAuth: Option<seq<byte>>, blob: Option<seq<byte>>, x224: seq<byte>)
    requires |WrapAll(RequestElements(destination, proxyAuth, blob, x224))| < TWO_31
    ensures |destination| < TWO_31 && |x224| < TWO_31
    ensures proxyAuth.Some? ==> |proxyAuth.value| < TWO_31
    ensures blob.Some? ==> |blob.value| < TWO_31
    ensures |IntegerOctets(VERSION_1)| < TWO_31
  {
    hide WrapAll, LengthOctets, IntegerOctets;
    var elements := RequestElements(destination, proxyAuth, blob, x224);
    PartsAreShorter(elements);
    IntegerRoundTrip(VERSION_1);
    assert elements[1] == Context(2, TAG_UTF8STRING, destination);
    assert elements[|elements| - 1] == Context(6, TAG_OCTET_STRING, x224);
    if proxyAuth.Some? { assert elements[2] == Context(3, TAG_UTF8STRING, proxyAuth.value); }
    if blob.Some? { assert elements[|elements| - 2] == Context(5, TAG_UTF8STRING, blob.value); }
  }

  // ---------- The messages of the proxy ----------

  function ResponseElements(serverAddr: seq<byte>, x224: seq<byte>, certChain: seq<seq<byte>>): seq<Element> {
    [Context(0, TAG_INTEGER, IntegerOctets(VERSION_1)), Context(6, TAG_OCTET_STRING, x224),
     Context(7, TAG_SEQUENCE, WrapAll(CertElements(certChain))), Context(9, TAG_UTF8STRING, serverAddr)]
  }

  function CertElements(certChain: seq<seq<byte>>): seq<Element> {
    seq(|certChain|, i requires 0 <= i < |certChain| => Element(TAG_OCTET_STRING, certChain[i]))
  }

  function BuildRDCleanPathResponse(serverAddr: seq<byte>, x224: seq<byte>, certChain: seq<seq<byte>>): seq<byte> {
    Wrap(TAG_SEQUENCE, WrapAll(ResponseElements(serverAddr, x224, certChain)))
  }

  /** A response decodes to its version, X.224 bytes, certificates in order and address. */
  lemma ResponseRoundTrip(serverAddr: seq<byte>, x224: seq<byte>, certChain: seq<seq<byte>>)
    requires |WrapAll(ResponseElements(serverAddr, x224, certChain))| < TWO_31
    ensures var outer := DecodeTlv(BuildRDCleanPathResponse(serverAddr, x224, certChain), 0);
            var children := Children(outer.value);
            && outer.tag == Some(TAG_SEQUENCE) && children.Some? && |children.value| == 4
            && TagNumber(children.value[0].tag) == 0 && TagNumber(children.value[1].tag) == 6
            && TagNumber(children.value[2].tag) == 7 && TagNumber(children.value[3].tag) == 9
            && DecodeTlv(children.value[0].value, 0).value == IntegerOctets(VERSION_1)
            && DecodeTlv(children.value[1].value, 0).value == x224
            && DecodeTlv(children.value[3].value, 0).value == serverAddr
            && Children(DecodeTlv(children.value[2].value, 0).value) == Some(DecodedAll(CertElements(certChain)))
            && forall i :: 0 <= i < |certChain| ==> DecodedAll(CertElements(certChain))[i].value == certChain[i]
  {
    hide DecodeTlv, Children, WrapAll, IntegerOctets, TagNumber;
    var elements := ResponseElements(serverAddr, x224, certChain);
    MessageRoundTrip(elements);
    PartsAreShorter(elements);
    WrappedIsLonger(TAG_INTEGER, IntegerOctets(VERSION_1));
    WrappedIsLonger(TAG_OCTET_STRING, x224);
    WrappedIsLonger(TAG_SEQUENCE, WrapAll(CertElements(certChain)));
    WrappedIsLonger(TAG_UTF8STRING, serverAddr);
    hide Wrap;
    assert elements[0] in elements && elements[1] in elements && elements[2] in elements && elements[3] in elements;
    InnerRoundTrip(0, TAG_INTEGER, IntegerOctets(VERSION_1));
    InnerRoundTrip(6, TAG_OCTET_STRING, x224);
    InnerRoundTrip(7, TAG_SEQUENCE, WrapAll(CertElements(certChain)));
    InnerRoundTrip(9, TAG_UTF8STRING, serverAddr);
    PartsAreShorter(CertElements(certChain));
    ChildrenRoundTrip(CertElements(certChain));
    assert [] + WrapAll(CertElements(certChain)) == WrapAll(CertElements(certChain));
  }

  lemma WrappedIsLonger(tag: byte, content: seq<byte>)
    ensures |content| < |Wrap(tag, content)|
  {
  }

  function ErrorElements(errorCode: int, httpStatusCode: Option<int>): seq<Element> {
    [Context(0, TAG_INTEGER, IntegerOctets(errorCode))]
    + if httpStatusCode.Some? then [Context(1, TAG_INTEGER, IntegerOctets(httpStatusCode.value))] else []
  }

  function BuildRDCleanPathError(errorCode: int, httpStatusCode: Option<int>): seq<byte> {
    Wrap(TAG_SEQUENCE, WrapAll([Context(0, TAG_INTEGER, IntegerOctets(VERSION_1)),
                                Context(1, TAG_SEQUENCE, WrapAll(ErrorElements(errorCode, httpStatusCode)))]))
  }

  /** The integer inside the context child `i` of a list of decoded elements. */
  function IntegerIn(children: Option<seq<Tlv>>, i: nat): Option<int> {
    if children.None? || i >= |children.value| then None
    else var value := DecodeTlv(children.value[i].value, 0).value; Some(ValueAt(value, 0, |value|))
  }

  /** An error message decodes to its version, error code and optional status. */
  lemma ErrorRoundTrip(errorCode: nat, httpStatusCode: Option<int>)
    requires errorCode < TWO_31 && (httpStatusCode.Some? ==> 0 <= httpStatusCode.value < TWO_31)
    ensures var outer := DecodeTlv(BuildRDCleanPathError(errorCode, httpStatusCode), 0);
            var children := Children(outer.value);
            && outer.tag == Some(TAG_SEQUENCE) && children.Some? && |children.value| == 2
            && IntegerIn(children, 0) == Some(VERSION_1)
            && var error := Children(DecodeTlv(children.value[1].value, 0).value);
               IntegerIn(error, 0) == Some(errorCode) && IntegerIn(error, 1) == httpStatusCode
  {
    hide DecodeTlv, Children, WrapAll, IntegerOctets, ValueAt, Wrap, TagNumber, IntegerIn, ErrorElements, Context;
    var errors := ErrorElements(errorCode, httpStatusCode);
    ErrorIsShort(errorCode, httpStatusCode);
    var elements := [Context(0, TAG_INTEGER, IntegerOctets(VERSION_1)), Context(1, TAG_SEQUENCE, WrapAll(errors))];
    MessageRoundTrip(elements);
    IntegerInside(elements, 0, VERSION_1, 0);
    InnerRoundTrip(1, TAG_SEQUENCE, WrapAll(errors));
    IntegersOfError(errorCode, httpStatusCode);
  }

  lemma IntegerInside(elements: seq<Element>, i: nat, value: nat, number: nat)
    requires i < |elements| && number < 0x20 && value < TWO_31
    requires elements[i] == Context(number, TAG_INTEGER, IntegerOctets(value))
    ensures IntegerIn(Some(DecodedAll(elements)), i) == Some(value)
  {
    IntegerRoundTrip(value);
    hide DecodeTlv, ValueAt, IntegerOctets, TagNumber;
    InnerRoundTrip(number, TAG_INTEGER, IntegerOctets(value));
  }

  lemma IntegersOfError(errorCode: nat, httpStatusCode: Option<int>)
    requires errorCode < TWO_31 && (httpStatusCode.Some? ==> 0 <= httpStatusCode.value < TWO_31)
    requires |WrapAll(ErrorElements(errorCode, httpStatusCode))| < TWO_31
    ensures var error := Children(WrapAll(ErrorElements(errorCode, httpStatusCode)));
            IntegerIn(error, 0) == Some(errorCode) && IntegerIn(error, 1) == httpStatusCode
  {
    hide DecodeTlv, Children, WrapAll, ValueAt, IntegerOctets, Context;
    var errors := ErrorElements(errorCode, httpStatusCode);
    PartsAreShorter(errors);
    ChildrenRoundTrip(errors);
    assert [] + WrapAll(errors) == WrapAll(errors);
    IntegerInside(errors, 0, errorCode, 0);
    if httpStatusCode.Some? { IntegerInside(errors, 1, httpStatusCode.value, 1); }
  }

  lemma ErrorIsShort(errorCode: nat, httpStatusCode: Option<int>)
    requires errorCode < TWO_31 && (httpStatusCode.Some? ==> 0 <= httpStatusCode.value < TWO_31)
    ensures var errors := ErrorElements(errorCode, httpStatusCode);
            && |WrapAll(errors)| < TWO_31
            && |WrapAll([Context(0, TAG_INTEGER, IntegerOctets(VERSION_1)),
                         Context(1, TAG_SEQUENCE, WrapAll(errors))])| < TWO_31
  {
    hide LengthOctets, WrapAll, Wrap, IntegerOctets;
    IntegerElementIsShort(0, VERSION_1);
    IntegerElementIsShort(0, errorCode);
    if httpStatusCode.Some? { IntegerElementIsShort(1, httpStatusCode.value); }
    var errors := ErrorElements(errorCode, httpStatusCode);
    WrapLength(errors);
    TotalOfOne(errors[0]);
    if httpStatusCode.Some? {
      assert errors[1..] == [errors[1]];
      TotalOfOne(errors[1]);
    } else {
      assert errors == [errors[0]];
    }
    assert TotalLength(errors) <= 40;
    WrapAtMost(TAG_SEQUENCE, WrapAll(errors));
    var elements := [Context(0, TAG_INTEGER, IntegerOctets(VERSION_1)), Context(1, TAG_SEQUENCE, WrapAll(errors))];
    WrapLength(elements);
    assert elements[1..][1..] == [];
  }

  lemma TotalOfOne(e: Element)
    ensures TotalLength([e]) == |e.content| + 6
  {
  }

  lemma IntegerElementIsShort(number: nat, value: nat)
    requires number < 0x20 && value < TWO_31
    ensures |Context(number, TAG_INTEGER, IntegerOctets(value)).content| <= 11
  {
    IntegerRoundTrip(value);
    WrapAtMost(TAG_INTEGER, IntegerOctets(value));
  }

  function TotalLength(elements: seq<Element>): nat {
    if elements == [] then 0 else |elements[0].content| + 6 + TotalLength(elements[1..])
  }

  lemma {:induction false} WrapLength(elements: seq<Element>)
    ensures |WrapAll(elements)| <= TotalLength(elements)
  {
    if elements != [] {
      WrapLength(elements[1..]);
      WrapAtMost(elements[0].tag, elements[0].content);
    }
  }

  lemma WrapAtMost(tag: byte, content: seq<byte>)
    ensures |Wrap(tag, content)| <= |content| + 6
  {
    ShiftedOctetsAreFew(|content|);
  }

  // ---------- What a request says ----------

  /** The content inside the last child with that number; a later child overrides an earlier one. */
  function LastChild(children: seq<Tlv>, number: nat): Option<seq<byte>> {
    if children == [] then None
    else
      var last := children[|children| - 1];
      var tag := match last.tag case Some(t) => t as nat case None => 0;
      if tag % 32 == number then Some(DecodeTlv(last.value, 0).value)
      else LastChild(children[..|children| - 1], number)
  }

  function AsText(value: Option<seq<byte>>, text: seq<byte> -> string): Option<string> {
    match value case Some(bytes) => Some(text(bytes)) case None => None
  }

  /** What the source asks of a request, in its order: a SEQUENCE that can be decoded, version 3390 in child 0, a
      destination that is not empty in child 2, and an X.224 packet in child 6. */
  lemma ParsedIff(buf: seq<byte>, text: seq<byte> -> string)
    ensures var outer := DecodeTlv(buf, 0);
            if outer.tag != Some(0x30) then Parsed(buf, text) == ExpectedSequence
            else if !Ends(outer.value) then Parsed(buf, text) == NeverReturns
            else
              && Children(outer.value).Some?
              && (var children := Children(outer.value).value;
                  var version, destination := LastChild(children, 0), AsText(LastChild(children, 2), text);
                  Parsed(buf, text)
                  == if version.None? || ValueAt(version.value, 0, |version.value|) != 3390 then UnsupportedVersion
                     else if destination.None? || destination.value == "" then MissingDestination
                     else if LastChild(children, 6).None? then MissingX224
                     else Request(destination.value, AsText(LastChild(children, 3), text),
                                  LastChild(children, 6).value, AsText(LastChild(children, 5), text)))
  {
    var outer := DecodeTlv(buf, 0);
    NoneIffEndless(outer.value);
    hide DecodeTlv, Children, Ends;
    if outer.tag == Some(0x30) && Children(outer.value).Some? {
      FieldsAreLast(NoFields(), Children(outer.value).value, text);
      hide SetFields, LastChild;
    }
  }

  /** Setting the fields one after another leaves in each what its last child says. */
  lemma {:induction false} FieldsAreLast(fields: Fields, children: seq<Tlv>, text: seq<byte> -> string)
    requires fields == NoFields()
    ensures var f := SetFields(fields, children, text);
            var version := LastChild(children, 0);
            && f.version == (if version.Some? then Some(ValueAt(version.value, 0, |version.value|)) else None)
            && f.destination == AsText(LastChild(children, 2), text)
            && f.proxyAuth == AsText(LastChild(children, 3), text)
            && f.preconnectionBlob == AsText(LastChild(children, 5), text)
            && f.x224 == LastChild(children, 6)
    decreases |children|
  {
    hide DecodeTlv, ValueAt;
    if children != [] {
      var n := |children| - 1;
      FieldsAreLast(fields, children[..n], text);
      LastChildMore(children);
      SetFieldsConcat(fields, children[..n], [children[n]], text);
      assert children == children[..n] + [children[n]];
      SetFieldsOne(SetFields(fields, children[..n], text), children[n], text);
      hide SetFields, LastChild;
    }
  }

  lemma LastChildMore(children: seq<Tlv>)
    requires children != []
    ensures var n := |children| - 1;
            forall number: nat :: LastChild(children, number)
                == if TagNumber(children[n].tag) == number then Some(DecodeTlv(children[n].value, 0).value)
                   else LastChild(children[..n], number)
  {
    hide DecodeTlv;
  }

  lemma SetFieldsOne(fields: Fields, child: Tlv, text: seq<byte> -> string)
    ensures SetFields(fields, [child], text) == SetField(fields, child, text)
  {
    assert [child][1..] == [];
    hide SetField;
  }

  /** A slice as JavaScript defines it: both ends count from the end if they are negative, and are kept within the
      buffer. */
  lemma SliceIff(buf: seq<byte>, start: int, end: int)
    ensures var n := |buf|;
            var a := Max(0, Min(n, if start < 0 then n + start else start));
            var b := Max(0, Min(n, if end < 0 then n + end else end));
            Slice(buf, start, end) == if a <= b then buf[a..b] else []
  {
  }

  // ---------- The messages, octet by octet ----------

  /** The certificates one after another, each an OCTET STRING. */
  function Certificates(certChain: seq<seq<byte>>): seq<byte> {
    if certChain == [] then [] else Wrap(0x04, certChain[0]) + Certificates(certChain[1..])
  }

  lemma VersionOctets()
    ensures IntegerOctets(VERSION_1) == [0x0d, 0x3e]
  {
    assert Octets(0) == [] && Octets(13) == [0x0d] && Octets(3390) == [0x0d, 0x3e];
    ShiftedOctetsAreOctets(3390);
  }

  lemma {:induction false} CertificatesAreWrapped(certChain: seq<seq<byte>>)
    ensures WrapAll(CertElements(certChain)) == Certificates(certChain)
  {
    if certChain != [] {
      assert CertElements(certChain)[1..] == CertElements(certChain[1..]);
      CertificatesAreWrapped(certChain[1..]);
    }
  }

  lemma WrapTwo(a: Element, b: Element)
    ensures WrapAll([a]) == Wrap(a.tag, a.content)
    ensures WrapAll([a, b]) == Wrap(a.tag, a.content) + Wrap(b.tag, b.content)
  {
    hide Wrap;
    assert [a][1..] == [] && [a, b][1..] == [b] && [b][1..] == [];
    assert WrapAll([a]) == Wrap(a.tag, a.content) + [] && WrapAll([b]) == Wrap(b.tag, b.content) + [];
  }

  /** A response: a SEQUENCE of [0] INTEGER 3390, [6] OCTET STRING, [7] SEQUENCE of OCTET STRINGs, and
      [9] UTF8String (section 8 of ITU-T X.690). */
  lemma ResponseOctets(serverAddr: seq<byte>, x224: seq<byte>, certChain: seq<seq<byte>>)
    ensures BuildRDCleanPathResponse(serverAddr, x224, certChain)
        == Wrap(0x30, Wrap(0xa0, Wrap(0x02, [0x0d, 0x3e])) + Wrap(0xa6, Wrap(0x04, x224))
                      + (Wrap(0xa7, Wrap(0x30, Certificates(certChain))) + Wrap(0xa9, Wrap(0x0c, serverAddr))))
  {
    VersionOctets();
    CertificatesAreWrapped(certChain);
    hide Wrap, IntegerOctets, Certificates;
    var elements := ResponseElements(serverAddr, x224, certChain);
    WrapTwo(elements[0], elements[1]);
    WrapTwo(elements[2], elements[3]);
    WrapAllConcat([elements[0], elements[1]], [elements[2], elements[3]]);
    assert elements == [elements[0], elements[1]] + [elements[2], elements[3]];
  }

  lemma {:induction false} WrapAllConcat(a: seq<Element>, b: seq<Element>)
    ensures WrapAll(a + b) == WrapAll(a) + WrapAll(b)
  {
    hide Wrap;
    if a == [] {
      assert a + b == b;
    } else {
      assert (a + b)[1..] == a[1..] + b;
      WrapAllConcat(a[1..], b);
    }
  }

  /** An error: a SEQUENCE of [0] INTEGER 3390 and [1] a SEQUENCE of [0] INTEGER, the code, and, if there is one,
      [1] INTEGER, the status. */
  lemma ErrorOctets(errorCode: int, httpStatusCode: Option<int>)
    ensures var code := Wrap(0xa0, Wrap(0x02, IntegerOctets(errorCode)));
            BuildRDCleanPathError(errorCode, httpStatusCode)
            == Wrap(0x30, Wrap(0xa0, Wrap(0x02, [0x0d, 0x3e]))
                          + Wrap(0xa1, Wrap(0x30, match httpStatusCode
                                                  case None => code
                                                  case Some(n) => code + Wrap(0xa1, Wrap(0x02, IntegerOctets(n))))))
  {
    VersionOctets();
    hide Wrap, IntegerOctets;
    var inner := ErrorElements(errorCode, httpStatusCode);
    if httpStatusCode.Some? {
      WrapTwo(inner[0], inner[1]);
      assert inner == [inner[0], inner[1]];
    } else {
      WrapTwo(inner[0], inner[0]);
      assert inner == [inner[0]];
    }
    WrapTwo(Context(0, TAG_INTEGER, IntegerOctets(VERSION_1)), Context(1, TAG_SEQUENCE, WrapAll(inner)));
    hide WrapAll;
  }
}
