/** The inventory normaliser of apps/electerm-agent/src/app/common/fleet-service-inventory.js: items from
    several sources are cleaned, deduplicated, sorted and cut to a size. `lower` stands for `toLowerCase`,
    `isSpace` for the space class of regular expressions, `stateOf` for the expressions that read a state,
    and `json` and `encoded` for the text and the bytes of `JSON.stringify`. */
module Inventory {
  import opened Prelude
  import opened Utf8

  const MAX_ITEMS: nat := 256
  const MAX_ITEM_BYTES: nat := 64 * 1024

  datatype Source = Systemd | Openrc | Sysv | Docker | Compose | Supervisor | Pm2
  datatype Kind = Service | Container | Process

  datatype State = Running | Stopped | Failed | Starting | Restarting | Paused | Unknown
  datatype Autostart = Enabled | Disabled | Static | Masked | NotKnown

  /** An item; its id, type and group follow from its source and name. */
  datatype Item = Item(name: string, source: Source, state: State, autostart: Autostart, description: string,
                       sourceState: string)

  function SourceRank(s: Source): nat {
    match s case Systemd => 0 case Openrc => 1 case Sysv => 2 case Docker => 3 case Compose => 4 case Supervisor => 5
        case Pm2 => 6
  }

  function KindOf(s: Source): Kind {
    if s.Systemd? || s.Openrc? || s.Sysv? then Service else if s.Docker? || s.Compose? then Container else Process
  }

  function GroupRank(i: Item): nat {
    match KindOf(i.source) case Service => 0 case Container => 1 case Process => 2
  }

  // ---------- Texts in order ----------

  /** `left < right` on strings. */
  predicate Less(left: string, right: string) {
    right != "" && (left == "" || left[0] < right[0] || (left[0] == right[0] && Less(left[1..], right[1..])))
  }

  lemma {:induction false} LessIsTotal(a: string, b: string)
    ensures Less(a, b) || Less(b, a) || a == b
    ensures !(Less(a, b) && Less(b, a)) && !Less(a, a)
  {
    if a != "" {
      LessIsTotal(a[1..], a[1..]);
      if b != "" && a[0] == b[0] {
        LessIsTotal(a[1..], b[1..]);
        assert a[1..] == b[1..] ==> a == [a[0]] + a[1..] == b;
      }
    }
  }

  lemma {:induction false} LessIsTransitive(a: string, b: string, c: string)
    requires Less(a, b) && Less(b, c)
    ensures Less(a, c)
  {
    if a != "" && a[0] == b[0] && b[0] == c[0] {
      LessIsTransitive(a[1..], b[1..], c[1..]);
    }
  }

  /** `compareText`, as a strict order: without case first, then with it. */
  predicate TextBefore(a: string, b: string, lower: string -> string) {
    Less(lower(a), lower(b)) || (lower(a) == lower(b) && Less(a, b))
  }

  // ---------- The better of two duplicates ----------

  /** How much is known about an item. */
  function Score(i: Item): nat {
    (if i.state != Unknown then 1 else 0) + (if i.autostart != NotKnown then 1 else 0)
        + (if i.description != "" then 1 else 0)
  }

  predicate IsBetterDuplicate(candidate: Item, current: Item, json: Item -> string) {
    if SourceRank(candidate.source) != SourceRank(current.source)
    then SourceRank(candidate.source) < SourceRank(current.source)
    else if Score(candidate) != Score(current) then Score(candidate) > Score(current)
    else Less(json(candidate), json(current))
  }

  ghost predicate Injective(json: Item -> string) {
    forall a, b :: json(a) == json(b) ==> a == b
  }

  lemma BetterIsTotal(a: Item, b: Item, json: Item -> string)
    requires Injective(json)
    ensures IsBetterDuplicate(a, b, json) || IsBetterDuplicate(b, a, json) || a == b
    ensures !(IsBetterDuplicate(a, b, json) && IsBetterDuplicate(b, a, json))
  {
    LessIsTotal(json(a), json(b));
  }

  lemma BetterIsTransitive(a: Item, b: Item, c: Item, json: Item -> string)
    requires IsBetterDuplicate(a, b, json) && IsBetterDuplicate(b, c, json)
    ensures IsBetterDuplicate(a, c, json)
  {
    if SourceRank(a.source) == SourceRank(b.source) == SourceRank(c.source) && Score(a) == Score(b) == Score(c) {
      LessIsTransitive(json(a), json(b), json(c));
    }
  }

  // ---------- Order of the result ----------

  predicate Before(a: Item, b: Item, lower: string -> string) {
    || GroupRank(a) < GroupRank(b)
    || (GroupRank(a) == GroupRank(b)
        && (TextBefore(a.name, b.name, lower) || (a.name == b.name && SourceRank(a.source) < SourceRank(b.source))))
  }

  lemma BeforeIsStrict(a: Item, b: Item, lower: string -> string)
    ensures !(Before(a, b, lower) && Before(b, a, lower)) && !Before(a, a, lower)
  {
    LessIsTotal(lower(a.name), lower(b.name));
    LessIsTotal(a.name, b.name);
    LessIsTotal(lower(a.name), lower(a.name));
    LessIsTotal(a.name, a.name);
  }

  lemma BeforeIsTransitive(a: Item, b: Item, c: Item, lower: string -> string)
    requires Before(a, b, lower) && Before(b, c, lower)
    ensures Before(a, c, lower)
  {
    if GroupRank(a) == GroupRank(b) == GroupRank(c) {
      if Less(lower(a.name), lower(b.name)) && Less(lower(b.name), lower(c.name)) {
        LessIsTransitive(lower(a.name), lower(b.name), lower(c.name));
      }
      if Less(a.name, b.name) && Less(b.name, c.name) {
        LessIsTransitive(a.name, b.name, c.name);
      }
    }
  }

  /** The key of duplicates: the type and the name without case. */
  function Key(i: Item, lower: string -> string): (Kind, string) { (KindOf(i.source), lower(i.name)) }

  lemma DifferentKeysAreOrdered(a: Item, b: Item, lower: string -> string)
    requires Key(a, lower) != Key(b, lower)
    ensures Before(a, b, lower) || Before(b, a, lower)
  {
    LessIsTotal(lower(a.name), lower(b.name));
  }

  // ---------- What the result is ----------

  /** The item that stands for its key. */
  ghost predicate Chosen(items: set<Item>, x: Item, lower: string -> string, json: Item -> string) {
    x in items && forall y :: y in items && Key(y, lower) == Key(x, lower) ==> y == x || IsBetterDuplicate(x, y, json)
  }

  ghost predicate Ascending(list: seq<Item>, lower: string -> string) {
    forall i, j :: 0 <= i < j < |list| ==> Before(list[i], list[j], lower)
  }

  /** The chosen items in order. */
  ghost predicate IsListing(items: set<Item>, list: seq<Item>, lower: string -> string, json: Item -> string) {
    Ascending(list, lower) && forall x :: x in list <==> Chosen(items, x, lower, json)
  }

  /** There is only one way to list a set of items: the order they came in does not matter. */
  lemma {:induction false} AscendingIsUnique(a: seq<Item>, b: seq<Item>, lower: string -> string)
    requires Ascending(a, lower) && Ascending(b, lower) && forall x :: x in a <==> x in b
    ensures a == b
    decreases |a|
  {
    assert b != [] ==> b[0] in b;
    if a != [] {
      assert a[0] in a && a[0] in b;
      assert b[0] in b && b[0] in a;
      FirstIsLeast(a, b[0], lower);
      FirstIsLeast(b, a[0], lower);
      BeforeIsStrict(a[0], b[0], lower);
      forall x ensures x in a[1..] <==> x in b[1..] {
        RestIsOther(a, x, lower);
        RestIsOther(b, x, lower);
      }
      AscendingIsUnique(a[1..], b[1..], lower);
      assert a == [a[0]] + a[1..] && b == [b[0]] + b[1..];
    }
  }

  lemma FirstIsLeast(a: seq<Item>, x: Item, lower: string -> string)
    requires Ascending(a, lower) && x in a
    ensures x == a[0] || Before(a[0], x, lower)
  {
  }

  lemma RestIsOther(a: seq<Item>, x: Item, lower: string -> string)
    requires Ascending(a, lower) && a != []
    ensures x in a[1..] <==> x in a && x != a[0]
  {
    if x in a[1..] {
      var i :| 0 <= i < |a[1..]| && a[1..][i] == x;
      assert a[i + 1] == x;
      BeforeIsStrict(a[0], x, lower);
    }
    if x in a && x != a[0] {
      var i :| 0 <= i < |a| && a[i] == x;
      assert a[1..][i - 1] == x;
    }
  }

  // ---------- Sorting ----------

  function Insert(list: seq<Item>, x: Item, lower: string -> string): seq<Item> {
    if list == [] || !Before(list[0], x, lower) then [x] + list else [list[0]] + Insert(list[1..], x, lower)
  }

  /** The library sort; on items with different keys every sort gives the same. */
  function Sort(items: seq<Item>, lower: string -> string): seq<Item> {
    if items == [] then [] else Insert(Sort(items[1..], lower), items[0], lower)
  }

  ghost predicate DistinctKeys(items: seq<Item>, lower: string -> string) {
    forall i, j :: 0 <= i < j < |items| ==> Key(items[i], lower) != Key(items[j], lower)
  }

  lemma {:induction false} InsertElements(list: seq<Item>, x: Item, lower: string -> string)
    ensures forall y :: y in Insert(list, x, lower) <==> y in list || y == x
  {
    if list != [] && Before(list[0], x, lower) {
      InsertElements(list[1..], x, lower);
      assert list == [list[0]] + list[1..];
    }
  }

  lemma {:induction false} InsertKeepsOrder(list: seq<Item>, x: Item, lower: string -> string)
    requires Ascending(list, lower) && forall y :: y in list ==> Key(y, lower) != Key(x, lower)
    ensures Ascending(Insert(list, x, lower), lower)
  {
    if list == [] {
    } else if Before(list[0], x, lower) {
      assert forall y :: y in list[1..] ==> y in list;
      InsertKeepsOrder(list[1..], x, lower);
      InsertElements(list[1..], x, lower);
      var rest := Insert(list[1..], x, lower);
      forall j | 0 <= j < |rest| ensures Before(list[0], rest[j], lower) {
        assert rest[j] in rest;
        RestIsAfter(list, rest[j], x, lower);
      }
    } else {
      assert list[0] in list;
      DifferentKeysAreOrdered(list[0], x, lower);
      forall j | 0 <= j < |list| ensures Before(x, list[j], lower) {
        if j > 0 { BeforeIsTransitive(x, list[0], list[j], lower); }
      }
    }
  }

  lemma RestIsAfter(list: seq<Item>, y: Item, x: Item, lower: string -> string)
    requires Ascending(list, lower) && list != [] && Before(list[0], x, lower) && (y in list[1..] || y == x)
    ensures Before(list[0], y, lower)
  {
    if y in list[1..] {
      var i :| 0 <= i < |list[1..]| && list[1..][i] == y;
      assert list[i + 1] == y;
    }
  }

  lemma {:induction false} SortProperties(items: seq<Item>, lower: string -> string)
    requires DistinctKeys(items, lower)
    ensures Ascending(Sort(items, lower), lower)
    ensures forall y :: y in Sort(items, lower) <==> y in items
  {
    if items != [] {
      var x, rest := items[0], items[1..];
      SortProperties(rest, lower);
      assert items == [x] + rest;
      forall y | y in rest ensures Key(y, lower) != Key(x, lower) {
        var i :| 0 <= i < |rest| && rest[i] == y;
        assert items[i + 1] == y;
      }
      InsertKeepsOrder(Sort(rest, lower), x, lower);
      InsertElements(Sort(rest, lower), x, lower);
    }
  }

  // ---------- Deduplication ----------

  /** The map of duplicates holds, in the order of their keys' first appearance, the best item of each
      key seen so far. */
  ghost predicate HoldsBest(dedup: seq<Item>, seen: set<Item>, lower: string -> string, json: Item -> string) {
    DistinctKeys(dedup, lower) && forall x :: x in dedup <==> Chosen(seen, x, lower, json)
  }

  function Find(dedup: seq<Item>, key: (Kind, string), lower: string -> string): (i: nat)
    ensures i <= |dedup| && (i < |dedup| ==> Key(dedup[i], lower) == key)
    ensures forall j :: 0 <= j < i ==> Key(dedup[j], lower) != key
  {
    if dedup == [] || Key(dedup[0], lower) == key then 0 else 1 + Find(dedup[1..], key, lower)
  }

  /** What `normalizeItem` makes of the values, without those it refuses. */
  function Accepted<V>(values: seq<V>, normalize: V -> Option<Item>): set<Item> {
    set i | 0 <= i < |values| && normalize(values[i]).Some? :: normalize(values[i]).value
  }

  /** Every key that was seen has its best item. */
  lemma {:induction false} SomeoneIsChosen(items: set<Item>, y: Item, lower: string -> string, json: Item -> string)
      returns (x: Item)
    requires y in items && Injective(json)
    ensures Chosen(items, x, lower, json) && Key(x, lower) == Key(y, lower) && (x == y || IsBetterDuplicate(x, y, json))
    decreases items
  {
    if z :| z in items && Key(z, lower) == Key(y, lower) && z != y && !IsBetterDuplicate(y, z, json) {
      BetterIsTotal(y, z, json);
      x := SomeoneIsChosen(items - {y}, z, lower, json);
      if x != z { BetterIsTransitive(x, z, y, json); }
      forall w | w in items && Key(w, lower) == Key(x, lower) ensures w == x || IsBetterDuplicate(x, w, json) { }
    } else {
      x := y;
    }
  }

  /** A key that was not seen before: the item is the best of it. */
  lemma NewKeyIsAdded(dedup: seq<Item>, seen: set<Item>, item: Item, lower: string -> string, json: Item -> string)
    requires HoldsBest(dedup, seen, lower, json) && Injective(json) && Find(dedup, Key(item, lower), lower) == |dedup|
    ensures HoldsBest(dedup + [item], seen + {item}, lower, json)
  {
    forall y | y in seen ensures Key(y, lower) != Key(item, lower) {
      var x := SomeoneIsChosen(seen, y, lower, json);
      assert x in dedup;
    }
    forall x ensures Chosen(seen + {item}, x, lower, json) <==> Chosen(seen, x, lower, json) || x == item {
    }
  }

  /** A key that was seen: the better of its best and the item stands for it. */
  lemma KnownKeyIsCompared(dedup: seq<Item>, seen: set<Item>, item: Item, i: nat, lower: string -> string,
                           json: Item -> string)
    requires HoldsBest(dedup, seen, lower, json) && Injective(json) && i < |dedup|
        && Key(dedup[i], lower) == Key(item, lower)
    ensures HoldsBest(if IsBetterDuplicate(item, dedup[i], json) then dedup[i := item] else dedup,
                      seen + {item}, lower, json)
  {
    var current := dedup[i];
    assert current in dedup;
    var best := if IsBetterDuplicate(item, current, json) then item else current;
    BetterIsTotal(item, current, json);
    forall x ensures Chosen(seen + {item}, x, lower, json) <==>
        (Chosen(seen, x, lower, json) && x != current) || x == best {
      ChosenWithOneMore(seen, item, current, x, lower, json);
    }
    var after := if best == item then dedup[i := item] else dedup;
    assert after == dedup[i := best];
    forall x ensures x in after <==> (x in dedup && x != current) || x == best {
      ReplacedElements(dedup, i, best, x, lower);
    }
  }

  lemma ReplacedElements(dedup: seq<Item>, i: nat, best: Item, x: Item, lower: string -> string)
    requires DistinctKeys(dedup, lower) && i < |dedup|
    ensures x in dedup[i := best] <==> (x in dedup && x != dedup[i]) || x == best
  {
    if x in dedup && x != dedup[i] {
      var j :| 0 <= j < |dedup| && dedup[j] == x;
      assert dedup[i := best][j] == x;
    }
    if x in dedup[i := best] && x != best {
      var j :| 0 <= j < |dedup| && dedup[i := best][j] == x;
      assert dedup[j] == x && j != i;
    }
    assert dedup[i := best][i] == best;
  }

  lemma ChosenWithOneMore(seen: set<Item>, item: Item, current: Item, x: Item, lower: string -> string,
                          json: Item -> string)
    requires Chosen(seen, current, lower, json) && Key(current, lower) == Key(item, lower) && Injective(json)
    ensures var best := if IsBetterDuplicate(item, current, json) then item else current;
            Chosen(seen + {item}, x, lower, json) <==> (Chosen(seen, x, lower, json) && x != current) || x == best
  {
    var best := if IsBetterDuplicate(item, current, json) then item else current;
    BetterIsTotal(item, current, json);
    if Key(x, lower) == Key(item, lower) {
      BetterIsTotal(x, best, json);
      BetterIsTotal(x, current, json);
      if IsBetterDuplicate(item, current, json) {
        forall y | y in seen && Key(y, lower) == Key(item, lower)
            ensures y == item || IsBetterDuplicate(item, y, json) {
          if y != current { BetterIsTransitive(item, current, y, json); }
        }
      }
    }
  }

  method Deduplicate<V>(values: seq<V>, normalize: V -> Option<Item>, lower: string -> string, json: Item -> string)
    returns (dedup: seq<Item>)
    requires Injective(json)
    ensures HoldsBest(dedup, Accepted(values, normalize), lower, json)
  {
    hide HoldsBest, Find, IsBetterDuplicate;
    dedup := [];
    var k := 0;
    NothingAccepted(values, normalize, lower, json);
    while k < |values|
      invariant 0 <= k <= |values|
      invariant HoldsBest(dedup, Accepted(values[..k], normalize), lower, json)
    {
      var item := normalize(values[k]);
      AcceptedMore(values, k, normalize);
      if item.Some? {
        var i := Find(dedup, Key(item.value, lower), lower);
        if i == |dedup| {
          NewKeyIsAdded(dedup, Accepted(values[..k], normalize), item.value, lower, json);
          dedup := dedup + [item.value];
        } else {
          KnownKeyIsCompared(dedup, Accepted(values[..k], normalize), item.value, i, lower, json);
          if IsBetterDuplicate(item.value, dedup[i], json) { dedup := dedup[i := item.value]; }
        }
      }
      k := k + 1;
    }
    assert values[..k] == values;
  }

  lemma NothingAccepted<V>(values: seq<V>, normalize: V -> Option<Item>, lower: string -> string, json: Item -> string)
    ensures HoldsBest([], Accepted(values[..0], normalize), lower, json)
  {
    assert Accepted(values[..0], normalize) == {};
  }

  lemma AcceptedMore<V>(values: seq<V>, k: nat, normalize: V -> Option<Item>)
    requires k < |values|
    ensures Accepted(values[..k + 1], normalize) ==
              if normalize(values[k]).Some? then Accepted(values[..k], normalize) + {normalize(values[k]).value}
              else Accepted(values[..k], normalize)
  {
    var more, less := values[..k + 1], values[..k];
    forall x ensures x in Accepted(more, normalize) <==>
                       x in Accepted(less, normalize) || normalize(values[k]) == Some(x) {
      if x in Accepted(more, normalize) {
        var i :| 0 <= i < |more| && normalize(more[i]) == Some(x);
        if i < k { assert less[i] == more[i]; }
      }
      if x in Accepted(less, normalize) {
        var i :| 0 <= i < |less| && normalize(less[i]) == Some(x);
        assert more[i] == less[i];
      }
      assert more[k] == values[k];
    }
  }

  // ---------- The cut to size ----------

  /** The bytes of `JSON.stringify` of an array, from those of its elements. */
  function ArrayBytes(items: seq<Item>, encoded: Item -> seq<byte>): seq<byte> {
    [0x5b] + Elements(items, encoded) + [0x5d]
  }

  function Elements(items: seq<Item>, encoded: Item -> seq<byte>): seq<byte> {
    if items == [] then []
    else if |items| == 1 then encoded(items[0])
    else Elements(items[..|items| - 1], encoded) + [0x2c] + encoded(items[|items| - 1])
  }

  /** At most 256 items and 64 KiB as they are serialized. */
  predicate Fits(items: seq<Item>, encoded: Item -> seq<byte>) {
    |items| <= MAX_ITEMS && |ArrayBytes(items, encoded)| <= MAX_ITEM_BYTES
  }

  /** The longest beginning that fits. */
  ghost predicate LongestFit(list: seq<Item>, n: nat, encoded: Item -> seq<byte>) {
    n <= |list| && Fits(list[..n], encoded) && forall m :: n < m <= |list| ==> !Fits(list[..m], encoded)
  }

  lemma {:induction false} LongerIsLarger(list: seq<Item>, n: nat, m: nat, encoded: Item -> seq<byte>)
    requires n <= m <= |list|
    ensures |ArrayBytes(list[..n], encoded)| <= |ArrayBytes(list[..m], encoded)|
    decreases m
  {
    if n < m {
      assert list[..m][..m - 1] == list[..m - 1];
      LongerIsLarger(list, n, m - 1, encoded);
    }
  }

  lemma LongestFitIsUnique(list: seq<Item>, n: nat, m: nat, encoded: Item -> seq<byte>)
    requires LongestFit(list, n, encoded) && LongestFit(list, m, encoded)
    ensures n == m
  {
  }

  /** The result for a set of items: the longest beginning of their one listing that fits. */
  ghost predicate IsResult(accepted: set<Item>, items: seq<Item>, truncated: bool,
                           lower: string -> string, json: Item -> string, encoded: Item -> seq<byte>) {
    exists sorted :: IsListing(accepted, sorted, lower, json) && IsCut(sorted, items, truncated, encoded)
  }

  ghost predicate IsCut(sorted: seq<Item>, items: seq<Item>, truncated: bool, encoded: Item -> seq<byte>) {
    && |items| <= |sorted| && items == sorted[..|items|] && LongestFit(sorted, |items|, encoded)
    && (truncated <==> |items| < |sorted|)
  }

  method NormalizeServiceInventoryResult<V>(
    values: seq<V>, normalize: V -> Option<Item>, lower: string -> string, json: Item -> string,
        encoded: Item -> seq<byte>)
    returns (items: seq<Item>, truncated: bool)
    requires Injective(json)
    ensures IsResult(Accepted(values, normalize), items, truncated, lower, json, encoded)
  {
    var dedup := Deduplicate(values, normalize, lower, json);
    SortProperties(dedup, lower);
    var sorted := Sort(dedup, lower);
    assert IsListing(Accepted(values, normalize), sorted, lower, json);
    items, truncated := CutToSize(sorted, encoded);
  }

  method CutToSize(sorted: seq<Item>, encoded: Item -> seq<byte>) returns (items: seq<Item>, truncated: bool)
    ensures IsCut(sorted, items, truncated, encoded)
  {
    items := [];
    var serializedBytes := 2;
    var k := 0;
    while k < |sorted|
      invariant 0 <= k <= |sorted| && items == sorted[..k]
      invariant serializedBytes == |ArrayBytes(items, encoded)| && Fits(items, encoded)
    {
      assert sorted[..k + 1][..k] == items;
      var itemBytes := |encoded(sorted[k])|;
      var separatorBytes := if |items| > 0 then 1 else 0;
      if |items| >= MAX_ITEMS || serializedBytes + separatorBytes + itemBytes > MAX_ITEM_BYTES {
        NoLongerFits(sorted, k, encoded);
        break;
      }
      items := items + [sorted[k]];
      assert items == sorted[..k + 1];
      serializedBytes := serializedBytes + separatorBytes + itemBytes;
      k := k + 1;
    }
    truncated := |items| < |sorted|;
  }

  lemma NoLongerFits(sorted: seq<Item>, k: nat, encoded: Item -> seq<byte>)
    requires k < |sorted| && !Fits(sorted[..k + 1], encoded)
    ensures forall m :: k < m <= |sorted| ==> !Fits(sorted[..m], encoded)
  {
    forall m | k < m <= |sorted| ensures !Fits(sorted[..m], encoded) {
      LongerIsLarger(sorted, k + 1, m, encoded);
    }
  }

  // ---------- Order and merging do not matter ----------

  /** A set of items has one result, in whatever order and however often the input names them. */
  lemma OrderDoesNotMatter(
    accepted: set<Item>, items: seq<Item>, truncated: bool, others: seq<Item>, otherTruncated: bool,
    lower: string -> string, json: Item -> string, encoded: Item -> seq<byte>)
    requires IsResult(accepted, items, truncated, lower, json, encoded)
    requires IsResult(accepted, others, otherTruncated, lower, json, encoded)
    ensures items == others && truncated == otherTruncated
  {
    var a :| IsListing(accepted, a, lower, json) && IsCut(a, items, truncated, encoded);
    var b :| IsListing(accepted, b, lower, json) && IsCut(b, others, otherTruncated, encoded);
    AscendingIsUnique(a, b, lower);
    LongestFitIsUnique(a, |items|, |others|, encoded);
  }

  /** What stays of the parts when each is normalised by itself. */
  ghost predicate AreListings(parts: seq<set<Item>>, listings: seq<seq<Item>>, lower: string -> string,
                              json: Item -> string) {
    |parts| == |listings| && forall k :: 0 <= k < |parts| ==> IsListing(parts[k], listings[k], lower, json)
  }

  /** The results of the parts, none of them truncated. */
  ghost predicate AreWholeResults(parts: seq<set<Item>>, results: seq<seq<Item>>,
                                  lower: string -> string, json: Item -> string, encoded: Item -> seq<byte>) {
    |parts| == |results| && forall k :: 0 <= k < |parts| ==> IsResult(parts[k], results[k], false, lower, json, encoded)
  }

  lemma WholeResultsAreListings(parts: seq<set<Item>>, results: seq<seq<Item>>,
                                lower: string -> string, json: Item -> string, encoded: Item -> seq<byte>)
    requires AreWholeResults(parts, results, lower, json, encoded)
    ensures AreListings(parts, results, lower, json)
  {
    forall k | 0 <= k < |parts| ensures IsListing(parts[k], results[k], lower, json) {
      var sorted :| IsListing(parts[k], sorted, lower, json) && IsCut(sorted, results[k], false, encoded);
      assert results[k] == sorted;
    }
  }

  function Union(parts: seq<set<Item>>): set<Item> {
    set k, x | 0 <= k < |parts| && x in parts[k] :: x
  }

  function Listed(listings: seq<seq<Item>>): set<Item> {
    set k, x | 0 <= k < |listings| && x in listings[k] :: x
  }

  /** Merging the normalised parts chooses the same items as normalising all their items at once. */
  lemma MergeChoosesTheSame(parts: seq<set<Item>>, listings: seq<seq<Item>>, x: Item, lower: string -> string,
                            json: Item -> string)
    requires AreListings(parts, listings, lower, json) && Injective(json)
    ensures Chosen(Listed(listings), x, lower, json) <==> Chosen(Union(parts), x, lower, json)
  {
    ListedAreParts(parts, listings, lower, json);
    if Chosen(Listed(listings), x, lower, json) {
      forall y | y in Union(parts) && Key(y, lower) == Key(x, lower) ensures y == x || IsBetterDuplicate(x, y, json) {
        var z := ListedIsBetter(parts, listings, y, lower, json);
        if z != x && z != y { BetterIsTransitive(x, z, y, json); }
      }
    }
    if Chosen(Union(parts), x, lower, json) {
      var z := ListedIsBetter(parts, listings, x, lower, json);
      BetterIsTotal(x, z, json);
    }
  }

  lemma ListedAreParts(parts: seq<set<Item>>, listings: seq<seq<Item>>, lower: string -> string, json: Item -> string)
    requires AreListings(parts, listings, lower, json)
    ensures Listed(listings) <= Union(parts)
  {
    forall x | x in Listed(listings) ensures x in Union(parts) {
      var k :| 0 <= k < |listings| && x in listings[k];
      assert IsListing(parts[k], listings[k], lower, json);
      assert Chosen(parts[k], x, lower, json);
    }
  }

  lemma ListedIsBetter(parts: seq<set<Item>>, listings: seq<seq<Item>>, y: Item, lower: string -> string,
                       json: Item -> string)
    returns (z: Item)
    requires AreListings(parts, listings, lower, json) && Injective(json) && y in Union(parts)
    ensures z in Listed(listings) && Key(z, lower) == Key(y, lower) && (z == y || IsBetterDuplicate(z, y, json))
  {
    var k :| 0 <= k < |parts| && y in parts[k];
    z := SomeoneIsChosen(parts[k], y, lower, json);
    assert IsListing(parts[k], listings[k], lower, json);
    assert z in listings[k];
  }

  /** Normalising the items of untruncated results gives what normalising all their items at once gives. */
  lemma MergeIsNormalize(
    parts: seq<set<Item>>, results: seq<seq<Item>>, items: seq<Item>, truncated: bool,
    lower: string -> string, json: Item -> string, encoded: Item -> seq<byte>)
    requires Injective(json) && AreWholeResults(parts, results, lower, json, encoded)
    ensures IsResult(Listed(results), items, truncated, lower, json, encoded)
            <==> IsResult(Union(parts), items, truncated, lower, json, encoded)
  {
    WholeResultsAreListings(parts, results, lower, json, encoded);
    forall x ensures Chosen(Listed(results), x, lower, json) <==> Chosen(Union(parts), x, lower, json) {
      MergeChoosesTheSame(parts, results, x, lower, json);
    }
    assert forall sorted :: IsListing(Listed(results), sorted, lower, json) <==>
        IsListing(Union(parts), sorted, lower, json);
  }

  function Flatten<T>(listings: seq<seq<T>>): seq<T> {
    if listings == [] then [] else listings[0] + Flatten(listings[1..])
  }

  lemma {:induction false} FlattenListed(listings: seq<seq<Item>>)
    ensures forall x :: x in Flatten(listings) <==> x in Listed(listings)
  {
    if listings != [] {
      FlattenListed(listings[1..]);
      forall x ensures x in Listed(listings) <==> x in listings[0] || x in Listed(listings[1..]) {
        if x in Listed(listings) {
          var k :| 0 <= k < |listings| && x in listings[k];
          assert k > 0 ==> listings[1..][k - 1] == listings[k];
        }
        if x in Listed(listings[1..]) {
          var k :| 0 <= k < |listings[1..]| && x in listings[1..][k];
          assert listings[k + 1] == listings[1..][k];
        }
      }
    }
  }

  /** The items of the parts, normalised once more, are themselves. */
  lemma AcceptedAgain(listings: seq<seq<Item>>, normalize: Item -> Option<Item>)
    requires forall x :: x in Listed(listings) ==> normalize(x) == Some(x)
    ensures Accepted(Flatten(listings), normalize) == Listed(listings)
  {
    FlattenListed(listings);
    var values := Flatten(listings);
    forall x ensures x in Accepted(values, normalize) <==> x in Listed(listings) {
      if x in Accepted(values, normalize) {
        var i :| 0 <= i < |values| && normalize(values[i]) == Some(x);
        assert values[i] in values;
      }
      if x in Listed(listings) {
        var i :| 0 <= i < |values| && values[i] == x;
        assert normalize(values[i]).Some?;
      }
    }
  }

  // ---------- When normalising again changes nothing ----------

  /** Control characters become spaces. */
  function StripControl(text: string): (r: string)
    ensures |r| == |text|
    ensures forall i :: 0 <= i < |text| ==> r[i] == if IsControl(text[i]) then ' ' else text[i]
  {
    if text == "" then ""
    else StripControl(text[..|text| - 1]) + [if IsControl(text[|text| - 1]) then ' ' else text[|text| - 1]]
  }

  function CollapseChar(front: string, c: char, isSpace: char -> bool): string {
    if !isSpace(c) then front + [c] else if front != "" && front[|front| - 1] == ' ' then front else front + [' ']
  }

  /** Every run of spaces becomes one blank. */
  function Collapse(text: string, isSpace: char -> bool): string {
    if text == "" then "" else CollapseChar(Collapse(text[..|text| - 1], isSpace), text[|text| - 1], isSpace)
  }

  function Trim(text: string): string {
    var t := if text != "" && text[0] == ' ' then text[1..] else text;
    if t != "" && t[|t| - 1] == ' ' then t[..|t| - 1] else t
  }

  /** `cleanText`; after collapsing, only a blank at either end is left to trim. */
  function CleanText(text: string, isSpace: char -> bool, maxLength: nat): string {
    var t := Trim(Collapse(StripControl(text), isSpace));
    if |t| <= maxLength then t else t[..maxLength]
  }

  predicate IsControl(c: char) { c as int <= 31 || c as int == 127 }

  /** No control character, no space but the blank, and blanks only one at a time. */
  ghost predicate Collapsed(text: string, isSpace: char -> bool) {
    && (forall i :: 0 <= i < |text| ==> !IsControl(text[i]) && (isSpace(text[i]) ==> text[i] == ' '))
    && (forall i :: 0 <= i < |text| - 1 && text[i] == ' ' ==> text[i + 1] != ' ')
  }

  lemma {:induction false} CollapseKeeps(text: string, isSpace: char -> bool)
    requires isSpace(' ') && Collapsed(text, isSpace)
    ensures Collapse(text, isSpace) == text
  {
    if text != "" {
      CollapseKeeps(text[..|text| - 1], isSpace);
      assert text == text[..|text| - 1] + [text[|text| - 1]];
      assert |text| > 1 && text[|text| - 2] == ' ' ==> text[|text| - 1] != ' ';
    }
  }

  lemma CollapseCharIsCollapsed(front: string, c: char, isSpace: char -> bool)
    requires isSpace(' ') && !IsControl(c) && Collapsed(front, isSpace)
    ensures Collapsed(CollapseChar(front, c, isSpace), isSpace)
  {
    var t := CollapseChar(front, c, isSpace);
    forall i | 0 <= i < |t| ensures !IsControl(t[i]) && (isSpace(t[i]) ==> t[i] == ' ') {
      assert i < |front| ==> t[i] == front[i];
    }
    forall i | 0 <= i < |t| - 1 && t[i] == ' ' ensures t[i + 1] != ' ' {
      assert t[i] == front[i] && (i + 1 < |front| ==> t[i + 1] == front[i + 1]);
    }
  }

  lemma {:induction false} CollapseIsCollapsed(text: string, isSpace: char -> bool)
    requires isSpace(' ') && forall i :: 0 <= i < |text| ==> !IsControl(text[i])
    ensures Collapsed(Collapse(text, isSpace), isSpace)
  {
    hide Collapsed, IsControl;
    if text == "" {
      NothingIsCollapsed(isSpace);
    } else {
      CollapseIsCollapsed(text[..|text| - 1], isSpace);
      CollapseCharIsCollapsed(Collapse(text[..|text| - 1], isSpace), text[|text| - 1], isSpace);
    }
  }

  lemma NothingIsCollapsed(isSpace: char -> bool)
    ensures Collapsed("", isSpace)
  {
  }

  lemma PartIsCollapsed(text: string, from: nat, to: nat, isSpace: char -> bool)
    requires from <= to <= |text| && Collapsed(text, isSpace)
    ensures Collapsed(text[from..to], isSpace)
  {
    var t := text[from..to];
    forall i | 0 <= i < |t| ensures t[i] == text[from + i] { }
    forall i | 0 <= i < |t| - 1 && t[i] == ' ' ensures t[i + 1] != ' ' {
      assert text[from + i] == ' ' && t[i + 1] == text[from + i + 1];
    }
  }

  /** A cleaned text is collapsed, does not begin with a blank and is not too long. */
  lemma CleanTextIsClean(text: string, isSpace: char -> bool, maxLength: nat)
    requires isSpace(' ')
    ensures var t := CleanText(text, isSpace, maxLength);
            Collapsed(t, isSpace) && (t != "" ==> t[0] != ' ') && |t| <= maxLength
  {
    var c := Collapse(StripControl(text), isSpace);
    CollapseIsCollapsed(StripControl(text), isSpace);
    hide Collapse, StripControl;
    assert |c| > 1 && c[0] == ' ' ==> c[1] != ' ';
    var from, to := CleanTextIsPart(text, isSpace, maxLength);
    PartIsCollapsed(c, from, to, isSpace);
  }

  lemma CleanTextIsPart(text: string, isSpace: char -> bool, maxLength: nat) returns (from: nat, to: nat)
    ensures var c := Collapse(StripControl(text), isSpace);
            && from <= to <= |c| && CleanText(text, isSpace, maxLength) == c[from..to] && to - from <= maxLength
            && (from == if c != "" && c[0] == ' ' then 1 else 0)
  {
    hide Collapse, StripControl;
    var c := Collapse(StripControl(text), isSpace);
    from := if c != "" && c[0] == ' ' then 1 else 0;
    var end := if |c| > from && c[|c| - 1] == ' ' then |c| - 1 else |c|;
    assert Trim(c) == c[from..end];
    to := if end - from <= maxLength then end else from + maxLength;
  }

  lemma {:induction false} StripControlKeeps(text: string)
    requires forall i :: 0 <= i < |text| ==> !IsControl(text[i])
    ensures StripControl(text) == text
  {
  }

  // ---------- Normalising an item ----------

  /** A value as it comes: the texts of its fields, a missing one empty. */
  datatype Value =
    | NotAnObject
    | Value(source: string, kind: string, name: string, state: string, autostart: string, description: string,
            sourceState: string)

  function SourceName(s: Source): string {
    match s
    case Systemd => "systemd" case Openrc => "openrc" case Sysv => "sysv" case Docker => "docker"
    case Compose => "compose" case Supervisor => "supervisor" case Pm2 => "pm2"
  }

  function SourceNamed(name: string): Option<Source> {
    if name == "systemd" then Some(Systemd) else if name == "openrc" then Some(Openrc)
    else if name == "sysv" then Some(Sysv) else if name == "docker" then Some(Docker) else if name == "compose"
        then Some(Compose)
    else if name == "supervisor" then Some(Supervisor) else if name == "pm2" then Some(Pm2) else None
  }

  function KindName(k: Kind): string {
    match k case Service => "service" case Container => "container" case Process => "process"
  }

  function StateName(s: State): string {
    match s
    case Running => "running" case Stopped => "stopped" case Failed => "failed" case Starting => "starting"
    case Restarting => "restarting" case Paused => "paused" case Unknown => "unknown"
  }

  function StateNamed(name: string): Option<State> {
    if name == "running" then Some(Running) else if name == "stopped" then Some(Stopped)
    else if name == "failed" then Some(Failed) else if name == "starting" then Some(Starting)
        else if name == "restarting" then Some(Restarting)
    else if name == "paused" then Some(Paused) else if name == "unknown" then Some(Unknown) else None
  }

  function AutostartName(a: Autostart): string {
    match a
    case Enabled => "enabled" case Disabled => "disabled" case Static => "static" case Masked => "masked"
        case NotKnown => "unknown"
  }

  /** `normalizeInventoryState`. */
  function NormalizeState(text: string, lower: string -> string, isSpace: char -> bool,
                          stateOf: string -> State): State {
    var state := lower(CleanText(text, isSpace, 128));
    if state == "" then Unknown else if StateNamed(state).Some? then StateNamed(state).value else stateOf(state)
  }

  /** `normalizeAutostart`, of a cleaned text in small letters. */
  function AutostartOf(state: string): Autostart {
    if state == "enabled" then Enabled else if state == "disabled" then Disabled else if state == "static" then Static
    else if state == "masked" then Masked else if state == "unknown" then NotKnown
    else if state in ["enabled-runtime", "linked", "linked-runtime", "always", "unless-stopped", "on-failure"]
    then Enabled
    else if state in ["no", "none", "off"] then Disabled
    else if state in ["indirect", "generated", "transient"] then Static
    else NotKnown
  }

  function NormalizeAutostart(text: string, lower: string -> string, isSpace: char -> bool): Autostart {
    AutostartOf(lower(CleanText(text, isSpace, 64)))
  }

  function NormalizeItem(value: Value, lower: string -> string, isSpace: char -> bool,
                         stateOf: string -> State): Option<Item> {
    if value.NotAnObject? then None
    else
      var source := SourceNamed(lower(CleanText(value.source, isSpace, 32)));
      var kind := lower(CleanText(value.kind, isSpace, 32));
      var name := CleanText(value.name, isSpace, 256);
      if source.None? || kind != KindName(KindOf(source.value)) || name == "" then None
      else
        Some(Item(name, source.value, NormalizeState(value.state, lower, isSpace, stateOf),
                  NormalizeAutostart(value.autostart, lower, isSpace),
                  CleanText(value.description, isSpace, 512), CleanText(value.sourceState, isSpace, 128)))
  }

  /** An item as a value to normalise again. */
  function AsValue(i: Item): Value {
    Value(SourceName(i.source), KindName(KindOf(i.source)), i.name, StateName(i.state), AutostartName(i.autostart),
          i.description, i.sourceState)
  }

  predicate IsPlain(c: char) { 'a' <= c <= 'z' || '0' <= c <= '9' }

  ghost predicate IsWord(text: string) { text != "" && forall i :: 0 <= i < |text| ==> IsPlain(text[i]) }

  /** What is asked of the library: the blank is a space, letters and digits are none, and texts of small
      letters and digits stay as they are. */
  ghost predicate IsLibrary(lower: string -> string, isSpace: char -> bool) {
    isSpace(' ') && (forall c :: IsPlain(c) ==> !isSpace(c)) && forall text :: IsWord(text) ==> lower(text) == text
  }

  lemma WordIsClean(text: string, isSpace: char -> bool, maxLength: nat)
    requires isSpace(' ') && (forall c :: IsPlain(c) ==> !isSpace(c)) && IsWord(text) && |text| <= maxLength
    ensures CleanText(text, isSpace, maxLength) == text
  {
    assert forall i :: 0 <= i < |text| ==> IsPlain(text[i]);
    StripControlKeeps(text);
    CollapseKeeps(text, isSpace);
    hide Collapse, StripControl;
  }

  lemma SourcesAreWords(s: Source)
    ensures IsWord(SourceName(s)) && |SourceName(s)| <= 32 && SourceNamed(SourceName(s)) == Some(s)
  {
  }

  lemma KindsAreWords(k: Kind)
    ensures IsWord(KindName(k)) && |KindName(k)| <= 32
  {
  }

  lemma StatesAreWords(s: State)
    ensures IsWord(StateName(s)) && |StateName(s)| <= 64 && StateNamed(StateName(s)) == Some(s)
  {
  }

  lemma AutostartsAreWords(a: Autostart)
    ensures IsWord(AutostartName(a)) && |AutostartName(a)| <= 64 && AutostartOf(AutostartName(a)) == a
  {
  }

  lemma SourceAgain(s: Source, lower: string -> string, isSpace: char -> bool)
    requires IsLibrary(lower, isSpace)
    ensures SourceNamed(lower(CleanText(SourceName(s), isSpace, 32))) == Some(s)
    ensures lower(CleanText(KindName(KindOf(s)), isSpace, 32)) == KindName(KindOf(s))
  {
    SourcesAreWords(s);
    KindsAreWords(KindOf(s));
    WordIsClean(SourceName(s), isSpace, 32);
    WordIsClean(KindName(KindOf(s)), isSpace, 32);
    hide CleanText, IsWord, SourceName, SourceNamed, KindName;
  }

  lemma StateAgain(s: State, lower: string -> string, isSpace: char -> bool, stateOf: string -> State)
    requires IsLibrary(lower, isSpace)
    ensures NormalizeState(StateName(s), lower, isSpace, stateOf) == s
  {
    StatesAreWords(s);
    WordIsClean(StateName(s), isSpace, 128);
    assert StateName(s) != "";
    hide CleanText, IsWord, StateName, StateNamed;
  }

  lemma AutostartAgain(a: Autostart, lower: string -> string, isSpace: char -> bool)
    requires IsLibrary(lower, isSpace)
    ensures NormalizeAutostart(AutostartName(a), lower, isSpace) == a
  {
    AutostartsAreWords(a);
    WordIsClean(AutostartName(a), isSpace, 64);
    hide CleanText, IsWord, AutostartName, AutostartOf;
  }

  predicate EndsInBlank(text: string) { text != "" && text[|text| - 1] == ' ' }

  /** The cut to its length left a blank at the end of one of the texts. */
  predicate HasBlankEnd(i: Item) { EndsInBlank(i.name) || EndsInBlank(i.description) || EndsInBlank(i.sourceState) }

  /** Everything but the texts is kept when an item is normalised again. */
  lemma NormalizeAgain(i: Item, lower: string -> string, isSpace: char -> bool, stateOf: string -> State)
    requires IsLibrary(lower, isSpace) && CleanText(i.name, isSpace, 256) != ""
    ensures NormalizeItem(AsValue(i), lower, isSpace, stateOf)
            == Some(i.(name := CleanText(i.name, isSpace, 256), description := CleanText(i.description, isSpace, 512),
                       sourceState := CleanText(i.sourceState, isSpace, 128)))
  {
    SourceAgain(i.source, lower, isSpace);
    StateAgain(i.state, lower, isSpace, stateOf);
    AutostartAgain(i.autostart, lower, isSpace);
    hide CleanText, NormalizeState, NormalizeAutostart, SourceNamed, SourceName, KindName, StateName, AutostartName,
        IsLibrary;
  }

  /** Cleaning a cleaned text again keeps it exactly if the cut to its length left no blank at the end;
      cleaning twice never leaves one, nor nothing of something. */
  lemma CleanTextTwice(text: string, isSpace: char -> bool, maxLength: nat)
    requires isSpace(' ')
    ensures var t := CleanText(text, isSpace, maxLength);
            var u := CleanText(t, isSpace, maxLength);
            !EndsInBlank(u) && (u == t <==> !EndsInBlank(t)) && (t != "" ==> u != "")
  {
    var t := CleanText(text, isSpace, maxLength);
    CleanTextIsClean(text, isSpace, maxLength);
    StripControlKeeps(t);
    CollapseKeeps(t, isSpace);
    hide Collapse, StripControl;
    assert EndsInBlank(t) && |t| > 1 ==> t[|t| - 2] != ' ';
  }

  lemma NormalizedTexts(value: Value, i: Item, lower: string -> string, isSpace: char -> bool, stateOf: string -> State)
    requires NormalizeItem(value, lower, isSpace, stateOf) == Some(i)
    ensures value.Value? && i.name != "" && i.name == CleanText(value.name, isSpace, 256)
    ensures i.description == CleanText(value.description, isSpace, 512)
    ensures i.sourceState == CleanText(value.sourceState, isSpace, 128)
  {
    hide CleanText, NormalizeState, NormalizeAutostart, SourceNamed, KindName;
  }

  /** Normalising a normalised item again keeps it exactly if none of its texts ends in a blank; and what
      comes out ends in none. */
  lemma NormalizeAgainIff(value: Value, i: Item, lower: string -> string, isSpace: char -> bool,
                          stateOf: string -> State)
    requires IsLibrary(lower, isSpace) && NormalizeItem(value, lower, isSpace, stateOf) == Some(i)
    ensures var again := NormalizeItem(AsValue(i), lower, isSpace, stateOf);
            again.Some? && !HasBlankEnd(again.value) && (again.value == i <==> !HasBlankEnd(i))
  {
    hide CleanText, NormalizeItem, AsValue;
    NormalizedTexts(value, i, lower, isSpace, stateOf);
    CleanTextTwice(value.name, isSpace, 256);
    CleanTextTwice(value.description, isSpace, 512);
    CleanTextTwice(value.sourceState, isSpace, 128);
    hide EndsInBlank;
    NormalizeAgain(i, lower, isSpace, stateOf);
  }

  // ---------- Merging ----------

  function Normalizer(lower: string -> string, isSpace: char -> bool, stateOf: string -> State): Value -> Option<Item> {
    value => NormalizeItem(value, lower, isSpace, stateOf)
  }

  function Renormalizer(lower: string -> string, isSpace: char -> bool,
                        stateOf: string -> State): Item -> Option<Item> {
    i => NormalizeItem(AsValue(i), lower, isSpace, stateOf)
  }

  /** The results of normalising lists of values, none of them truncated. */
  ghost predicate AreWholeResultsOf<V>(parts: seq<seq<V>>, results: seq<seq<Item>>, normalize: V -> Option<Item>,
                                       lower: string -> string, json: Item -> string, encoded: Item -> seq<byte>) {
    |parts| == |results| &&
    forall k :: 0 <= k < |parts| ==> IsResult(Accepted(parts[k], normalize), results[k], false, lower, json, encoded)
  }

  function AcceptedOf<V>(parts: seq<seq<V>>, normalize: V -> Option<Item>): seq<set<Item>> {
    seq(|parts|, k requires 0 <= k < |parts| => Accepted(parts[k], normalize))
  }

  lemma {:induction false} AcceptedOfParts<V>(parts: seq<seq<V>>, normalize: V -> Option<Item>)
    ensures Accepted(Flatten(parts), normalize) == Union(AcceptedOf(parts, normalize))
  {
    if parts != [] {
      var rest := parts[1..];
      AcceptedOfParts(rest, normalize);
      AcceptedConcat(parts[0], Flatten(rest), normalize);
      hide Accepted;
      UnionOfMore(Accepted(parts[0], normalize), AcceptedOf(rest, normalize));
      assert AcceptedOf(parts, normalize) == [Accepted(parts[0], normalize)] + AcceptedOf(rest, normalize);
    }
  }

  lemma UnionOfMore(first: set<Item>, rest: seq<set<Item>>)
    ensures Union([first] + rest) == first + Union(rest)
  {
    var all := [first] + rest;
    forall x ensures x in Union(all) <==> x in first || x in Union(rest) {
      if x in first { assert x in all[0]; }
      if x in Union(rest) {
        var k :| 0 <= k < |rest| && x in rest[k];
        assert x in all[k + 1];
      }
    }
  }

  lemma AcceptedConcat<V>(a: seq<V>, b: seq<V>, normalize: V -> Option<Item>)
    ensures Accepted(a + b, normalize) == Accepted(a, normalize) + Accepted(b, normalize)
  {
    forall x ensures x in Accepted(a + b, normalize) <==> x in Accepted(a, normalize) || x in Accepted(b, normalize) {
      if x in Accepted(a, normalize) {
        var i :| 0 <= i < |a| && normalize(a[i]) == Some(x);
        assert (a + b)[i] == a[i];
      }
      if x in Accepted(b, normalize) {
        var i :| 0 <= i < |b| && normalize(b[i]) == Some(x);
        assert (a + b)[|a| + i] == b[i];
      }
    }
  }

  /** Every item of the results is a normalised one. */
  lemma ListedAreNormalized<V>(parts: seq<seq<V>>, results: seq<seq<Item>>, x: Item, normalize: V -> Option<Item>,
                               lower: string -> string, json: Item -> string, encoded: Item -> seq<byte>)
                                   returns (value: V)
    requires AreWholeResultsOf(parts, results, normalize, lower, json, encoded) && x in Listed(results)
    ensures normalize(value) == Some(x)
  {
    var sets := AcceptedOf(parts, normalize);
    WholeResultsAreListings(sets, results, lower, json, encoded);
    ListedAreParts(sets, results, lower, json);
    var k :| 0 <= k < |sets| && x in sets[k];
    var i :| 0 <= i < |parts[k]| && normalize(parts[k][i]) == Some(x);
    value := parts[k][i];
  }

  /** The merge. What untruncated results of several lists of values give is the result of all the values
      at once, unless the cut to a text's length left a blank at its end. */
  method MergeServiceInventoryResults(
    results: seq<seq<Item>>, lower: string -> string, isSpace: char -> bool, stateOf: string -> State,
    json: Item -> string, encoded: Item -> seq<byte>)
    returns (items: seq<Item>, truncated: bool)
    requires Injective(json) && IsLibrary(lower, isSpace)
    ensures IsResult(Accepted(Flatten(results), Renormalizer(lower, isSpace, stateOf)), items, truncated, lower, json,
                     encoded)
    ensures forall parts ::
              && AreWholeResultsOf(parts, results, Normalizer(lower, isSpace, stateOf), lower, json, encoded)
              && (forall x :: x in Listed(results) ==> !HasBlankEnd(x))
              ==> IsResult(Accepted(Flatten(parts), Normalizer(lower, isSpace, stateOf)), items, truncated, lower, json,
                           encoded)
  {
    items, truncated := NormalizeServiceInventoryResult(
      Flatten(results), Renormalizer(lower, isSpace, stateOf), lower, json, encoded);
    forall parts | AreWholeResultsOf(parts, results, Normalizer(lower, isSpace, stateOf), lower, json, encoded)
                   && (forall x :: x in Listed(results) ==> !HasBlankEnd(x))
      ensures IsResult(Accepted(Flatten(parts), Normalizer(lower, isSpace, stateOf)), items, truncated, lower, json,
                       encoded)
    {
      MergedIsNormalized(parts, results, items, truncated, lower, isSpace, stateOf, json, encoded);
    }
  }

  lemma MergedIsNormalized(
    parts: seq<seq<Value>>, results: seq<seq<Item>>, items: seq<Item>, truncated: bool,
    lower: string -> string, isSpace: char -> bool, stateOf: string -> State, json: Item -> string,
        encoded: Item -> seq<byte>)
    requires Injective(json) && IsLibrary(lower, isSpace) && forall x :: x in Listed(results) ==> !HasBlankEnd(x)
    requires AreWholeResultsOf(parts, results, Normalizer(lower, isSpace, stateOf), lower, json, encoded)
    ensures IsResult(Accepted(Flatten(results), Renormalizer(lower, isSpace, stateOf)), items, truncated, lower, json,
                     encoded)
            <==> IsResult(Accepted(Flatten(parts), Normalizer(lower, isSpace, stateOf)), items, truncated, lower, json,
                          encoded)
  {
    hide NormalizeItem, IsResult, Accepted, HasBlankEnd, IsLibrary, Injective, Listed;
    var normalize, again := Normalizer(lower, isSpace, stateOf), Renormalizer(lower, isSpace, stateOf);
    forall x | x in Listed(results) ensures again(x) == Some(x) {
      var value := ListedAreNormalized(parts, results, x, normalize, lower, json, encoded);
      NormalizeAgainIff(value, x, lower, isSpace, stateOf);
    }
    AcceptedAgain(results, again);
    AcceptedOfParts(parts, normalize);
    MergeIsNormalize(AcceptedOf(parts, normalize), results, items, truncated, lower, json, encoded);
  }

  /** No merged text ends in a blank, whatever was merged. */
  lemma MergedEndInNoBlank(
    parts: seq<seq<Value>>, results: seq<seq<Item>>, items: seq<Item>, truncated: bool, x: Item,
    lower: string -> string, isSpace: char -> bool, stateOf: string -> State, json: Item -> string,
        encoded: Item -> seq<byte>)
    requires IsLibrary(lower, isSpace) && x in items
    requires AreWholeResultsOf(parts, results, Normalizer(lower, isSpace, stateOf), lower, json, encoded)
    requires IsResult(Accepted(Flatten(results), Renormalizer(lower, isSpace, stateOf)), items, truncated, lower, json,
                      encoded)
    ensures !HasBlankEnd(x)
  {
    hide NormalizeItem, HasBlankEnd, IsLibrary, AreWholeResultsOf;
    var normalize, again := Normalizer(lower, isSpace, stateOf), Renormalizer(lower, isSpace, stateOf);
    var y := FromResult(Accepted(Flatten(results), again), items, truncated, x, lower, json, encoded);
    var values := Flatten(results);
    var i :| 0 <= i < |values| && again(values[i]) == Some(x);
    FlattenListed(results);
    assert values[i] in Listed(results);
    var value := ListedAreNormalized(parts, results, values[i], normalize, lower, json, encoded);
    NormalizeAgainIff(value, values[i], lower, isSpace, stateOf);
  }

  lemma FromResult(accepted: set<Item>, items: seq<Item>, truncated: bool, x: Item,
                   lower: string -> string, json: Item -> string, encoded: Item -> seq<byte>) returns (y: Item)
    requires IsResult(accepted, items, truncated, lower, json, encoded) && x in items
    ensures y == x && x in accepted
  {
    y := x;
    var sorted :| IsListing(accepted, sorted, lower, json) && IsCut(sorted, items, truncated, encoded);
    assert x in sorted;
  }

  /** Merging one untruncated result gives it back exactly if none of its texts ends in a blank. */
  lemma MergeOfOneIff(
    values: seq<Value>, items: seq<Item>, lower: string -> string, isSpace: char -> bool, stateOf: string -> State,
    json: Item -> string, encoded: Item -> seq<byte>)
    requires Injective(json) && IsLibrary(lower, isSpace)
    requires IsResult(Accepted(values, Normalizer(lower, isSpace, stateOf)), items, false, lower, json, encoded)
    ensures IsResult(Accepted(items, Renormalizer(lower, isSpace, stateOf)), items, false, lower, json, encoded)
            <==> forall x :: x in items ==> !HasBlankEnd(x)
  {
    hide NormalizeItem, IsResult, HasBlankEnd, IsLibrary, Injective, Accepted;
    assert Flatten([items]) == items && Flatten([values]) == values by { FlattenOne(items); FlattenOne(values); }
    assert Listed([items]) == set x | x in items;
    if IsResult(Accepted(items, Renormalizer(lower, isSpace, stateOf)), items, false, lower, json, encoded) {
      forall x | x in items ensures !HasBlankEnd(x) {
        MergedEndInNoBlank([values], [items], items, false, x, lower, isSpace, stateOf, json, encoded);
      }
    } else if forall x :: x in items ==> !HasBlankEnd(x) {
      MergedIsNormalized([values], [items], items, false, lower, isSpace, stateOf, json, encoded);
    }
  }

  /** One item that fits is its own result, and is so again after merging exactly if no text ends in a blank. */
  lemma MergeOfOneItemIff(
    value: Value, i: Item, lower: string -> string, isSpace: char -> bool, stateOf: string -> State,
    json: Item -> string, encoded: Item -> seq<byte>)
    requires Injective(json) && IsLibrary(lower, isSpace)
    requires NormalizeItem(value, lower, isSpace, stateOf) == Some(i) && Fits([i], encoded)
    ensures IsResult(Accepted([value], Normalizer(lower, isSpace, stateOf)), [i], false, lower, json, encoded)
    ensures IsResult(Accepted([i], Renormalizer(lower, isSpace, stateOf)), [i], false, lower, json, encoded) <==>
        !HasBlankEnd(i)
  {
    hide NormalizeItem, IsLibrary, Fits, HasBlankEnd, Injective;
    var normalize := Normalizer(lower, isSpace, stateOf);
    assert normalize([value][0]) == Some(i);
    assert Accepted([value], normalize) == {i};
    OneIsItsListing(i, lower, json);
    assert [i][..1] == [i];
    assert IsCut([i], [i], false, encoded);
    hide IsResult;
    MergeOfOneIff([value], [i], lower, isSpace, stateOf, json, encoded);
    assert i in [i];
  }

  lemma OneIsItsListing(i: Item, lower: string -> string, json: Item -> string)
    ensures IsListing({i}, [i], lower, json)
  {
  }

  lemma FlattenOne<T>(list: seq<T>)
    ensures Flatten([list]) == list
  {
    assert Flatten([list]) == list + Flatten([list][1..]);
  }

  // ---------- A name that is cut after a blank ----------

  function Letters(n: nat): string { seq(n, _ => 'a') }

  /** A name of 255 letters, a blank and a letter. */
  function LongNamed(): Value {
    Value("systemd", "service", Letters(255) + " b", "running", "enabled", "", "")
  }

  lemma LongNameIsCut(isSpace: char -> bool)
    requires isSpace(' ') && !isSpace('a') && !isSpace('b')
    ensures CleanText(Letters(255) + " b", isSpace, 256) == Letters(255) + " "
    ensures CleanText(Letters(255) + " ", isSpace, 256) == Letters(255)
  {
    hide Collapse, StripControl;
    var long, cut := Letters(255) + " b", Letters(255) + " ";
    StripControlKeeps(long);
    StripControlKeeps(cut);
    CollapseKeeps(long, isSpace);
    CollapseKeeps(cut, isSpace);
    assert long[..256] == cut;
    assert cut[..255] == Letters(255);
  }

  /** It comes out with the blank at its end, and merging it takes the blank away: another item, under
      another key. */
  lemma LongNameIsNotKept(lower: string -> string, isSpace: char -> bool, stateOf: string -> State)
    requires IsLibrary(lower, isSpace)
    ensures var i := NormalizeItem(LongNamed(), lower, isSpace, stateOf);
            && i.Some? && i.value.name == Letters(255) + " " && HasBlankEnd(i.value)
            && NormalizeItem(AsValue(i.value), lower, isSpace, stateOf) == Some(i.value.(name := Letters(255)))
  {
    assert IsPlain('a') && IsPlain('b');
    LongNameIsCut(isSpace);
    SourceAgain(Systemd, lower, isSpace);
    NothingIsClean(isSpace);
    hide CleanText, Letters, NormalizeState, NormalizeAutostart;
    var i := NormalizeItem(LongNamed(), lower, isSpace, stateOf).value;
    NormalizeAgain(i, lower, isSpace, stateOf);
  }

  lemma NothingIsClean(isSpace: char -> bool)
    ensures CleanText("", isSpace, 512) == "" && CleanText("", isSpace, 128) == ""
  {
  }
}
