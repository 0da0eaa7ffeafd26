/** When a walk over a transfer source gets through, and what it then skips and counts, said of the tree alone:
    `describeTransferPlan` of apps/electerm-agent/src/app/lib/local-transfer-source-plan.js. */
module TransferOutcome {
  import opened Prelude
  import opened Utf8
  import opened TransferPlan

  // ---------- The tree without a walk ----------

  /** Why a path is skipped before anything below it is looked at: its pin, or a fault. */
  function EarlySkip(node: Node, path: Path, pins: map<Path, Code>): Option<Code> {
    if path in pins then Some(pins[path])
    else if node.lstat.Some? then node.lstat
    else if node.body.DirectoryBody? then node.body.readdir
    else None
  }

  /** Why it is skipped after that. */
  function LateSkip(node: Node): Option<Code> {
    if node.body.FileBody? && node.body.stream.Some? then node.body.stream else node.lstatAfter
  }

  predicate IsSkipped(node: Node, path: Path, pins: map<Path, Code>) {
    EarlySkip(node, path, pins).Some? || LateSkip(node).Some?
  }

  /** The paths skipped at and below one, in the order of the walk: a directory after its entries. */
  function SkipsAt(node: Node, path: Path, pins: map<Path, Code>): seq<Skip>
    decreases node, 1
  {
    var early := EarlySkip(node, path, pins);
    if early.Some? then [Skip(path, early.value)]
    else
      (match node.body case DirectoryBody(_, children) => SkipsBelow(children, path, pins) case _ => [])
      + match LateSkip(node) case Some(code) => [Skip(path, code)] case None => []
  }

  function SkipsBelow(children: Children, path: Path, pins: map<Path, Code>): seq<Skip>
    decreases children, 0
  {
    match children
    case NoMore => []
    case Entry(name, node, rest) => SkipsAt(node, path + [name], pins) + SkipsBelow(rest, path, pins)
  }

  /** How many paths are looked at. */
  function Visited(node: Node, path: Path, pins: map<Path, Code>): nat
    decreases node, 1
  {
    match node.body
    case DirectoryBody(_, children) =>
      if EarlySkip(node, path, pins).Some? then 1 else 1 + VisitedBelow(children, path, pins)
    case _ => 1
  }

  function VisitedBelow(children: Children, path: Path, pins: map<Path, Code>): nat
    decreases children, 0
  {
    match children
    case NoMore => 0
    case Entry(name, node, rest) => Visited(node, path + [name], pins) + VisitedBelow(rest, path, pins)
  }

  /** The bytes of the files that are described. */
  function Size(node: Node, path: Path, pins: map<Path, Code>): nat
    decreases node, 1
  {
    if EarlySkip(node, path, pins).Some? then 0
    else
      match node.body
      case FileBody(_, _) => if LateSkip(node).Some? then 0 else node.stat.size
      case DirectoryBody(_, children) => SizeBelow(children, path, pins)
      case _ => 0
  }

  function SizeBelow(children: Children, path: Path, pins: map<Path, Code>): nat
    decreases children, 0
  {
    match children
    case NoMore => 0
    case Entry(name, node, rest) => Size(node, path + [name], pins) + SizeBelow(rest, path, pins)
  }

  /** The most bytes that are asked for at a time: those described before, and a file that is yet to be read. */
  function Peak(node: Node, path: Path, pins: map<Path, Code>): nat
    decreases node, 1
  {
    if EarlySkip(node, path, pins).Some? then 0
    else
      match node.body
      case FileBody(_, _) => node.stat.size
      case DirectoryBody(_, children) => PeakBelow(children, path, pins)
      case _ => 0
  }

  function PeakBelow(children: Children, path: Path, pins: map<Path, Code>): nat
    decreases children, 0
  {
    match children
    case NoMore => 0
    case Entry(name, node, rest) =>
      Max(Peak(node, path + [name], pins), Size(node, path + [name], pins) + PeakBelow(rest, path, pins))
  }

  /** Nothing that is looked at lies too deep. */
  predicate NotTooDeep(node: Node, path: Path, pins: map<Path, Code>, maxDepth: nat)
    decreases node, 1
  {
    && |path| <= maxDepth
    && match node.body
       case DirectoryBody(_, children) =>
         EarlySkip(node, path, pins).Some? || NoneTooDeep(children, path, pins, maxDepth)
       case _ => true
  }

  predicate NoneTooDeep(children: Children, path: Path, pins: map<Path, Code>, maxDepth: nat)
    decreases children, 0
  {
    match children
    case NoMore => true
    case Entry(name, node, rest) =>
      NotTooDeep(node, path + [name], pins, maxDepth) && NoneTooDeep(rest, path, pins, maxDepth)
  }

  predicate IsSame(a: Stat, b: Stat) { a.size == b.size && a.mode == b.mode && a.stamp == b.stamp }

  /** The error for a fault that may not be skipped. */
  function FaultOf(skip: Option<Code>, allowSkips: bool): set<Failure> {
    if skip.Some? && !(allowSkips && skip.value != OtherCode) then {Unreadable(skip.value)} else {}
  }

  /** The errors that what is looked at gives by itself, at the path and below: faults that may not be skipped,
      links, special files, invalid names, and what changed while it was read. */
  function Faults(node: Node, path: Path, pins: map<Path, Code>, allowSkips: bool): set<Failure>
    decreases node, 1
  {
    var early := EarlySkip(node, path, pins);
    if path in pins then {}
    else if early.Some? then FaultOf(early, allowSkips)
    else
      match node.body
      case SymbolicLink => {Link}
      case SpecialFile => {Special}
      case FileBody(bytes, _) =>
        FaultOf(LateSkip(node), allowSkips)
        + if LateSkip(node).Some? || (IsSame(node.stat, node.statAfter) && |bytes| == node.stat.size)
          then {} else {Changed}
      case DirectoryBody(_, children) =>
        FaultsBelow(children, path, pins, allowSkips) + FaultOf(LateSkip(node), allowSkips)
        + if LateSkip(node).Some? || IsSame(node.stat, node.statAfter) then {} else {Changed}
  }

  function FaultsBelow(children: Children, path: Path, pins: map<Path, Code>, allowSkips: bool): set<Failure>
    decreases children, 0
  {
    match children
    case NoMore => {}
    case Entry(name, node, rest) =>
      (if name in {"", ".", ".."} || '/' in name || '\\' in name then {InvalidName} else {})
      + Faults(node, path + [name], pins, allowSkips) + FaultsBelow(rest, path, pins, allowSkips)
  }

  // ---------- The walk does just that ----------

  /** At and below the path the walk has just these pins. */
  ghost predicate HasPins(context: Context, pins: map<Path, Code>, path: Path) {
    forall p :: path <= p ==>
      && (p in pins <==> context.allowSkips && p in context.pinned) && (p in pins ==> pins[p] == context.pinned[p])
  }

  ghost predicate HasPinsBelow(context: Context, pins: map<Path, Code>, path: Path, names: set<string>) {
    forall p :: |path| < |p| && path <= p && p[|path|] in names ==>
      && (p in pins <==> context.allowSkips && p in context.pinned) && (p in pins ==> pins[p] == context.pinned[p])
  }

  /** The walk gets through. */
  predicate Passes(node: Node, path: Path, context: Context, limits: Limits, pins: map<Path, Code>) {
    && Faults(node, path, pins, context.allowSkips) == {} && NotTooDeep(node, path, pins, limits.maxDepth)
    && Visited(node, path, pins) <= context.remainingNodes
    && context.totalBytes + Peak(node, path, pins) <= limits.maxTotalBytes
  }

  predicate AllPass(children: Children, path: Path, context: Context, limits: Limits, pins: map<Path, Code>) {
    && FaultsBelow(children, path, pins, context.allowSkips) == {} && NoneTooDeep(children, path, pins, limits.maxDepth)
    && VisitedBelow(children, path, pins) <= context.remainingNodes
    && context.totalBytes + PeakBelow(children, path, pins) <= limits.maxTotalBytes
  }

  /** What it has then counted and skipped. */
  predicate Counts(before: Context, after: Context, skips: seq<Skip>, visited: nat, size: nat) {
    && after.skipped == before.skipped + skips && after.remainingNodes + visited == before.remainingNodes
    && after.totalBytes == before.totalBytes + size && after.allowSkips == before.allowSkips
  }

  /** The walk of a path ends so exactly if it passes; then it has skipped and counted what the tree says. */
  predicate IsWalk(node: Node, path: Path, context: Context, limits: Limits, pins: map<Path, Code>,
                   result: (Outcome, Context)) {
    && (!result.0.Failed? <==> Passes(node, path, context, limits, pins))
    && (!result.0.Failed? ==>
          && (result.0.Skipped? <==> IsSkipped(node, path, pins))
          && Counts(context, result.1, SkipsAt(node, path, pins), Visited(node, path, pins), Size(node, path, pins)))
  }

  predicate IsListing(children: Children, path: Path, context: Context, limits: Limits, pins: map<Path, Code>,
                      result: (Entries, Context)) {
    && (result.0.Listed? <==> AllPass(children, path, context, limits, pins))
    && (result.0.Listed? ==>
          Counts(context, result.1, SkipsBelow(children, path, pins), VisitedBelow(children, path, pins),
                 SizeBelow(children, path, pins)))
  }

  lemma {:induction false} WalkIff(node: Node, path: Path, context: Context, limits: Limits, pins: map<Path, Code>,
                                   digest: seq<byte> -> seq<byte>)
    requires DistinctNames(node) && HasPins(context, pins, path) && context.totalBytes <= limits.maxTotalBytes
    ensures IsWalk(node, path, context, limits, pins, Describe(node, path, context, limits, digest))
    decreases node, 1
  {
    assert path in pins <==> context.allowSkips && path in context.pinned;
    assert path in pins ==> pins[path] == context.pinned[path];
    if EarlySkip(node, path, pins).Some? || !node.body.DirectoryBody? || |path| > limits.maxDepth
       || context.remainingNodes == 0 {
      LeafIff(node, path, context, limits, pins, digest);
    } else {
      var counted := Counted(context);
      assert HasPinsBelow(counted, pins, path, Names(node.body.children));
      ListIff(node.body.children, path, counted, limits, pins, digest);
      DirectoryIff(node, path, context, limits, pins, digest);
    }
    hide Describe, HasPins, HasPinsBelow, IsWalk, IsListing, DistinctNames;
  }

  ghost predicate TakesPin(context: Context, pins: map<Path, Code>, path: Path) {
    (path in pins <==> context.allowSkips && path in context.pinned)
    && (path in pins ==> pins[path] == context.pinned[path])
  }

  /** What is not looked into. */
  lemma LeafIff(node: Node, path: Path, context: Context, limits: Limits, pins: map<Path, Code>,
                digest: seq<byte> -> seq<byte>)
    requires TakesPin(context, pins, path) && context.totalBytes <= limits.maxTotalBytes
    requires EarlySkip(node, path, pins).Some? || !node.body.DirectoryBody? || |path| > limits.maxDepth
             || context.remainingNodes == 0
    ensures IsWalk(node, path, context, limits, pins, Describe(node, path, context, limits, digest))
  {
    hide DescribeChildren, FaultsBelow, NoneTooDeep, SkipsBelow, VisitedBelow, SizeBelow, PeakBelow, Head;
  }

  lemma DirectoryIff(node: Node, path: Path, context: Context, limits: Limits, pins: map<Path, Code>,
                     digest: seq<byte> -> seq<byte>)
    requires TakesPin(context, pins, path) && EarlySkip(node, path, pins).None? && node.body.DirectoryBody?
    requires |path| <= limits.maxDepth && context.remainingNodes > 0
    requires IsListing(node.body.children, path, Counted(context), limits, pins,
                       DescribeChildren(node.body.children, path, Counted(context), limits, digest))
    ensures IsWalk(node, path, context, limits, pins, Describe(node, path, context, limits, digest))
  {
    hide DescribeChildren, FaultsBelow, NoneTooDeep, SkipsBelow, VisitedBelow, SizeBelow, PeakBelow, Head;
  }

  lemma {:induction false} ListIff(children: Children, path: Path, context: Context, limits: Limits,
                                   pins: map<Path, Code>, digest: seq<byte> -> seq<byte>)
    requires DistinctChildren(children) && HasPinsBelow(context, pins, path, Names(children))
    requires context.totalBytes <= limits.maxTotalBytes
    ensures IsListing(children, path, context, limits, pins,
                      DescribeChildren(children, path, context, limits, digest))
    decreases children, 0
  {
    if children.Entry? && ValidName(children.name) {
      var name, node, rest := children.name, children.node, children.rest;
      assert HasPins(context, pins, path + [name]);
      hide Describe, DescribeChildren, HasPins, IsWalk, IsListing, Walks, DistinctNames;
      WalkIff(node, path + [name], context, limits, pins, digest);
      var (outcome, after) := Describe(node, path + [name], context, limits, digest);
      if outcome.Failed? {
        FirstFails(children, path, context, limits, pins, digest);
      } else {
        DescribeWalks(node, path + [name], context, limits, digest);
        PinsOfOthers(context, after, pins, path, name, Names(rest));
        assert after.totalBytes <= limits.maxTotalBytes by { StaysWithin(node, path + [name], context, limits, pins,
                                                                         outcome, after); }
        ListIff(rest, path, after, limits, pins, digest);
        FirstPasses(children, path, context, limits, pins, digest);
      }
    } else {
      NoFirst(children, path, context, limits, pins, digest);
    }
  }

  lemma StaysWithin(node: Node, path: Path, context: Context, limits: Limits, pins: map<Path, Code>, outcome: Outcome,
                    after: Context)
    requires !outcome.Failed? && IsWalk(node, path, context, limits, pins, (outcome, after))
    ensures after.totalBytes <= limits.maxTotalBytes
  {
    SizeWithinPeak(node, path, pins);
    hide Size, Peak, SkipsAt, Faults, NotTooDeep;
  }

  lemma NoFirst(children: Children, path: Path, context: Context, limits: Limits, pins: map<Path, Code>,
                digest: seq<byte> -> seq<byte>)
    requires children.NoMore? || !ValidName(children.name)
    requires context.totalBytes <= limits.maxTotalBytes
    ensures IsListing(children, path, context, limits, pins,
                      DescribeChildren(children, path, context, limits, digest))
  {
    hide Describe, Faults, Visited, Size, Peak, NotTooDeep, SkipsAt;
  }

  lemma FirstFails(children: Children, path: Path, context: Context, limits: Limits, pins: map<Path, Code>,
                   digest: seq<byte> -> seq<byte>)
    requires children.Entry? && ValidName(children.name)
    requires var result := Describe(children.node, path + [children.name], context, limits, digest);
             result.0.Failed? && IsWalk(children.node, path + [children.name], context, limits, pins, result)
    ensures IsListing(children, path, context, limits, pins,
                      DescribeChildren(children, path, context, limits, digest))
  {
    hide Describe, Faults, Visited, Size, Peak, NotTooDeep, SkipsAt;
  }

  lemma FirstPasses(children: Children, path: Path, context: Context, limits: Limits, pins: map<Path, Code>,
                    digest: seq<byte> -> seq<byte>)
    requires children.Entry? && ValidName(children.name)
    requires var (outcome, after) := Describe(children.node, path + [children.name], context, limits, digest);
             && !outcome.Failed?
             && IsWalk(children.node, path + [children.name], context, limits, pins, (outcome, after))
             && IsListing(children.rest, path, after, limits, pins,
                          DescribeChildren(children.rest, path, after, limits, digest))
    ensures IsListing(children, path, context, limits, pins,
                      DescribeChildren(children, path, context, limits, digest))
  {
    hide Describe, Faults, Visited, Size, Peak, NotTooDeep, SkipsAt;
  }

  /** The walk of one entry takes no pins of the others. */
  lemma PinsOfOthers(before: Context, after: Context, pins: map<Path, Code>, path: Path, name: string,
                     names: set<string>)
    requires Walks(before, after, path + [name]) && name !in names && HasPinsBelow(before, pins, path, names)
    ensures HasPinsBelow(after, pins, path, names)
  {
    forall p | |path| < |p| && path <= p && p[|path|] in names
      ensures p in before.pinned <==> p in after.pinned
      ensures p in before.pinned ==> after.pinned[p] == before.pinned[p]
    {
      assert !(path + [name] <= p) by { assert (path + [name])[|path|] == name; }
    }
  }

  lemma {:induction false} SizeWithinPeak(node: Node, path: Path, pins: map<Path, Code>)
    ensures Size(node, path, pins) <= Peak(node, path, pins)
    decreases node, 1
  {
    if node.body.DirectoryBody? { SizeBelowWithinPeak(node.body.children, path, pins); }
  }

  lemma {:induction false} SizeBelowWithinPeak(children: Children, path: Path, pins: map<Path, Code>)
    ensures SizeBelow(children, path, pins) <= PeakBelow(children, path, pins)
    decreases children, 0
  {
    if children.Entry? {
      SizeWithinPeak(children.node, path + [children.name], pins);
      SizeBelowWithinPeak(children.rest, path, pins);
    }
  }

  // ---------- Pins are taken once ----------

  /** A pin goes exactly when its path is recorded as skipped. */
  ghost predicate Takes(before: Context, after: Context) {
    && before.skipped <= after.skipped && after.allowSkips == before.allowSkips
    && (before.allowSkips ==> after.pinned == before.pinned - PathsOf(NewSkips(before, after)))
  }

  lemma TakesNone(context: Context, after: Context)
    requires after.skipped == context.skipped && after.pinned == context.pinned
        && after.allowSkips == context.allowSkips
    ensures Takes(context, after)
  {
    assert NewSkips(context, after) == [] && PathsOf([]) == {};
  }

  lemma TakesOne(context: Context, after: Context, path: Path, code: Code)
    requires after.skipped == context.skipped + [Skip(path, code)] && after.allowSkips == context.allowSkips
    requires context.allowSkips ==> after.pinned == context.pinned - {path}
    ensures Takes(context, after)
  {
    var skips := NewSkips(context, after);
    assert skips == [Skip(path, code)] && skips[0] == Skip(path, code);
    assert PathsOf(skips) == {path};
  }

  lemma TakesBoth(a: Context, b: Context, c: Context)
    requires Takes(a, b) && Takes(b, c)
    ensures Takes(a, c)
  {
    SkipsOfTwo(a, b, c);
    hide PathsOf, NewSkips;
  }

  lemma FaultTakes(context: Context, path: Path, code: Code)
    requires context.allowSkips ==> path !in context.pinned
    ensures Takes(context, OnFault(context, path, code).1)
  {
    if context.allowSkips && Skippable(code) {
      assert context.pinned - {path} == context.pinned;
      TakesOne(context, OnFault(context, path, code).1, path, code);
    } else {
      TakesNone(context, context);
    }
  }

  lemma FileTakes(node: Node, path: Path, context: Context, limits: Limits, digest: seq<byte> -> seq<byte>)
    requires node.body.FileBody? && (context.allowSkips ==> path !in context.pinned)
    ensures Takes(context, DescribeFile(node, path, context, limits, digest).1)
  {
    if node.body.stream.Some? { FaultTakes(context, path, node.body.stream.value); }
    if node.lstatAfter.Some? { FaultTakes(context, path, node.lstatAfter.value); }
    TakesNone(context, context);
    TakesNone(context, context.(totalBytes := context.totalBytes + node.stat.size));
    hide Takes, OnFault;
  }

  lemma DirectoryTakes(node: Node, path: Path, listed: Entries, context: Context)
    requires context.allowSkips ==> path !in context.pinned
    ensures Takes(context, DescribeDirectory(node, path, listed, context).1)
  {
    if node.lstatAfter.Some? { FaultTakes(context, path, node.lstatAfter.value); }
    TakesNone(context, context);
    hide Takes, OnFault;
  }

  /** In every walk, also one that fails. */
  lemma {:induction false} PinsAreTaken(node: Node, path: Path, context: Context, limits: Limits,
                                        digest: seq<byte> -> seq<byte>)
    ensures Takes(context, Describe(node, path, context, limits, digest).1)
    decreases node, 1
  {
    hide Takes, DescribeChildren, DescribeFile, DescribeDirectory, OnFault;
    var counted := Counted(context);
    TakesNone(context, context);
    TakesNone(context, counted);
    if |path| > limits.maxDepth || context.remainingNodes == 0 {
    } else {
      var after := Describe(node, path, context, limits, digest).1;
      if counted.allowSkips && path in counted.pinned {
        TakesOne(counted, after, path, counted.pinned[path]);
      } else if node.lstat.Some? {
        FaultTakes(counted, path, node.lstat.value);
      } else if node.body.FileBody? {
        FileTakes(node, path, counted, limits, digest);
      } else if node.body.DirectoryBody? && node.body.readdir.Some? {
        FaultTakes(counted, path, node.body.readdir.value);
      } else if node.body.DirectoryBody? {
        var (listed, walked) := DescribeChildren(node.body.children, path, counted, limits, digest);
        ListTakes(node.body.children, path, counted, limits, digest);
        TakesLess(counted, walked, path);
        DirectoryTakes(node, path, listed, walked);
        TakesBoth(counted, walked, after);
      } else {
        TakesNone(counted, after);
      }
      TakesBoth(context, counted, after);
    }
  }

  lemma TakesLess(before: Context, after: Context, path: Path)
    requires Takes(before, after) && (before.allowSkips ==> path !in before.pinned)
    ensures after.allowSkips ==> path !in after.pinned
  {
  }

  lemma {:induction false} ListTakes(children: Children, path: Path, context: Context, limits: Limits,
                                     digest: seq<byte> -> seq<byte>)
    ensures Takes(context, DescribeChildren(children, path, context, limits, digest).1)
    decreases children, 0
  {
    hide Takes, Describe;
    TakesNone(context, context);
    if children.Entry? && ValidName(children.name) {
      PinsAreTaken(children.node, path + [children.name], context, limits, digest);
      var after := Describe(children.node, path + [children.name], context, limits, digest).1;
      ListTakes(children.rest, path, after, limits, digest);
      TakesBoth(context, after, DescribeChildren(children.rest, path, after, limits, digest).1);
    }
  }

  // ---------- Why a walk fails ----------

  /** Each error has its own cause. */
  predicate Explains(failure: Failure, context: Context, faults: set<Failure>, notTooDeep: bool, visited: nat,
                     peak: nat, limits: Limits) {
    match failure
    case TooDeep => !notTooDeep
    case TooManyNodes => visited > context.remainingNodes
    case TooManyBytes => context.totalBytes + peak > limits.maxTotalBytes
    case _ => failure in faults
  }

  predicate IsCause(failure: Failure, node: Node, path: Path, context: Context, limits: Limits,
                    pins: map<Path, Code>) {
    Explains(failure, context, Faults(node, path, pins, context.allowSkips),
             NotTooDeep(node, path, pins, limits.maxDepth), Visited(node, path, pins), Peak(node, path, pins), limits)
  }

  predicate IsCauseBelow(failure: Failure, children: Children, path: Path, context: Context, limits: Limits,
                         pins: map<Path, Code>) {
    Explains(failure, context, FaultsBelow(children, path, pins, context.allowSkips),
             NoneTooDeep(children, path, pins, limits.maxDepth), VisitedBelow(children, path, pins),
             PeakBelow(children, path, pins), limits)
  }

  lemma {:induction false} FailureCause(node: Node, path: Path, context: Context, limits: Limits,
                                        pins: map<Path, Code>, digest: seq<byte> -> seq<byte>)
    requires DistinctNames(node) && HasPins(context, pins, path) && context.totalBytes <= limits.maxTotalBytes
    requires Describe(node, path, context, limits, digest).0.Failed?
    ensures IsCause(Describe(node, path, context, limits, digest).0.failure, node, path, context, limits, pins)
    decreases node, 1
  {
    assert TakesPin(context, pins, path);
    if EarlySkip(node, path, pins).None? && node.body.DirectoryBody? && |path| <= limits.maxDepth
       && context.remainingNodes > 0 {
      var counted := Counted(context);
      assert HasPinsBelow(counted, pins, path, Names(node.body.children));
      if DescribeChildren(node.body.children, path, counted, limits, digest).0.ListFailed? {
        ListFailureCause(node.body.children, path, counted, limits, pins, digest);
      } else {
        ListIff(node.body.children, path, counted, limits, pins, digest);
      }
    }
    hide HasPins, HasPinsBelow, DistinctNames, DescribeChildren, IsListing, FaultsBelow, NoneTooDeep, VisitedBelow,
        PeakBelow, Head;
  }

  lemma {:induction false} ListFailureCause(children: Children, path: Path, context: Context, limits: Limits,
                                            pins: map<Path, Code>, digest: seq<byte> -> seq<byte>)
    requires DistinctChildren(children) && HasPinsBelow(context, pins, path, Names(children))
    requires context.totalBytes <= limits.maxTotalBytes
    requires DescribeChildren(children, path, context, limits, digest).0.ListFailed?
    ensures IsCauseBelow(DescribeChildren(children, path, context, limits, digest).0.failure, children, path, context,
                         limits, pins)
    decreases children, 0
  {
    if ValidName(children.name) {
      var name, node, rest := children.name, children.node, children.rest;
      assert HasPins(context, pins, path + [name]);
      var (outcome, after) := Describe(node, path + [name], context, limits, digest);
      hide Describe, DescribeChildren, HasPins, Walks, DistinctNames, IsWalk, IsCause, IsCauseBelow;
      if outcome.Failed? {
        FailureCause(node, path + [name], context, limits, pins, digest);
        FirstCause(children, path, context, limits, pins, digest);
      } else {
        DescribeWalks(node, path + [name], context, limits, digest);
        PinsOfOthers(context, after, pins, path, name, Names(rest));
        WalkIff(node, path + [name], context, limits, pins, digest);
        StaysWithin(node, path + [name], context, limits, pins, outcome, after);
        assert DescribeChildren(rest, path, after, limits, digest).0.ListFailed? by {
          UnfoldChildren(children, path, context, limits, digest);
        }
        ListFailureCause(rest, path, after, limits, pins, digest);
        LaterCause(children, path, context, limits, pins, digest);
      }
    }
  }

  lemma FirstCause(children: Children, path: Path, context: Context, limits: Limits, pins: map<Path, Code>,
                   digest: seq<byte> -> seq<byte>)
    requires children.Entry? && ValidName(children.name)
    requires var outcome := Describe(children.node, path + [children.name], context, limits, digest).0;
             && outcome.Failed?
             && IsCause(outcome.failure, children.node, path + [children.name], context, limits, pins)
    ensures var listed := DescribeChildren(children, path, context, limits, digest).0;
            listed.ListFailed? && IsCauseBelow(listed.failure, children, path, context, limits, pins)
  {
    hide Describe, Faults, Visited, Size, Peak, NotTooDeep;
  }

  lemma LaterCause(children: Children, path: Path, context: Context, limits: Limits, pins: map<Path, Code>,
                   digest: seq<byte> -> seq<byte>)
    requires children.Entry? && ValidName(children.name)
    requires var (outcome, after) := Describe(children.node, path + [children.name], context, limits, digest);
             var rest := DescribeChildren(children.rest, path, after, limits, digest).0;
             && !outcome.Failed?
             && IsWalk(children.node, path + [children.name], context, limits, pins, (outcome, after))
             && rest.ListFailed? && IsCauseBelow(rest.failure, children.rest, path, after, limits, pins)
    ensures var listed := DescribeChildren(children, path, context, limits, digest).0;
            listed.ListFailed? && IsCauseBelow(listed.failure, children, path, context, limits, pins)
  {
    hide Describe, Faults, Visited, Size, Peak, NotTooDeep, SkipsAt;
  }

  /** `prepareTransferEntry`: skips are allowed, and pins are taken. */
  lemma PrepareIff(node: Node, pins: map<Path, Code>, limits: Limits, maxNodes: nat, digest: seq<byte> -> seq<byte>)
    requires DistinctNames(node)
    ensures var (outcome, after) := Prepare(node, pins, limits, maxNodes, digest);
            && (!outcome.Failed? <==>
                  && Faults(node, [], pins, true) == {} && NotTooDeep(node, [], pins, limits.maxDepth)
                  && Visited(node, [], pins) <= maxNodes && Peak(node, [], pins) <= limits.maxTotalBytes)
            && (!outcome.Failed? ==>
                  after.skipped == SkipsAt(node, [], pins) && (outcome.Skipped? <==> IsSkipped(node, [], pins)))
  {
    hide Describe;
    WalkIff(node, [], Fresh(maxNodes, pins), limits, pins, digest);
  }

  /** `describeTransferEntry`: no fault is tolerated, and what gets through is described whole. */
  lemma DescribeIff(node: Node, limits: Limits, maxNodes: nat, digest: seq<byte> -> seq<byte>)
    requires DistinctNames(node)
    ensures var (outcome, after) := Describe(node, [], Context(false, map[], [], maxNodes, 0), limits, digest);
            && (!outcome.Failed? <==>
                  && Faults(node, [], map[], false) == {} && NotTooDeep(node, [], map[], limits.maxDepth)
                  && Visited(node, [], map[]) <= maxNodes && Size(node, [], map[]) <= limits.maxTotalBytes)
            && (!outcome.Failed? ==>
                  outcome.Described? && after.skipped == []
                  && Ideal(node, [], {}, digest) == Some(outcome.descriptor))
  {
    var context := Context(false, map[], [], maxNodes, 0);
    WalkIff(node, [], context, limits, map[], digest);
    if Faults(node, [], map[], false) == {} { NothingSkipped(node, []); }
    hide Describe;
    var (outcome, after) := Describe(node, [], context, limits, digest);
    if !outcome.Failed? {
      assert NewSkips(context, after) == [] && PathsOf([]) == {};
      DescriptionIsIdeal(node, [], context, limits, {}, digest);
    }
  }

  lemma {:induction false} NothingSkipped(node: Node, path: Path)
    requires Faults(node, path, map[], false) == {}
    ensures !IsSkipped(node, path, map[]) && SkipsAt(node, path, map[]) == []
    ensures Peak(node, path, map[]) == Size(node, path, map[])
    decreases node, 1
  {
    if node.body.DirectoryBody? { NothingSkippedBelow(node.body.children, path); }
  }

  lemma {:induction false} NothingSkippedBelow(children: Children, path: Path)
    requires FaultsBelow(children, path, map[], false) == {}
    ensures SkipsBelow(children, path, map[]) == []
    ensures PeakBelow(children, path, map[]) == SizeBelow(children, path, map[])
    decreases children, 0
  {
    if children.Entry? {
      NothingSkipped(children.node, path + [children.name]);
      NothingSkippedBelow(children.rest, path);
    }
  }

  // ---------- Which texts name a pin ----------

  /** Both separators are the same to the source. */
  function Slashed(text: string): string {
    seq(|text|, i requires 0 <= i < |text| => if text[i] == '\\' then '/' else text[i])
  }

  predicate IsComponent(name: string) { name !in {"", ".", ".."} && '/' !in name && '\\' !in name }

  /** A letter, a colon and a separator: a path on a drive. */
  predicate OnDrive(text: string) {
    |text| > 2 && text[1] == ':' && text[2] in {'/', '\\'}
    && (65 <= text[0] as int <= 90 || 97 <= text[0] as int <= 122)
  }

  /** A text is taken for a path exactly if it spells that path below the root, and none on a drive. */
  lemma PinPathIff(text: string, path: Path)
    ensures PinPath(text) == Some(path) <==>
              && path != [] && (forall name :: name in path ==> IsComponent(name))
              && Slashed(text) == Joined(path) && !OnDrive(text)
  {
    JoinedSegments(text);
    AbsoluteIff(text);
    hide Slashed, OnDrive, IsAbsolute, Segments, Joined;
    var segments := Segments(text);
    if path != [] && (forall name :: name in path ==> IsComponent(name)) && Slashed(text) == Joined(path) {
      forall i | 0 <= i < |path| ensures ValidName(path[i]) { assert path[i] in path; }
      SegmentsOfJoined(path);
      assert segments == path;
    }
    if PinPath(text) == Some(path) {
      forall name | name in path ensures IsComponent(name) {
        var i :| 0 <= i < |path| && path[i] == name;
      }
    }
    assert forall i :: 0 <= i < |path| ==> path[i] in path;
  }

  lemma AbsoluteIff(text: string)
    ensures text == "" || IsAbsolute(text) <==> OnDrive(text) || Segments(text)[0] == ""
  {
    if text != "" {
      var rest := Segments(text[1..]);
      assert !IsSeparator(text[0]) ==> Segments(text)[0] == [text[0]] + rest[0];
    }
  }

  lemma {:induction false} JoinedSegments(text: string)
    ensures Joined(Segments(text)) == Slashed(text) && Segments(Slashed(text)) == Segments(text)
    ensures forall i :: 0 <= i < |Segments(text)| ==> '/' !in Segments(text)[i] && '\\' !in Segments(text)[i]
  {
    if text != "" {
      JoinedSegments(text[1..]);
      var rest := Segments(text[1..]);
      assert Slashed(text)[1..] == Slashed(text[1..]);
      assert Slashed(text) == [Slashed(text)[0]] + Slashed(text)[1..];
      if IsSeparator(text[0]) {
        assert ([""] + rest)[1..] == rest;
        assert "" + "/" + Joined(rest) == "/" + Slashed(text[1..]);
      } else {
        var first := [text[0]] + rest[0];
        assert ([first] + rest[1..])[1..] == rest[1..];
        assert |rest| > 1 ==> [text[0]] + (rest[0] + "/" + Joined(rest[1..])) == first + "/" + Joined(rest[1..]);
      }
    }
  }

  predicate IsPinRecord(record: SkipRecord) {
    PinPath(record.relativePath).Some? && record.code in {EBUSY, EACCES, EPERM}
  }

  /** The map gives each path of the records, and no other, its code. */
  ghost predicate AreTheirPins(records: seq<SkipRecord>, pins: map<Path, Code>) {
    && (forall i, path :: 0 <= i < |records| && PinPath(records[i].relativePath) == Some(path) ==>
          path in pins && pins[path] == records[i].code)
    && (forall path :: path in pins ==>
          exists i :: 0 <= i < |records| && PinPath(records[i].relativePath) == Some(path))
  }

  /** Records are accepted exactly if each names a path and a code that may be skipped, and no two the same path;
      then each path gets its code. */
  lemma AcceptPinsIff(records: seq<SkipRecord>, pins: map<Path, Code>)
    ensures AcceptPins(records) == Some(pins) <==>
              && (forall i :: 0 <= i < |records| ==> IsPinRecord(records[i]))
              && (forall i, j :: 0 <= i < j < |records| ==>
                    PinPath(records[i].relativePath) != PinPath(records[j].relativePath))
              && AreTheirPins(records, pins)
  {
    hide PinPath, PinMap, AreTheirPins;
    if forall i :: 0 <= i < |records| ==> IsPin(records[i]) {
      var entries := PinsOf(records);
      assert DistinctPaths(entries) <==>
          (forall i, j :: 0 <= i < j < |records| ==>
             PinPath(records[i].relativePath) != PinPath(records[j].relativePath)) by {
        assert forall i :: 0 <= i < |records| ==> PinPath(records[i].relativePath) == Some(entries[i].path);
      }
      if DistinctPaths(entries) { TheirPinsIff(records, pins); }
    }
  }

  lemma TheirPinsIff(records: seq<SkipRecord>, pins: map<Path, Code>)
    requires forall i :: 0 <= i < |records| ==> IsPin(records[i])
    requires DistinctPaths(PinsOf(records))
    ensures AreTheirPins(records, pins) <==> pins == PinMap(PinsOf(records))
  {
    hide PinPath, PinMap, DistinctPaths, AreTheirPins;
    assert AreTheirPins(records, PinMap(PinsOf(records))) by {
      hide PinsOf;
      MapHasPins(records, PinsOf(records));
    }
    if AreTheirPins(records, pins) { OneMap(records, pins, PinMap(PinsOf(records))); }
  }

  lemma MapHasPins(records: seq<SkipRecord>, entries: seq<Skip>)
    requires |entries| == |records| && DistinctPaths(entries)
    requires forall i :: 0 <= i < |records| ==>
               PinPath(records[i].relativePath) == Some(entries[i].path) && entries[i].code == records[i].code
    ensures AreTheirPins(records, PinMap(entries))
  {
    hide PinPath, PinMap, DistinctPaths;
    PinMapKeys(entries);
    forall i | 0 <= i < |entries|
      ensures entries[i].path in PinMap(entries) && PinMap(entries)[entries[i].path] == entries[i].code
    {
      PinMapAt(entries, i);
    }
  }

  lemma OneMap(records: seq<SkipRecord>, a: map<Path, Code>, b: map<Path, Code>)
    requires AreTheirPins(records, a) && AreTheirPins(records, b)
    ensures a == b
  {
    hide PinPath;
    forall path | path in a ensures path in b && a[path] == b[path] {
      var i :| 0 <= i < |records| && PinPath(records[i].relativePath) == Some(path);
    }
    forall path | path in b ensures path in a {
      var i :| 0 <= i < |records| && PinPath(records[i].relativePath) == Some(path);
    }
  }

  lemma {:induction false} PinMapAt(entries: seq<Skip>, i: nat)
    requires DistinctPaths(entries) && i < |entries|
    ensures entries[i].path in PinMap(entries) && PinMap(entries)[entries[i].path] == entries[i].code
    decreases |entries|
  {
    var n := |entries| - 1;
    if i < n { PinMapAt(entries[..n], i); }
  }
}
