/** The description of a local transfer source (apps/electerm-agent/src/app/lib/local-transfer-source-plan.js):
    a walk that may skip what it cannot read, and that repeats an earlier walk when given its skips. */
module TransferPlan {
  import opened Prelude
  import opened Utf8

  /** Error codes; the first three may be skipped. */
  datatype Code = EBUSY | EACCES | EPERM | OtherCode

  predicate Skippable(code: Code) { !code.OtherCode? }

  /** What `lstat` tells; `stamp` stands for device, inode and times. */
  datatype Stat = Stat(mode: nat, uid: Option<nat>, gid: Option<nat>, size: nat, stamp: nat)

  /** What one walk meets at a path: the answers to its calls there, each of which may fail. */
  datatype Node = Node(lstat: Option<Code>, stat: Stat, body: Body, lstatAfter: Option<Code>, statAfter: Stat)

  datatype Body =
    | FileBody(bytes: seq<byte>, stream: Option<Code>)
    | DirectoryBody(readdir: Option<Code>, children: Children)
    | SymbolicLink
    | SpecialFile

  /** The entries of a directory, as sorted by name. */
  datatype Children = NoMore | Entry(name: string, node: Node, rest: Children)

  datatype Descriptor =
    | FileEntry(mode: nat, uid: nat, gid: nat, size: nat, digest: seq<byte>)
    | DirectoryEntry(mode: nat, uid: nat, gid: nat, entries: seq<(string, Descriptor)>)

  /** A path below the root, by its components. */
  type Path = seq<string>

  datatype Skip = Skip(path: Path, code: Code)

  datatype Limits = Limits(maxDepth: nat, maxTotalBytes: nat)

  datatype Context = Context(allowSkips: bool, pinned: map<Path, Code>, skipped: seq<Skip>, remainingNodes: nat,
                             totalBytes: nat)

  datatype Failure = TooDeep | TooManyNodes | TooManyBytes | Link | Special | Changed | InvalidName
      | Unreadable(code: Code)

  datatype Outcome = Described(descriptor: Descriptor) | Skipped | Failed(failure: Failure)

  /** The outcome for the entries of a directory: those that were described. */
  datatype Entries = Listed(entries: seq<(string, Descriptor)>) | ListFailed(failure: Failure)

  predicate ValidName(name: string) {
    name != "" && name != "." && name != ".." && forall k :: 0 <= k < |name| ==> name[k] != '/' && name[k] != '\\'
  }

  /** `stableLocalStat` says the same before and after. */
  predicate Stable(node: Node) {
    node.stat.size == node.statAfter.size && node.stat.mode == node.statAfter.mode
        && node.stat.stamp == node.statAfter.stamp
  }

  function Head(node: Node): (nat, nat, nat) {
    (node.stat.mode % 0x1000, if node.stat.uid.Some? then node.stat.uid.value else 0,
     if node.stat.gid.Some? then node.stat.gid.value else 0)
  }

  /** `maybeSkipTransferSourceError`. */
  function OnFault(context: Context, path: Path, code: Code): (Outcome, Context) {
    if context.allowSkips && Skippable(code) then (Skipped, context.(skipped := context.skipped + [Skip(path, code)]))
    else (Failed(Unreadable(code)), context)
  }

  /** A file, once its first `lstat` answered. */
  function DescribeFile(node: Node, path: Path, context: Context, limits: Limits,
                        digest: seq<byte> -> seq<byte>): (Outcome, Context)
    requires node.body.FileBody?
  {
    if context.totalBytes + node.stat.size > limits.maxTotalBytes then (Failed(TooManyBytes), context)
    else if node.body.stream.Some? then OnFault(context, path, node.body.stream.value)
    else if node.lstatAfter.Some? then OnFault(context, path, node.lstatAfter.value)
    else if !Stable(node) || |node.body.bytes| != node.stat.size then (Failed(Changed), context)
    else
      var head := Head(node);
      (Described(FileEntry(head.0, head.1, head.2, |node.body.bytes|, digest(node.body.bytes))),
       context.(totalBytes := context.totalBytes + node.stat.size))
  }

  /** A directory, once its entries were walked. */
  function DescribeDirectory(node: Node, path: Path, listed: Entries, context: Context): (Outcome, Context) {
    if listed.ListFailed? then (Failed(listed.failure), context)
    else if node.lstatAfter.Some? then OnFault(context, path, node.lstatAfter.value)
    else if !Stable(node) then (Failed(Changed), context)
    else
      var head := Head(node);
      (Described(DirectoryEntry(head.0, head.1, head.2, listed.entries)), context)
  }

  /** `consumePinnedTransferSkip`. */
  function TakePin(context: Context, path: Path): Context
    requires path in context.pinned
  {
    context.(pinned := context.pinned - {path}, skipped := context.skipped + [Skip(path, context.pinned[path])])
  }

  function Counted(context: Context): Context {
    context.(remainingNodes := if context.remainingNodes > 0 then context.remainingNodes - 1 else 0)
  }

  /** `describeTransferEntryInternal`; `digest` stands for the chained digest. */
  function Describe(node: Node, path: Path, context: Context, limits: Limits, digest: seq<byte> -> seq<byte>): (Outcome,
      Context)
    decreases node, 1
  {
    var counted := Counted(context);
    if |path| > limits.maxDepth then (Failed(TooDeep), context)
    else if context.remainingNodes == 0 then (Failed(TooManyNodes), context)
    else if counted.allowSkips && path in counted.pinned then (Skipped, TakePin(counted, path))
    else if node.lstat.Some? then OnFault(counted, path, node.lstat.value)
    else
      match node.body
      case SymbolicLink => (Failed(Link), counted)
      case SpecialFile => (Failed(Special), counted)
      case FileBody(_, _) => DescribeFile(node, path, counted, limits, digest)
      case DirectoryBody(readdir, children) =>
        if readdir.Some? then OnFault(counted, path, readdir.value)
        else
          var (listed, after) := DescribeChildren(children, path, counted, limits, digest);
          DescribeDirectory(node, path, listed, after)
  }

  /** The loop over the entries. */
  function DescribeChildren(children: Children, path: Path, context: Context, limits: Limits,
                            digest: seq<byte> -> seq<byte>): (Entries, Context)
    decreases children, 0
  {
    match children
    case NoMore => (Listed([]), context)
    case Entry(name, node, rest) =>
      if !ValidName(name) then (ListFailed(InvalidName), context)
      else
        var (outcome, after) := Describe(node, path + [name], context, limits, digest);
        if outcome.Failed? then (ListFailed(outcome.failure), after)
        else
          var (listed, last) := DescribeChildren(rest, path, after, limits, digest);
          if listed.ListFailed? then (listed, last)
          else (Listed((if outcome.Described? then [(name, outcome.descriptor)] else []) + listed.entries), last)
  }

  /** What the loop returns once some entries are listed. */
  function After(entries: seq<(string, Descriptor)>, rest: (Entries, Context)): (Entries, Context) {
    if rest.0.ListFailed? then rest else (Listed(entries + rest.0.entries), rest.1)
  }

  lemma AfterSteps(entries: seq<(string, Descriptor)>, more: seq<(string, Descriptor)>, rest: (Entries, Context))
    ensures After([], rest) == rest
    ensures After(entries, After(more, rest)) == After(entries + more, rest)
  {
    if rest.0.Listed? {
      assert [] + rest.0.entries == rest.0.entries;
      assert entries + (more + rest.0.entries) == entries + more + rest.0.entries;
    }
  }

  /** The context that one walk shares. */
  class TransferWalk {
    const allowSkips: bool
    const limits: Limits
    const digest: seq<byte> -> seq<byte>
    var pinned: map<Path, Code>
    var skipped: seq<Skip>
    var remainingNodes: nat
    var totalBytes: nat

    ghost function View(): Context
      reads this
    {
      Context(allowSkips, pinned, skipped, remainingNodes, totalBytes)
    }

    constructor (allowSkips: bool, limits: Limits, maxNodes: nat, pinned: map<Path, Code>,
                 digest: seq<byte> -> seq<byte>)
      ensures View() == Context(allowSkips, pinned, [], maxNodes, 0) && this.limits == limits && this.digest == digest
    {
      this.allowSkips, this.limits, this.pinned, this.digest := allowSkips, limits, pinned, digest;
      skipped, remainingNodes, totalBytes := [], maxNodes, 0;
    }

    method MaybeSkip(path: Path, code: Code) returns (outcome: Outcome)
      modifies this`skipped
      ensures (outcome, View()) == OnFault(old(View()), path, code)
    {
      if !allowSkips || !Skippable(code) { return Failed(Unreadable(code)); }
      skipped := skipped + [Skip(path, code)];
      outcome := Skipped;
    }

    method DescribeEntry(node: Node, path: Path) returns (outcome: Outcome)
      modifies this
      ensures (outcome, View()) == Describe(node, path, old(View()), limits, digest)
      decreases node, 1
    {
      if |path| > limits.maxDepth { return Failed(TooDeep); }
      if remainingNodes == 0 { return Failed(TooManyNodes); }
      remainingNodes := remainingNodes - 1;
      if allowSkips && path in pinned {
        var code := pinned[path];
        pinned := pinned - {path};
        skipped := skipped + [Skip(path, code)];
        return Skipped;
      }
      if node.lstat.Some? {
        outcome := MaybeSkip(path, node.lstat.value);
        return;
      }
      match node.body
      case SymbolicLink => outcome := Failed(Link);
      case SpecialFile => outcome := Failed(Special);
      case FileBody(bytes, stream) => outcome := DescribeFileEntry(node, path);
      case DirectoryBody(readdir, children) =>
        if readdir.Some? {
          outcome := MaybeSkip(path, readdir.value);
          return;
        }
        var listed := DescribeEntries(children, path);
        if listed.ListFailed? { return Failed(listed.failure); }
        if node.lstatAfter.Some? {
          outcome := MaybeSkip(path, node.lstatAfter.value);
          return;
        }
        if !Stable(node) { return Failed(Changed); }
        var head := Head(node);
        outcome := Described(DirectoryEntry(head.0, head.1, head.2, listed.entries));
    }

    method DescribeFileEntry(node: Node, path: Path) returns (outcome: Outcome)
      requires node.body.FileBody?
      modifies this
      ensures (outcome, View()) == DescribeFile(node, path, old(View()), limits, digest)
    {
      if totalBytes + node.stat.size > limits.maxTotalBytes { return Failed(TooManyBytes); }
      if node.body.stream.Some? {
        outcome := MaybeSkip(path, node.body.stream.value);
        return;
      }
      if node.lstatAfter.Some? {
        outcome := MaybeSkip(path, node.lstatAfter.value);
        return;
      }
      if !Stable(node) || |node.body.bytes| != node.stat.size { return Failed(Changed); }
      totalBytes := totalBytes + node.stat.size;
      var head := Head(node);
      outcome := Described(FileEntry(head.0, head.1, head.2, |node.body.bytes|, digest(node.body.bytes)));
    }

    method DescribeEntries(children: Children, path: Path) returns (listed: Entries)
      modifies this
      ensures (listed, View()) == DescribeChildren(children, path, old(View()), limits, digest)
      decreases children, 0
    {
      hide Describe, After;
      var entries: seq<(string, Descriptor)> := [];
      var left := children;
      AfterSteps([], [], DescribeChildren(children, path, View(), limits, digest));
      while left.Entry?
        invariant DescribeChildren(children, path, old(View()), limits, digest)
                  == After(entries, DescribeChildren(left, path, View(), limits, digest))
        invariant left == children || left < children
        decreases left
      {
        ghost var context := View();
        if !ValidName(left.name) {
          FailsAfter(entries, InvalidName, View());
          return ListFailed(InvalidName);
        }
        var outcome := DescribeEntry(left.node, path + [left.name]);
        if outcome.Failed? {
          FailsAfter(entries, outcome.failure, View());
          return ListFailed(outcome.failure);
        }
        var more := if outcome.Described? then [(left.name, outcome.descriptor)] else [];
        AfterSteps(entries, more, DescribeChildren(left.rest, path, View(), limits, digest));
        UnfoldChildren(left, path, context, limits, digest);
        entries := entries + more;
        left := left.rest;
      }
      AfterSteps(entries, [], (Listed([]), View()));
      NothingAfter(entries, View());
      listed := Listed(entries);
    }
  }

  lemma FailsAfter(entries: seq<(string, Descriptor)>, failure: Failure, context: Context)
    ensures After(entries, (ListFailed(failure), context)) == (ListFailed(failure), context)
  {
  }

  lemma NothingAfter(entries: seq<(string, Descriptor)>, context: Context)
    ensures After(entries, (Listed([]), context)) == (Listed(entries), context)
  {
    assert entries + [] == entries;
  }

  lemma UnfoldChildren(children: Children, path: Path, context: Context, limits: Limits, digest: seq<byte> -> seq<byte>)
    requires children.Entry? && ValidName(children.name)
    requires !Describe(children.node, path + [children.name], context, limits, digest).0.Failed?
    ensures var (outcome, after) := Describe(children.node, path + [children.name], context, limits, digest);
            DescribeChildren(children, path, context, limits, digest)
            == After(if outcome.Described? then [(children.name, outcome.descriptor)] else [],
                     DescribeChildren(children.rest, path, after, limits, digest))
  {
    hide Describe;
  }

  // ---------- What is described ----------

  /** The description of a tree that leaves out the given paths, without any walk. */
  function Ideal(node: Node, path: Path, left: set<Path>, digest: seq<byte> -> seq<byte>): Option<Descriptor>
    decreases node, 1
  {
    if path in left then None
    else
      var mode := node.stat.mode % 4096;
      var uid := match node.stat.uid case Some(n) => n case None => 0;
      var gid := match node.stat.gid case Some(n) => n case None => 0;
      match node.body
      case FileBody(bytes, _) => Some(FileEntry(mode, uid, gid, |bytes|, digest(bytes)))
      case DirectoryBody(_, children) =>
        Some(DirectoryEntry(mode, uid, gid, IdealChildren(children, path, left, digest)))
      case _ => None
  }

  function IdealChildren(children: Children, path: Path, left: set<Path>, digest: seq<byte> -> seq<byte>): seq<(string,
      Descriptor)>
    decreases children, 0
  {
    match children
    case NoMore => []
    case Entry(name, node, rest) =>
      var first := Ideal(node, path + [name], left, digest);
      (if first.Some? then [(name, first.value)] else []) + IdealChildren(rest, path, left, digest)
  }

  function PathsOf(skips: seq<Skip>): (paths: set<Path>) {
    set i | 0 <= i < |skips| :: skips[i].path
  }

  /** The names of a directory are distinct, all the way down. */
  predicate DistinctNames(node: Node)
    decreases node, 1
  {
    node.body.DirectoryBody? ==> DistinctChildren(node.body.children)
  }

  predicate DistinctChildren(children: Children)
    decreases children, 0
  {
    children.Entry? ==>
      children.name !in Names(children.rest) && DistinctNames(children.node) && DistinctChildren(children.rest)
  }

  function Names(children: Children): set<string> {
    if children.NoMore? then {} else {children.name} + Names(children.rest)
  }

  // ---------- What a walk records ----------

  /** The skips recorded between two contexts. */
  function NewSkips(before: Context, after: Context): seq<Skip> {
    if |before.skipped| <= |after.skipped| then after.skipped[|before.skipped|..] else []
  }

  /** Pins are only accepted with codes that may be skipped. */
  ghost predicate SkippablePins(pins: map<Path, Code>) { forall p :: p in pins ==> Skippable(pins[p]) }

  /** A walk below `path` only adds skips of paths there, each once, takes pins there, and counts. */
  ghost predicate Walks(before: Context, after: Context, path: Path) {
    && before.skipped <= after.skipped
    && after.allowSkips == before.allowSkips && after.remainingNodes <= before.remainingNodes
        && before.totalBytes <= after.totalBytes
    && (forall s :: s in NewSkips(before, after) ==>
          path <= s.path && (SkippablePins(before.pinned) ==> Skippable(s.code)))
    && (forall p :: p in after.pinned ==> p in before.pinned && after.pinned[p] == before.pinned[p])
    && (forall p :: p in before.pinned && !(path <= p) ==> p in after.pinned)
  }

  predicate DistinctPaths(skips: seq<Skip>) {
    forall i, j :: 0 <= i < j < |skips| ==> skips[i].path != skips[j].path
  }

  lemma SkipsOfTwo(a: Context, b: Context, c: Context)
    requires a.skipped <= b.skipped <= c.skipped
    ensures a.skipped <= c.skipped && NewSkips(a, c) == NewSkips(a, b) + NewSkips(b, c)
    ensures PathsOf(NewSkips(a, c)) == PathsOf(NewSkips(a, b)) + PathsOf(NewSkips(b, c))
  {
    PathsOfConcat(NewSkips(a, b), NewSkips(b, c));
  }

  lemma PathsOfConcat(a: seq<Skip>, b: seq<Skip>)
    ensures PathsOf(a + b) == PathsOf(a) + PathsOf(b)
  {
    forall p ensures p in PathsOf(a + b) <==> p in PathsOf(a) || p in PathsOf(b) {
      if p in PathsOf(a) {
        var i :| 0 <= i < |a| && a[i].path == p;
        assert (a + b)[i] == a[i];
      }
      if p in PathsOf(b) {
        var i :| 0 <= i < |b| && b[i].path == p;
        assert (a + b)[|a| + i] == b[i];
      }
    }
  }

  lemma InPaths(skips: seq<Skip>, p: Path)
    ensures p in PathsOf(skips) <==> exists s :: s in skips && s.path == p
  {
    if s :| s in skips && s.path == p {
      var i :| 0 <= i < |skips| && skips[i] == s;
      assert skips[i].path == p;
    }
  }

  /** One skip of the path itself is all that happens, or nothing. */
  ghost predicate AtMostItself(before: Context, after: Context, path: Path, outcome: Outcome) {
    && after == before.(skipped := after.skipped, totalBytes := after.totalBytes)
        && before.totalBytes <= after.totalBytes
    && if outcome.Skipped? then exists code :: Skippable(code) && after.skipped == before.skipped + [Skip(path, code)]
       else after.skipped == before.skipped
  }

  lemma FileIsAtMostItself(node: Node, path: Path, context: Context, limits: Limits, digest: seq<byte> -> seq<byte>)
    requires node.body.FileBody?
    ensures var (outcome, after) := DescribeFile(node, path, context, limits, digest);
        AtMostItself(context, after, path, outcome)
  {
  }

  lemma DirectoryIsAtMostItself(node: Node, path: Path, listed: Entries, context: Context)
    ensures var (outcome, after) := DescribeDirectory(node, path, listed, context);
        AtMostItself(context, after, path, outcome)
  {
  }

  lemma FaultIsAtMostItself(context: Context, path: Path, code: Code)
    ensures var (outcome, after) := OnFault(context, path, code);
        AtMostItself(context, after, path, outcome) && !outcome.Described?
  {
  }

  lemma ItselfWalks(before: Context, after: Context, path: Path, outcome: Outcome)
    requires AtMostItself(before, after, path, outcome)
    ensures Walks(before, after, path)
    ensures outcome.Skipped? ==> PathsOf(NewSkips(before, after)) == {path} && |NewSkips(before, after)| == 1
    ensures !outcome.Skipped? ==> NewSkips(before, after) == []
  {
    var skips := NewSkips(before, after);
    if outcome.Skipped? {
      var code :| Skippable(code) && after.skipped == before.skipped + [Skip(path, code)];
      assert skips == [Skip(path, code)];
      assert skips[0].path in PathsOf(skips);
    }
  }

  lemma PinWalks(context: Context, path: Path)
    requires path in context.pinned
    ensures Walks(context, TakePin(context, path), path)
    ensures PathsOf(NewSkips(context, TakePin(context, path))) == {path}
  {
    var skips := NewSkips(context, TakePin(context, path));
    assert skips == [Skip(path, context.pinned[path])];
    assert skips[0].path in PathsOf(skips);
  }

  lemma {:induction false} DescribeWalks(node: Node, path: Path, context: Context, limits: Limits,
                                         digest: seq<byte> -> seq<byte>)
    ensures Walks(context, Describe(node, path, context, limits, digest).1, path)
    decreases node, 1
  {
    hide DescribeChildren, DescribeFile, DescribeDirectory, OnFault, AtMostItself, TakePin;
    var counted := Counted(context);
    var (outcome, after) := Describe(node, path, context, limits, digest);
    NothingWalks(context, path);
    if |path| > limits.maxDepth || context.remainingNodes == 0 {
    } else if counted.allowSkips && path in counted.pinned {
      PinWalks(counted, path);
    } else if node.lstat.Some? {
      FaultIsAtMostItself(counted, path, node.lstat.value);
      ItselfWalks(counted, after, path, outcome);
    } else if node.body.FileBody? {
      FileIsAtMostItself(node, path, counted, limits, digest);
      ItselfWalks(counted, after, path, outcome);
    } else if node.body.DirectoryBody? {
      if node.body.readdir.Some? {
        FaultIsAtMostItself(counted, path, node.body.readdir.value);
        ItselfWalks(counted, after, path, outcome);
      } else {
        var (listed, walked) := DescribeChildren(node.body.children, path, counted, limits, digest);
        ChildrenWalk(node.body.children, path, counted, limits, digest);
        DirectoryIsAtMostItself(node, path, listed, walked);
        ItselfWalks(walked, after, path, outcome);
        WalksBoth(counted, walked, after, path);
      }
    }
    CountedWalks(context, after, path);
  }

  lemma NothingWalks(context: Context, path: Path)
    ensures Walks(context, context, path) && Walks(Counted(context), Counted(context), path)
  {
  }

  lemma CountedWalks(context: Context, after: Context, path: Path)
    requires Walks(Counted(context), after, path) || after == context
    ensures Walks(context, after, path)
    ensures NewSkips(Counted(context), after) == NewSkips(context, after)
  {
  }

  lemma WalksBoth(a: Context, b: Context, c: Context, path: Path)
    requires Walks(a, b, path) && Walks(b, c, path)
    ensures Walks(a, c, path)
  {
    SkipsOfTwo(a, b, c);
    assert SkippablePins(a.pinned) ==> SkippablePins(b.pinned);
  }

  lemma {:induction false} ChildrenWalk(children: Children, path: Path, context: Context, limits: Limits,
                                        digest: seq<byte> -> seq<byte>)
    ensures Walks(context, DescribeChildren(children, path, context, limits, digest).1, path)
    decreases children, 0
  {
    if children.Entry? && ValidName(children.name) {
      hide Describe;
      DescribeWalks(children.node, path + [children.name], context, limits, digest);
      var after := Describe(children.node, path + [children.name], context, limits, digest).1;
      ChildrenWalk(children.rest, path, after, limits, digest);
      WalksOn(context, after, DescribeChildren(children.rest, path, after, limits, digest).1, path, children.name);
      hide Walks;
    }
  }

  lemma WalksOn(a: Context, b: Context, c: Context, path: Path, name: string)
    requires Walks(a, b, path + [name]) && Walks(b, c, path)
    ensures Walks(a, c, path) && Walks(a, b, path)
  {
    SkipsOfTwo(a, b, c);
    forall p | p in a.pinned && !(path <= p) ensures p in b.pinned {
      assert !(path + [name] <= p);
    }
  }

  // ---------- The walk describes the tree without what it skipped ----------

  /** The skips of a directory's entries lie below those entries. */
  ghost predicate Below(skips: seq<Skip>, path: Path, names: set<string>) {
    forall p :: p in PathsOf(skips) ==> |path| < |p| && path <= p && p[|path|] in names
  }

  lemma WalkedBelow(before: Context, after: Context, path: Path, name: string)
    requires Walks(before, after, path + [name])
    ensures Below(NewSkips(before, after), path, {name})
  {
    var skips := NewSkips(before, after);
    forall p | p in PathsOf(skips) ensures |path| < |p| && path <= p && p[|path|] == name {
      var i :| 0 <= i < |skips| && skips[i].path == p;
      assert skips[i] in skips;
      assert path + [name] <= p;
    }
  }

  lemma {:induction false} ChildrenSkipBelow(children: Children, path: Path, context: Context, limits: Limits,
                                             digest: seq<byte> -> seq<byte>)
    ensures Below(NewSkips(context, DescribeChildren(children, path, context, limits, digest).1), path, Names(children))
    decreases children
  {
    hide Describe, Walks, Below;
    NothingBelow(context, path, Names(children));
    if children.Entry? && ValidName(children.name) {
      var (outcome, after) := Describe(children.node, path + [children.name], context, limits, digest);
      DescribeWalks(children.node, path + [children.name], context, limits, digest);
      WalkedBelow(context, after, path, children.name);
      ChildrenWalk(children.rest, path, after, limits, digest);
      ChildrenSkipBelow(children.rest, path, after, limits, digest);
      var last := DescribeChildren(children.rest, path, after, limits, digest).1;
      BelowBoth(context, after, last, path, children.name, Names(children.rest));
    }
  }

  lemma NothingBelow(context: Context, path: Path, names: set<string>)
    ensures Below(NewSkips(context, context), path, names)
  {
  }

  lemma BelowBoth(a: Context, b: Context, c: Context, path: Path, name: string, names: set<string>)
    requires Walks(a, b, path + [name]) && Walks(b, c, path)
    requires Below(NewSkips(a, b), path, {name}) && Below(NewSkips(b, c), path, names)
    ensures Below(NewSkips(a, c), path, {name} + names) && Below(NewSkips(a, b), path, {name} + names)
    ensures a.skipped <= b.skipped <= c.skipped
    ensures PathsOf(NewSkips(a, c)) == PathsOf(NewSkips(a, b)) + PathsOf(NewSkips(b, c))
  {
    SkipsOfTwo(a, b, c);
  }

  /** A path is recorded exactly when its own walk was skipped. */
  lemma SkippedIsRecorded(node: Node, path: Path, context: Context, limits: Limits, digest: seq<byte> -> seq<byte>)
    ensures var (outcome, after) := Describe(node, path, context, limits, digest);
            && (outcome.Skipped? ==> path in PathsOf(NewSkips(context, after)))
            && (outcome.Described? ==> path !in PathsOf(NewSkips(context, after)))
  {
    hide DescribeChildren, DescribeFile, DescribeDirectory, OnFault, AtMostItself, TakePin, Walks, Below;
    var counted := Counted(context);
    var (outcome, after) := Describe(node, path, context, limits, digest);
    if |path| > limits.maxDepth || context.remainingNodes == 0 {
    } else if counted.allowSkips && path in counted.pinned {
      PinWalks(counted, path);
    } else if node.lstat.Some? {
      FaultIsAtMostItself(counted, path, node.lstat.value);
      ItselfWalks(counted, after, path, outcome);
    } else if node.body.FileBody? {
      FileIsAtMostItself(node, path, counted, limits, digest);
      ItselfWalks(counted, after, path, outcome);
    } else if node.body.DirectoryBody? {
      if node.body.readdir.Some? {
        FaultIsAtMostItself(counted, path, node.body.readdir.value);
        ItselfWalks(counted, after, path, outcome);
      } else {
        DirectorySkips(node, path, counted, limits, digest);
      }
    }
  }

  /** A directory's own skip comes on top of those of its entries. */
  lemma DirectorySkips(node: Node, path: Path, context: Context, limits: Limits, digest: seq<byte> -> seq<byte>)
    requires node.body.DirectoryBody?
    ensures var (listed, walked) := DescribeChildren(node.body.children, path, context, limits, digest);
            var (outcome, after) := DescribeDirectory(node, path, listed, walked);
            && context.skipped <= walked.skipped <= after.skipped
            && PathsOf(NewSkips(context, after)) == PathsOf(NewSkips(context, walked))
                + (if outcome.Skipped? then {path} else {})
            && path !in PathsOf(NewSkips(context, walked))
  {
    hide DescribeChildren, DescribeDirectory, AtMostItself;
    var (listed, walked) := DescribeChildren(node.body.children, path, context, limits, digest);
    var (outcome, after) := DescribeDirectory(node, path, listed, walked);
    ChildrenWalk(node.body.children, path, context, limits, digest);
    ChildrenSkipBelow(node.body.children, path, context, limits, digest);
    DirectoryIsAtMostItself(node, path, listed, walked);
    ItselfWalks(walked, after, path, outcome);
    SkipsOfTwo(context, walked, after);
    assert PathsOf([]) == {};
  }

  /** `left` names, at and below the path, just the paths that were skipped. */
  ghost predicate LeavesOut(left: set<Path>, skips: seq<Skip>, path: Path) {
    forall p :: path <= p ==> (p in left <==> p in PathsOf(skips))
  }

  ghost predicate LeavesOutBelow(left: set<Path>, skips: seq<Skip>, path: Path, names: set<string>) {
    forall p :: |path| < |p| && path <= p && p[|path|] in names ==> (p in left <==> p in PathsOf(skips))
  }

  /** A description is the ideal one of the tree without the skipped paths. */
  lemma {:induction false} DescriptionIsIdeal(
    node: Node, path: Path, context: Context, limits: Limits, left: set<Path>, digest: seq<byte> -> seq<byte>)
    requires DistinctNames(node) && Describe(node, path, context, limits, digest).0.Described?
    requires LeavesOut(left, NewSkips(context, Describe(node, path, context, limits, digest).1), path)
    ensures Ideal(node, path, left, digest) == Some(Describe(node, path, context, limits, digest).0.descriptor)
    decreases node, 1
  {
    hide DescribeChildren, IdealChildren;
    var counted := Counted(context);
    SkippedIsRecorded(node, path, context, limits, digest);
    if node.body.DirectoryBody? {
      var (listed, walked) := DescribeChildren(node.body.children, path, counted, limits, digest);
      DirectorySkips(node, path, counted, limits, digest);
      assert LeavesOutBelow(left, NewSkips(counted, walked), path, Names(node.body.children));
      ListIsIdeal(node.body.children, path, counted, limits, left, digest);
    }
  }

  lemma {:induction false} ListIsIdeal(
    children: Children, path: Path, context: Context, limits: Limits, left: set<Path>, digest: seq<byte> -> seq<byte>)
    requires DistinctChildren(children) && DescribeChildren(children, path, context, limits, digest).0.Listed?
    requires LeavesOutBelow(left, NewSkips(context, DescribeChildren(children, path, context, limits, digest).1), path,
                            Names(children))
    ensures IdealChildren(children, path, left, digest)
        == DescribeChildren(children, path, context, limits, digest).0.entries
    decreases children, 0
  {
    if children.Entry? {
      hide Describe, Ideal, LeavesOut, LeavesOutBelow;
      var name, node, rest := children.name, children.node, children.rest;
      var (outcome, after) := Describe(node, path + [name], context, limits, digest);
      var last := DescribeChildren(rest, path, after, limits, digest).1;
      SplitLeavesOut(children, path, context, limits, left, digest);
      ListIsIdeal(rest, path, after, limits, left, digest);
      if outcome.Described? {
        DescriptionIsIdeal(node, path + [name], context, limits, left, digest);
      } else {
        SkippedIsRecorded(node, path + [name], context, limits, digest);
        NotIdeal(node, path + [name], NewSkips(context, after), left, digest);
      }
    }
  }

  lemma NotIdeal(node: Node, path: Path, skips: seq<Skip>, left: set<Path>, digest: seq<byte> -> seq<byte>)
    requires LeavesOut(left, skips, path) && path in PathsOf(skips)
    ensures Ideal(node, path, left, digest).None?
  {
  }

  /** The skips below an entry are its own: the names are distinct. */
  lemma SplitLeavesOut(children: Children, path: Path, context: Context, limits: Limits, left: set<Path>,
                       digest: seq<byte> -> seq<byte>)
    requires DistinctChildren(children) && children.Entry? && ValidName(children.name)
    requires !Describe(children.node, path + [children.name], context, limits, digest).0.Failed?
    requires LeavesOutBelow(left, NewSkips(context, DescribeChildren(children, path, context, limits, digest).1), path,
                            Names(children))
    ensures var after := Describe(children.node, path + [children.name], context, limits, digest).1;
            && LeavesOut(left, NewSkips(context, after), path + [children.name])
            && LeavesOutBelow(left, NewSkips(after, DescribeChildren(children.rest, path, after, limits, digest).1),
                              path, Names(children.rest))
  {
    var after := Describe(children.node, path + [children.name], context, limits, digest).1;
    var last := DescribeChildren(children.rest, path, after, limits, digest).1;
    hide Describe;
    assert DescribeChildren(children, path, context, limits, digest).1 == last;
    hide DescribeChildren, Walks;
    DescribeWalks(children.node, path + [children.name], context, limits, digest);
    WalkedBelow(context, after, path, children.name);
    ChildrenWalk(children.rest, path, after, limits, digest);
    ChildrenSkipBelow(children.rest, path, after, limits, digest);
    BelowBoth(context, after, last, path, children.name, Names(children.rest));
    SplitPaths(left, NewSkips(context, after), NewSkips(after, last), NewSkips(context, last), path, children.name,
               Names(children.rest));
  }

  lemma SplitPaths(left: set<Path>, first: seq<Skip>, second: seq<Skip>, all: seq<Skip>, path: Path, name: string,
                   names: set<string>)
    requires Below(first, path, {name}) && Below(second, path, names) && name !in names
    requires PathsOf(all) == PathsOf(first) + PathsOf(second) && LeavesOutBelow(left, all, path, {name} + names)
    ensures LeavesOut(left, first, path + [name]) && LeavesOutBelow(left, second, path, names)
  {
    forall p | path + [name] <= p ensures p in left <==> p in PathsOf(first) {
      assert |path| < |p| && path <= p && p[|path|] == name;
    }
  }

  // ---------- A walk given the skips of an earlier one ----------

  /** The other tree answers as this one does, except at and below the paths left out. */
  predicate Agrees(node: Node, other: Node, path: Path, left: set<Path>)
    decreases node, 1
  {
    path in left ||
    (&& other.lstat == node.lstat && other.stat == node.stat && other.lstatAfter == node.lstatAfter
     && other.statAfter == node.statAfter
     && if node.body.DirectoryBody? && other.body.DirectoryBody? then
          other.body.readdir == node.body.readdir && ChildrenAgree(node.body.children, other.body.children, path, left)
        else other.body == node.body)
  }

  predicate ChildrenAgree(children: Children, others: Children, path: Path, left: set<Path>)
    decreases children, 0
  {
    match children
    case NoMore => others.NoMore?
    case Entry(name, node, rest) =>
      && others.Entry? && others.name == name && Agrees(node, others.node, path + [name], left)
      && ChildrenAgree(rest, others.rest, path, left)
  }

  /** The second context has the pins of the first walk's skips, and no less room. */
  ghost predicate Follows(a: Context, b: Context) {
    && a.allowSkips && b.allowSkips
    && b.remainingNodes >= a.remainingNodes && b.totalBytes <= a.totalBytes
  }

  lemma {:induction false} ReplayEntry(
    node: Node, other: Node, path: Path, a: Context, b: Context, limits: Limits, left: set<Path>,
        digest: seq<byte> -> seq<byte>)
    requires Follows(a, b) && DistinctNames(node) && Agrees(node, other, path, left)
    requires !Describe(node, path, a, limits, digest).0.Failed?
    requires LeavesOut(left, NewSkips(a, Describe(node, path, a, limits, digest).1), path)
    requires LeavesOut(b.pinned.Keys, NewSkips(a, Describe(node, path, a, limits, digest).1), path)
    ensures Describe(other, path, b, limits, digest).0 == Describe(node, path, a, limits, digest).0
    ensures Follows(Describe(node, path, a, limits, digest).1, Describe(other, path, b, limits, digest).1)
    decreases node, 1
  {
    hide DescribeChildren, ChildrenAgree, OnFault, DescribeFile, DescribeDirectory, Walks;
    SkippedIsRecorded(node, path, a, limits, digest);
    var (outcome, after) := Describe(node, path, a, limits, digest);
    WalkFacts(node, path, a, limits, digest);
    if outcome.Skipped? {
      assert path in b.pinned.Keys;
    } else {
      DescribedHasNoFault(node, path, a, limits, digest);
      if node.body.FileBody? {
        ReplayFile(node, path, Counted(a), Counted(b), limits, digest);
        assert DescribeFile(other, path, Counted(b), limits, digest)
            == DescribeFile(node, path, Counted(b), limits, digest)
          by { SameFile(node, other, path, Counted(b), limits, digest); }
      } else {
        DirectorySkips(node, path, Counted(a), limits, digest);
        ReplayList(node.body.children, other.body.children, path, Counted(a), Counted(b), limits, left, digest);
        SameDirectory(node, other, path);
      }
    }
  }

  lemma WalkFacts(node: Node, path: Path, context: Context, limits: Limits, digest: seq<byte> -> seq<byte>)
    ensures var (outcome, after) := Describe(node, path, context, limits, digest);
            && after.allowSkips == context.allowSkips && context.totalBytes <= after.totalBytes
            && (SkippablePins(context.pinned) ==> SkippablePins(after.pinned))
            && (!outcome.Failed? ==> after.remainingNodes < context.remainingNodes)
            && (forall p :: p in context.pinned && !(path <= p) ==> p in after.pinned)
            && after.pinned.Keys <= context.pinned.Keys
  {
    DescribeWalks(node, path, context, limits, digest);
    hide DescribeChildren, OnFault, DescribeFile, DescribeDirectory;
    if |path| <= limits.maxDepth && context.remainingNodes > 0 && !(context.allowSkips && path in context.pinned) {
      BodyCounts(node, path, Counted(context), limits, digest);
    }
  }

  lemma BodyCounts(node: Node, path: Path, context: Context, limits: Limits, digest: seq<byte> -> seq<byte>)
    ensures node.lstat.Some? ==> OnFault(context, path, node.lstat.value).1.remainingNodes <= context.remainingNodes
    ensures node.body.FileBody? ==>
        DescribeFile(node, path, context, limits, digest).1.remainingNodes <= context.remainingNodes
    ensures node.body.DirectoryBody? && node.body.readdir.Some? ==>
              OnFault(context, path, node.body.readdir.value).1.remainingNodes <= context.remainingNodes
    ensures node.body.DirectoryBody? ==>
              var (listed, walked) := DescribeChildren(node.body.children, path, context, limits, digest);
              DescribeDirectory(node, path, listed, walked).1.remainingNodes <= context.remainingNodes
  {
    if node.body.DirectoryBody? {
      ChildrenWalk(node.body.children, path, context, limits, digest);
      hide DescribeChildren;
    }
  }

  lemma DescribedHasNoFault(node: Node, path: Path, context: Context, limits: Limits, digest: seq<byte> -> seq<byte>)
    requires Describe(node, path, context, limits, digest).0.Described?
    ensures |path| <= limits.maxDepth && context.remainingNodes > 0 && node.lstat.None?
    ensures node.body.FileBody? || (node.body.DirectoryBody? && node.body.readdir.None?)
    ensures node.body.FileBody? ==>
              Describe(node, path, context, limits, digest)
                  == DescribeFile(node, path, Counted(context), limits, digest)
    ensures node.body.DirectoryBody? ==>
              var (listed, walked) := DescribeChildren(node.body.children, path, Counted(context), limits, digest);
              && listed.Listed? && node.lstatAfter.None? && Stable(node)
              && Describe(node, path, context, limits, digest) == DescribeDirectory(node, path, listed, walked)
  {
    hide DescribeChildren;
    if node.body.DirectoryBody? && node.body.readdir.None? {
      var (listed, walked) := DescribeChildren(node.body.children, path, Counted(context), limits, digest);
      assert Describe(node, path, context, limits, digest) == DescribeDirectory(node, path, listed, walked);
    }
  }

  lemma ReplayFile(node: Node, path: Path, a: Context, b: Context, limits: Limits, digest: seq<byte> -> seq<byte>)
    requires node.body.FileBody? && Follows(a, b) && DescribeFile(node, path, a, limits, digest).0.Described?
    ensures DescribeFile(node, path, b, limits, digest).0 == DescribeFile(node, path, a, limits, digest).0
    ensures Follows(DescribeFile(node, path, a, limits, digest).1, DescribeFile(node, path, b, limits, digest).1)
  {
  }

  lemma SameFile(node: Node, other: Node, path: Path, context: Context, limits: Limits, digest: seq<byte> -> seq<byte>)
    requires node.body.FileBody? && other == node
    ensures DescribeFile(other, path, context, limits, digest) == DescribeFile(node, path, context, limits, digest)
  {
  }

  lemma SameDirectory(node: Node, other: Node, path: Path)
    requires other.stat == node.stat && other.lstatAfter == node.lstatAfter && other.statAfter == node.statAfter
    ensures forall listed, context ::
        DescribeDirectory(other, path, listed, context) == DescribeDirectory(node, path, listed, context)
    ensures node.lstatAfter.None? ==> forall listed, context ::
        DescribeDirectory(node, path, listed, context).1 == context
    ensures node.lstatAfter.None? ==>
              forall listed, c, d :: DescribeDirectory(node, path, listed, c).0
                  == DescribeDirectory(node, path, listed, d).0
  {
  }

  lemma {:induction false} ReplayList(
    children: Children, others: Children, path: Path, a: Context, b: Context, limits: Limits, left: set<Path>,
        digest: seq<byte> -> seq<byte>)
    requires Follows(a, b) && DistinctChildren(children) && ChildrenAgree(children, others, path, left)
    requires DescribeChildren(children, path, a, limits, digest).0.Listed?
    requires LeavesOutBelow(left, NewSkips(a, DescribeChildren(children, path, a, limits, digest).1), path,
                            Names(children))
    requires LeavesOutBelow(b.pinned.Keys, NewSkips(a, DescribeChildren(children, path, a, limits, digest).1), path,
                            Names(children))
    ensures DescribeChildren(others, path, b, limits, digest).0 == DescribeChildren(children, path, a, limits, digest).0
    ensures Follows(DescribeChildren(children, path, a, limits, digest).1,
                    DescribeChildren(others, path, b, limits, digest).1)
    decreases children, 0
  {
    if children.Entry? {
      hide Describe, Agrees, LeavesOut, LeavesOutBelow, Follows;
      var name := children.name;
      var after := Describe(children.node, path + [name], a, limits, digest).1;
      var next := Describe(others.node, path + [name], b, limits, digest).1;
      SplitLeavesOut(children, path, a, limits, left, digest);
      SplitLeavesOut(children, path, a, limits, b.pinned.Keys, digest);
      ReplayEntry(children.node, others.node, path + [name], a, b, limits, left, digest);
      WalkFacts(others.node, path + [name], b, limits, digest);
      OtherPinsStay(b.pinned.Keys, next.pinned.Keys, NewSkips(after,
                                                              DescribeChildren(children.rest, path, after, limits,
                                                                  digest).1),
                    path, name, Names(children.rest));
      ReplayList(children.rest, others.rest, path, after, next, limits, left, digest);
    }
  }

  lemma OtherPinsStay(pins: set<Path>, rest: set<Path>, skips: seq<Skip>, path: Path, name: string, names: set<string>)
    requires LeavesOutBelow(pins, skips, path, names) && name !in names && rest <= pins
    requires forall p :: p in pins && !(path + [name] <= p) ==> p in rest
    ensures LeavesOutBelow(rest, skips, path, names)
  {
    forall p | |path| < |p| && path <= p && p[|path|] in names ensures p in rest <==> p in PathsOf(skips) {
      assert !(path + [name] <= p);
    }
  }

  // ---------- Skips as they are recorded, and given back as pins ----------

  /** A skip as the caller gets it: its path as text, relative to the root. */
  datatype SkipRecord = SkipRecord(relativePath: string, code: Code)

  predicate IsSeparator(c: char) { c == '/' || c == '\\' }

  predicate IsLetter(c: char) { 'a' <= c <= 'z' || 'A' <= c <= 'Z' }

  function Joined(path: Path): string {
    if path == [] then "" else if |path| == 1 then path[0] else path[0] + "/" + Joined(path[1..])
  }

  /** `transferRelativePath`: the root is recorded under its own name. */
  function Recorded(s: Skip, rootName: string): SkipRecord {
    SkipRecord(if s.path == [] then rootName else Joined(s.path), s.code)
  }

  function RecordsOf(skips: seq<Skip>, rootName: string): seq<SkipRecord> {
    seq(|skips|, i requires 0 <= i < |skips| => Recorded(skips[i], rootName))
  }

  /** The text between separators. */
  function Segments(text: string): (segments: seq<string>)
    ensures segments != []
  {
    if text == "" then [""]
    else
      var rest := Segments(text[1..]);
      if IsSeparator(text[0]) then [""] + rest else [[text[0]] + rest[0]] + rest[1..]
  }

  /** `path.win32.isAbsolute`, which the source asks on every platform. */
  predicate IsAbsolute(text: string) {
    text != "" && (IsSeparator(text[0]) || (|text| > 2 && IsLetter(text[0]) && text[1] == ':' && IsSeparator(text[2])))
  }

  /** `validatePinnedTransferRelativePath`. */
  function PinPath(text: string): Option<Path> {
    if text == "" || IsAbsolute(text) then None
    else
      var segments := Segments(text);
      if exists i :: 0 <= i < |segments| && segments[i] in {"", ".", ".."} then None else Some(segments)
  }

  predicate IsPin(record: SkipRecord) { PinPath(record.relativePath).Some? && Skippable(record.code) }

  function PinsOf(records: seq<SkipRecord>): seq<Skip>
    requires forall i :: 0 <= i < |records| ==> IsPin(records[i])
  {
    seq(|records|, i requires 0 <= i < |records| && IsPin(records[i]) =>
      Skip(PinPath(records[i].relativePath).value, records[i].code))
  }

  function PinMap(pins: seq<Skip>): map<Path, Code> {
    if pins == [] then map[] else PinMap(pins[..|pins| - 1])[pins[|pins| - 1].path := pins[|pins| - 1].code]
  }

  lemma {:induction false} PinMapKeys(pins: seq<Skip>)
    ensures PinMap(pins).Keys == PathsOf(pins)
  {
    if pins != [] {
      var front, last := pins[..|pins| - 1], pins[|pins| - 1];
      PinMapKeys(front);
      OneMoreEntry(front, last);
      assert pins == front + [last];
    }
  }

  /** The pins of some records; None when the source refuses them. */
  function AcceptPins(records: seq<SkipRecord>): Option<map<Path, Code>> {
    if (forall i :: 0 <= i < |records| ==> IsPin(records[i])) && DistinctPaths(PinsOf(records))
        then Some(PinMap(PinsOf(records)))
    else None
  }

  /** `createPinnedTransferSkipMap`: refuses paths that are not below the root, codes that cannot be
      skipped, and repetitions. */
  method CreatePinnedTransferSkipMap(records: seq<SkipRecord>) returns (pinned: Option<map<Path, Code>>)
    ensures pinned == AcceptPins(records)
  {
    hide PathsOf, PinPath, AcceptPins;
    var map_: map<Path, Code> := map[];
    var k := 0;
    assert records[..0] == [];
    NoRecords();
    while k < |records|
      invariant 0 <= k <= |records|
      invariant AcceptPins(records[..k]) == Some(map_)
    {
      var record := records[k];
      assert records[..k + 1] == records[..k] + [record];
      OneMoreRecord(records[..k], record);
      var path := PinPath(record.relativePath);
      if path.None? || !Skippable(record.code) || path.value in map_ {
        RefusedAtOnce(records, k + 1);
        return None;
      }
      map_ := map_[path.value := record.code];
      k := k + 1;
    }
    assert records[..k] == records;
    pinned := Some(map_);
  }

  lemma NoRecords()
    ensures AcceptPins([]) == Some(map[])
  {
  }

  lemma OneMoreRecord(records: seq<SkipRecord>, record: SkipRecord)
    requires AcceptPins(records).Some?
    ensures var pins := AcceptPins(records).value;
            AcceptPins(records + [record]) ==
              if IsPin(record) && PinPath(record.relativePath).value !in pins
              then Some(pins[PinPath(record.relativePath).value := record.code]) else None
  {
    hide PinPath, Skippable, PinMap, DistinctPaths;
    var more := records + [record];
    if IsPin(record) {
      var pin := Skip(PinPath(record.relativePath).value, record.code);
      assert PinsOf(more) == PinsOf(records) + [pin];
      OneMorePin(PinsOf(records), pin);
    } else {
      assert more[|records|] == record;
    }
  }

  lemma OneMorePin(pins: seq<Skip>, pin: Skip)
    requires DistinctPaths(pins)
    ensures DistinctPaths(pins + [pin]) <==> pin.path !in PinMap(pins)
    ensures PinMap(pins + [pin]) == PinMap(pins)[pin.path := pin.code]
  {
    PinMapKeys(pins);
    OneMoreEntry(pins, pin);
    assert (pins + [pin])[..|pins|] == pins;
    if pin.path in PathsOf(pins) { RepeatedEntry(pins + [pin], |pins|); }
  }

  lemma RefusedAtOnce(records: seq<SkipRecord>, k: nat)
    requires k <= |records| && AcceptPins(records[..k]).None?
    ensures AcceptPins(records).None?
  {
    hide IsPin, PinPath;
    if forall i :: 0 <= i < |records| ==> IsPin(records[i]) {
      assert PinsOf(records)[..k] == PinsOf(records[..k]);
    }
  }

  lemma OneMoreEntry(entries: seq<Skip>, entry: Skip)
    ensures PathsOf(entries + [entry]) == PathsOf(entries) + {entry.path}
    ensures DistinctPaths(entries) && entry.path !in PathsOf(entries) ==> DistinctPaths(entries + [entry])
    ensures forall i :: 0 <= i < |entries| ==> entries[i].path in PathsOf(entries)
  {
    PathsOfConcat(entries, [entry]);
    assert [entry][0].path in PathsOf([entry]);
    assert PathsOf([entry]) == {entry.path};
  }

  lemma RepeatedEntry(entries: seq<Skip>, k: nat)
    requires k < |entries| && entries[k].path in PathsOf(entries[..k])
    ensures !DistinctPaths(entries)
  {
    var i :| 0 <= i < |entries[..k]| && entries[..k][i].path == entries[k].path;
    assert entries[i].path == entries[k].path;
  }

  // ---------- Which recorded paths are accepted again ----------

  /** On every platform the source takes `c:/x` for an absolute path. */
  predicate IsDriveLike(path: Path) {
    |path| >= 2 && |path[0]| == 2 && IsLetter(path[0][0]) && path[0][1] == ':'
  }

  ghost predicate ValidNames(path: Path) {
    forall i :: 0 <= i < |path| ==> ValidName(path[i])
  }

  lemma {:induction false} SegmentsOfName(name: string, rest: string)
    requires forall k :: 0 <= k < |name| ==> !IsSeparator(name[k])
    ensures Segments(name) == [name] && Segments(name + "/" + rest) == [name] + Segments(rest)
    decreases |name|
  {
    var text := name + "/" + rest;
    if name == "" {
      assert text == "/" + rest && text[1..] == rest;
    } else {
      SegmentsOfName(name[1..], rest);
      assert text[1..] == name[1..] + "/" + rest;
      assert [name[0]] + name[1..] == name;
      assert [name[0]] + ([name[1..]] + Segments(rest))[0] == name;
    }
  }

  lemma {:induction false} SegmentsOfJoined(path: Path)
    requires path != [] && ValidNames(path)
    ensures Segments(Joined(path)) == path
    decreases |path|
  {
    if |path| == 1 {
      SegmentsOfName(path[0], "");
    } else {
      SegmentsOfName(path[0], Joined(path[1..]));
      SegmentsOfJoined(path[1..]);
    }
  }

  lemma AbsoluteIffDriveLike(path: Path)
    requires path != [] && ValidNames(path)
    ensures Joined(path) != "" && (IsAbsolute(Joined(path)) <==> IsDriveLike(path))
  {
    var text := Joined(path);
    assert ValidName(path[0]);
    assert path[0] <= text;
    assert |path| >= 2 ==> text[|path[0]|] == '/';
    assert |path| == 1 ==> text == path[0];
    assert forall k :: 0 <= k < |path[0]| ==> text[k] == path[0][k];
  }

  /** A path below the root is accepted again, as itself, exactly if it does not look like one on a drive. */
  lemma PinRoundTripIff(path: Path)
    requires path != [] && ValidNames(path)
    ensures PinPath(Joined(path)) == if IsDriveLike(path) then None else Some(path)
  {
    hide Segments, Joined, IsAbsolute, IsDriveLike;
    SegmentsOfJoined(path);
    AbsoluteIffDriveLike(path);
    forall i | 0 <= i < |path| ensures path[i] !in {"", ".", ".."} {
      assert ValidName(path[i]);
    }
  }

  ghost predicate SomeDriveLike(skips: seq<Skip>) {
    exists s :: s in skips && IsDriveLike(s.path)
  }

  /** The records of skips below the root are accepted, as those skips, exactly if none looks like one
      on a drive. */
  lemma RecordsAccepted(skips: seq<Skip>, rootName: string)
    requires DistinctPaths(skips) && forall s :: s in skips ==> s.path != [] && ValidNames(s.path) && Skippable(s.code)
    ensures AcceptPins(RecordsOf(skips, rootName)) == if SomeDriveLike(skips) then None else Some(PinMap(skips))
  {
    hide ValidNames, PinPath, Joined, IsDriveLike, PinMap;
    var records := RecordsOf(skips, rootName);
    forall i | 0 <= i < |skips|
      ensures skips[i] in skips && records[i] in records
      ensures PinPath(records[i].relativePath) == if IsDriveLike(skips[i].path) then None else Some(skips[i].path)
    {
      assert skips[i] in skips && records[i] in records;
      PinRoundTripIff(skips[i].path);
    }
    if !SomeDriveLike(skips) {
      assert PinsOf(records) == skips;
    }
  }

  function Fresh(maxNodes: nat, pinned: map<Path, Code>): Context {
    Context(true, pinned, [], maxNodes, 0)
  }

  /** The prepared walk, with the pins of an earlier one. */
  function Prepare(node: Node, pinned: map<Path, Code>, limits: Limits, maxNodes: nat,
                   digest: seq<byte> -> seq<byte>): (Outcome, Context) {
    Describe(node, [], Fresh(maxNodes, pinned), limits, digest)
  }

  /** A walk that described the source can be repeated from its skips alone: whatever has become of the
      skipped paths, and whether or not they can be read by then, the description is the same. */
  lemma ReplayGivesTheSame(
    node: Node, other: Node, pins: map<Path, Code>, pinned: map<Path, Code>, limits: Limits, maxNodes: nat,
        digest: seq<byte> -> seq<byte>)
    requires DistinctNames(node)
    requires var (outcome, after) := Prepare(node, pins, limits, maxNodes, digest);
             outcome.Described? && pinned.Keys == PathsOf(after.skipped)
                 && Agrees(node, other, [], PathsOf(after.skipped))
    ensures Prepare(other, pinned, limits, maxNodes, digest).0 == Prepare(node, pins, limits, maxNodes, digest).0
    ensures Ideal(node, [], pinned.Keys, digest) == Some(Prepare(node, pins, limits, maxNodes, digest).0.descriptor)
  {
    var a := Fresh(maxNodes, pins);
    var after := Describe(node, [], a, limits, digest).1;
    assert NewSkips(a, after) == after.skipped;
    ReplayEntry(node, other, [], a, Fresh(maxNodes, pinned), limits, pinned.Keys, digest);
    DescriptionIsIdeal(node, [], a, limits, pinned.Keys, digest);
  }

  // ---------- The skips of a described walk are pins ----------

  ghost predicate ArePins(skips: seq<Skip>, path: Path) {
    DistinctPaths(skips) && forall s :: s in skips ==>
      path <= s.path && Skippable(s.code) && forall i :: |path| <= i < |s.path| ==> ValidName(s.path[i])
  }

  lemma ArePinsConcat(first: seq<Skip>, second: seq<Skip>, path: Path)
    requires ArePins(first, path) && ArePins(second, path) && PathsOf(first) !! PathsOf(second)
    ensures ArePins(first + second, path)
  {
    var all := first + second;
    forall i, j | 0 <= i < j < |all| ensures all[i].path != all[j].path {
      if i < |first| <= j {
        assert first[i].path in PathsOf(first) && second[j - |first|].path in PathsOf(second);
      }
    }
  }

  lemma ArePinsFrom(skips: seq<Skip>, path: Path, name: string)
    requires ArePins(skips, path + [name]) && ValidName(name)
    ensures ArePins(skips, path)
  {
    forall s, i | s in skips && |path| <= i < |s.path| ensures ValidName(s.path[i]) {
      assert path + [name] <= s.path;
      assert s.path[|path|] == name;
    }
  }

  lemma {:induction false} EntrySkipsArePins(node: Node, path: Path, context: Context, limits: Limits,
                                             digest: seq<byte> -> seq<byte>)
    requires DistinctNames(node) && SkippablePins(context.pinned)
    ensures ArePins(NewSkips(context, Describe(node, path, context, limits, digest).1), path)
    decreases node, 1
  {
    hide DescribeChildren, DescribeFile, DescribeDirectory, OnFault, AtMostItself, Walks;
    var counted := Counted(context);
    var (outcome, after) := Describe(node, path, context, limits, digest);
    if |path| > limits.maxDepth || context.remainingNodes == 0 {
    } else if counted.allowSkips && path in counted.pinned {
      PinIsPin(counted, path);
    } else if node.lstat.Some? {
      FaultIsAtMostItself(counted, path, node.lstat.value);
      ItselfArePins(counted, after, path, outcome);
    } else if node.body.FileBody? {
      FileIsAtMostItself(node, path, counted, limits, digest);
      ItselfArePins(counted, after, path, outcome);
    } else if node.body.DirectoryBody? {
      if node.body.readdir.Some? {
        FaultIsAtMostItself(counted, path, node.body.readdir.value);
        ItselfArePins(counted, after, path, outcome);
      } else {
        var (listed, walked) := DescribeChildren(node.body.children, path, counted, limits, digest);
        DirectoryIsAtMostItself(node, path, listed, walked);
        ItselfArePins(walked, after, path, outcome);
        ListSkipsArePins(node.body.children, path, counted, limits, digest);
        DirectorySkips(node, path, counted, limits, digest);
        ItselfWalks(walked, after, path, outcome);
        SkipsOfTwo(counted, walked, after);
        ArePinsConcat(NewSkips(counted, walked), NewSkips(walked, after), path);
      }
    }
  }

  lemma PinIsPin(context: Context, path: Path)
    requires SkippablePins(context.pinned) && path in context.pinned
    ensures ArePins(NewSkips(context, TakePin(context, path)), path)
  {
    assert NewSkips(context, TakePin(context, path)) == [Skip(path, context.pinned[path])];
  }

  lemma ItselfArePins(before: Context, after: Context, path: Path, outcome: Outcome)
    requires AtMostItself(before, after, path, outcome)
    ensures ArePins(NewSkips(before, after), path) && PathsOf(NewSkips(before, after)) <= {path}
  {
  }

  lemma {:induction false} ListSkipsArePins(children: Children, path: Path, context: Context, limits: Limits,
                                            digest: seq<byte> -> seq<byte>)
    requires DistinctChildren(children) && SkippablePins(context.pinned)
    ensures ArePins(NewSkips(context, DescribeChildren(children, path, context, limits, digest).1), path)
    decreases children, 0
  {
    if children.Entry? && ValidName(children.name) {
      hide Describe, ArePins, Below;
      var name := children.name;
      var after := Describe(children.node, path + [name], context, limits, digest).1;
      WalkFacts(children.node, path + [name], context, limits, digest);
      EntrySkipsArePins(children.node, path + [name], context, limits, digest);
      ArePinsFrom(NewSkips(context, after), path, name);
      ListSkipsArePins(children.rest, path, after, limits, digest);
      DescribeWalks(children.node, path + [name], context, limits, digest);
      WalkedBelow(context, after, path, name);
      ChildrenWalk(children.rest, path, after, limits, digest);
      ChildrenSkipBelow(children.rest, path, after, limits, digest);
      var last := DescribeChildren(children.rest, path, after, limits, digest).1;
      hide Walks;
      BelowIsDisjoint(NewSkips(context, after), NewSkips(after, last), path, name, Names(children.rest));
      SkipsOfTwoWalks(context, after, last, path, name);
      ArePinsConcat(NewSkips(context, after), NewSkips(after, last), path);
    } else {
      NoPins(context, path);
    }
  }

  lemma SkipsOfTwoWalks(a: Context, b: Context, c: Context, path: Path, name: string)
    requires Walks(a, b, path + [name]) && Walks(b, c, path)
    ensures NewSkips(a, c) == NewSkips(a, b) + NewSkips(b, c)
  {
    SkipsOfTwo(a, b, c);
  }

  lemma NoPins(context: Context, path: Path)
    ensures ArePins(NewSkips(context, context), path)
  {
  }

  lemma BelowIsDisjoint(first: seq<Skip>, second: seq<Skip>, path: Path, name: string, names: set<string>)
    requires Below(first, path, {name}) && Below(second, path, names) && name !in names
    ensures PathsOf(first) !! PathsOf(second)
  {
  }

  /** The skips of a described source are accepted as pins exactly if none looks like a path on a drive. */
  lemma SkipsAcceptedIff(node: Node, pins: map<Path, Code>, rootName: string, limits: Limits, maxNodes: nat,
                         digest: seq<byte> -> seq<byte>)
    requires DistinctNames(node) && SkippablePins(pins) && Prepare(node, pins, limits, maxNodes, digest).0.Described?
    ensures var skips := Prepare(node, pins, limits, maxNodes, digest).1.skipped;
            AcceptPins(RecordsOf(skips, rootName)) == if SomeDriveLike(skips) then None else Some(PinMap(skips))
  {
    var a := Fresh(maxNodes, pins);
    var after := Describe(node, [], a, limits, digest).1;
    assert NewSkips(a, after) == after.skipped;
    EntrySkipsArePins(node, [], a, limits, digest);
    SkippedIsRecorded(node, [], a, limits, digest);
    hide Describe;
    forall s | s in after.skipped ensures s.path != [] && ValidNames(s.path) {
      InPaths(after.skipped, s.path);
    }
    RecordsAccepted(after.skipped, rootName);
  }

  // ---------- Repeating a walk from its records ----------

  datatype Replayed = Refused | Ran(outcome: Outcome)

  /** The walk over a source, given the records of an earlier walk. */
  function Replay(node: Node, records: seq<SkipRecord>, limits: Limits, maxNodes: nat,
                  digest: seq<byte> -> seq<byte>): Replayed {
    var pins := AcceptPins(records);
    if pins.None? then Refused else Ran(Prepare(node, pins.value, limits, maxNodes, digest).0)
  }

  /** Whatever has become of the skipped paths, the records of a walk, which may itself have had pins, repeat
      its outcome. */
  ghost predicate Repeatable(node: Node, pins: map<Path, Code>, rootName: string, limits: Limits, maxNodes: nat,
                             digest: seq<byte> -> seq<byte>) {
    var (outcome, after) := Prepare(node, pins, limits, maxNodes, digest);
    forall other :: Agrees(node, other, [], PathsOf(after.skipped)) ==>
      Replay(other, RecordsOf(after.skipped, rootName), limits, maxNodes, digest) == Ran(outcome)
  }

  /** A walk that did not fail can be repeated from its records exactly if the root itself was not
      skipped and no skipped path looks like one on a drive. */
  lemma RepeatableIff(node: Node, pins: map<Path, Code>, rootName: string, limits: Limits, maxNodes: nat,
                      digest: seq<byte> -> seq<byte>)
    requires DistinctNames(node) && SkippablePins(pins) && !Prepare(node, pins, limits, maxNodes, digest).0.Failed?
    ensures Repeatable(node, pins, rootName, limits, maxNodes, digest) <==>
              var (outcome, after) := Prepare(node, pins, limits, maxNodes, digest);
              !outcome.Skipped? && !SomeDriveLike(after.skipped)
  {
    var (outcome, after) := Prepare(node, pins, limits, maxNodes, digest);
    if outcome.Skipped? {
      SkippedRootDiffers(node, pins, rootName, limits, maxNodes, digest);
    } else {
      SkipsAcceptedIff(node, pins, rootName, limits, maxNodes, digest);
      PinMapKeys(after.skipped);
      SameAgrees(node, [], PathsOf(after.skipped));
      hide Agrees, Describe, RecordsOf, AcceptPins, PathsOf, PinMap, SomeDriveLike, DistinctNames;
      if !SomeDriveLike(after.skipped) {
        forall other | Agrees(node, other, [], PathsOf(after.skipped))
          ensures Replay(other, RecordsOf(after.skipped, rootName), limits, maxNodes, digest) == Ran(outcome)
        {
          ReplayGivesTheSame(node, other, pins, PinMap(after.skipped), limits, maxNodes, digest);
        }
      }
    }
  }

  lemma {:induction false} SameAgrees(node: Node, path: Path, left: set<Path>)
    ensures Agrees(node, node, path, left)
    decreases node, 1
  {
    if node.body.DirectoryBody? { SameChildrenAgree(node.body.children, path, left); }
  }

  lemma {:induction false} SameChildrenAgree(children: Children, path: Path, left: set<Path>)
    ensures ChildrenAgree(children, children, path, left)
    decreases children, 0
  {
    if children.Entry? {
      SameAgrees(children.node, path + [children.name], left);
      SameChildrenAgree(children.rest, path, left);
    }
  }

  /** An empty file that can be read. */
  function EmptyFile(): Node {
    var stat := Stat(0, None, None, 0, 0);
    Node(None, stat, FileBody([], None), None, stat)
  }

  /** A skipped root is recorded under its name, which as a pin is an entry below it: by the time the
      root can be read again, it is read again. */
  lemma SkippedRootDiffers(node: Node, pins: map<Path, Code>, rootName: string, limits: Limits, maxNodes: nat,
                           digest: seq<byte> -> seq<byte>)
    requires Prepare(node, pins, limits, maxNodes, digest).0.Skipped?
    ensures var skips := Prepare(node, pins, limits, maxNodes, digest).1.skipped;
            && Agrees(node, EmptyFile(), [], PathsOf(skips))
            && Replay(EmptyFile(), RecordsOf(skips, rootName), limits, maxNodes, digest) != Ran(Skipped)
  {
    var after := Prepare(node, pins, limits, maxNodes, digest).1;
    assert NewSkips(Fresh(maxNodes, pins), after) == after.skipped;
    SkippedIsRecorded(node, [], Fresh(maxNodes, pins), limits, digest);
    var records := RecordsOf(after.skipped, rootName);
    assert maxNodes > 0;
    hide Describe, RecordsOf, PathsOf;
    if AcceptPins(records).Some? {
      NoPinIsTheRoot(records);
      ReadsEmptyFile(AcceptPins(records).value, limits, maxNodes, digest);
    }
  }

  lemma NoPinIsTheRoot(records: seq<SkipRecord>)
    requires AcceptPins(records).Some?
    ensures [] !in AcceptPins(records).value
  {
    hide PinMap, IsAbsolute, Segments;
    PinMapKeys(PinsOf(records));
    forall i | 0 <= i < |records| ensures PinsOf(records)[i].path != [] {
      assert IsPin(records[i]);
    }
  }

  lemma ReadsEmptyFile(pins: map<Path, Code>, limits: Limits, maxNodes: nat, digest: seq<byte> -> seq<byte>)
    requires [] !in pins && maxNodes > 0
    ensures Prepare(EmptyFile(), pins, limits, maxNodes, digest).0.Described?
  {
  }

  /** The record of a skipped root is the pin of an entry of that name, which is then left out unread. */
  lemma SkippedRootPinsAnEntry(rootName: string, code: Code)
    requires ValidName(rootName) && Skippable(code)
    ensures AcceptPins(RecordsOf([Skip([], code)], rootName)) == Some(map[[rootName] := code])
  {
    var records := RecordsOf([Skip([], code)], rootName);
    hide IsDriveLike;
    assert ValidNames([rootName]) && !IsDriveLike([rootName]) by { OneNameIsNotDriveLike(rootName); }
    PinRoundTripIff([rootName]);
    assert Joined([rootName]) == rootName;
    hide PinPath;
    NoRecords();
    OneMoreRecord([], records[0]);
    assert records == [] + [records[0]];
  }

  lemma OneNameIsNotDriveLike(name: string)
    ensures !IsDriveLike([name])
  {
  }

  // ---------- A skip that is not accepted again ----------

  /** A directory with one entry. */
  function Holding(name: string, node: Node): Node {
    var stat := Stat(0, None, None, 0, 0);
    Node(None, stat, DirectoryBody(None, Entry(name, node, NoMore)), None, stat)
  }

  lemma HoldingDescribed(name: string, node: Node, path: Path, context: Context, limits: Limits,
                         digest: seq<byte> -> seq<byte>)
    requires |path| <= limits.maxDepth && context.remainingNodes > 0 && context.pinned == map[] && ValidName(name)
    requires !Describe(node, path + [name], Counted(context), limits, digest).0.Failed?
    ensures var (outcome, after) := Describe(Holding(name, node), path, context, limits, digest);
            outcome.Described? && after == Describe(node, path + [name], Counted(context), limits, digest).1
  {
    var after := Describe(node, path + [name], Counted(context), limits, digest).1;
    assert DescribeChildren(NoMore, path, after, limits, digest) == (Listed([]), after);
  }

  /** A directory `c:` with an entry `x` that cannot be read. */
  function DriveTree(): Node {
    var stat := Stat(0, None, None, 0, 0);
    Holding("c:", Holding("x", Node(Some(EACCES), stat, SpecialFile, None, stat)))
  }

  lemma DriveTreeDescribed(limits: Limits, maxNodes: nat, digest: seq<byte> -> seq<byte>)
    requires limits.maxDepth >= 2 && maxNodes >= 3
    ensures var (outcome, after) := Prepare(DriveTree(), map[], limits, maxNodes, digest);
            outcome.Described? && after.skipped == [Skip(["c:", "x"], EACCES)]
    ensures DistinctNames(DriveTree())
  {
    var stat := Stat(0, None, None, 0, 0);
    var x := Node(Some(EACCES), stat, SpecialFile, None, stat);
    var first := Fresh(maxNodes, map[]);
    var drive := Holding("x", x);
    assert ["c:"] + ["x"] == ["c:", "x"] && [] + ["c:"] == ["c:"];
    assert Describe(x, ["c:", "x"], Counted(Counted(first)), limits, digest)
           == OnFault(Counted(Counted(Counted(first))), ["c:", "x"], EACCES);
    HoldingDescribed("x", x, ["c:"], Counted(first), limits, digest);
    HoldingDescribed("c:", drive, [], first, limits, digest);
    assert [] + [Skip(["c:", "x"], EACCES)] == [Skip(["c:", "x"], EACCES)];
  }

  /** The source records the entry as `c:/x`, and refuses that path when it is given back. */
  lemma DriveLikeSkipIsRefused(rootName: string, limits: Limits, maxNodes: nat, digest: seq<byte> -> seq<byte>)
    requires limits.maxDepth >= 2 && maxNodes >= 3
    ensures var (outcome, after) := Prepare(DriveTree(), map[], limits, maxNodes, digest);
            && outcome.Described? && after.skipped == [Skip(["c:", "x"], EACCES)]
            && Replay(DriveTree(), RecordsOf(after.skipped, rootName), limits, maxNodes, digest) == Refused
  {
    DriveTreeDescribed(limits, maxNodes, digest);
    hide Prepare, DistinctNames, DriveTree, PinMap;
    var skips := Prepare(DriveTree(), map[], limits, maxNodes, digest).1.skipped;
    assert skips[0] in skips && IsDriveLike(skips[0].path);
    SkipsAcceptedIff(DriveTree(), map[], rootName, limits, maxNodes, digest);
  }
}
