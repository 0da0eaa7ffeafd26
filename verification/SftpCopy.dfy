/** The recursive SFTP copy with rollback (apps/electerm-agent/src/app/server/session-sftp.js and
    sftp-copy-budget.js) over a server whose every operation may fail. */
module SftpCopy {
  import opened Prelude
  import opened Utf8

  // ---------- The file system ----------

  /** A normalised absolute path, by its components; [] is the root. */
  type Path = seq<string>

  /** An owner is negative where the server gives none that can be read. */
  datatype Meta = Meta(mode: nat, uid: int, gid: int)

  datatype Node = File(meta: Meta, bytes: seq<byte>) | Directory(meta: Meta) | Special(meta: Meta)

  type Tree = map<Path, Node>

  function Parent(path: Path): Path
    requires path != []
  {
    path[..|path| - 1]
  }

  /** Whatever exists, exists in a directory. */
  ghost predicate WellFormed(fs: Tree) {
    forall path :: path in fs && path != [] ==> Parent(path) in fs && fs[Parent(path)].Directory?
  }

  lemma {:induction false} AboveIsDirectory(fs: Tree, above: Path, path: Path)
    requires WellFormed(fs) && path in fs && above <= path
    ensures above in fs && (above != path ==> fs[above].Directory?)
    decreases |path|
  {
    if above != path {
      assert above <= Parent(path);
      AboveIsDirectory(fs, above, Parent(path));
    }
  }

  // ---------- The server ----------

  datatype Kind = IsFile | IsDirectory | IsSpecial
  datatype Stat = Stat(kind: Kind, meta: Meta, size: nat)
  datatype Read = Chunk(bytes: seq<byte>) | End | ReadFailed
  datatype Removal = Removed | Missing | NotEmpty | Refused

  function StatOf(node: Node): Stat {
    match node
    case File(meta, bytes) => Stat(IsFile, meta, |bytes|)
    case Directory(meta) => Stat(IsDirectory, meta, 0)
    case Special(meta) => Stat(IsSpecial, meta, 0)
  }

  /** `fs` after something happened at `path` alone. */
  ghost predicate OnlyAt(before: Tree, fs: Tree, path: Path) {
    path in fs && fs == before[path := fs[path]]
  }

  /** Nobody else changes the files while the copy runs; every request may fail. */
  class SftpServer {
    /** A server that does what it is asked, for a copy that nobody cancels. */
    const reliable: bool
    var fs: Tree
    /** How many removals the server refused without a reason in the tree. */
    ghost var refusals: nat

    method Fails() returns (fails: bool)
      ensures reliable ==> !fails
    {
      var chance: bool := *;
      fails := chance && !reliable;
    }

    method Lstat(path: Path) returns (r: Option<Stat>)
      ensures r.Some? ==> path in fs && r.value == StatOf(fs[path])
      ensures reliable && path in fs ==> r.Some?
    {
      var fails := Fails();
      r := if fails || path !in fs then None else Some(StatOf(fs[path]));
    }

    /** The names in a directory, in any order. */
    method List(path: Path) returns (r: Option<seq<string>>)
      ensures r.Some? ==>
                && (forall name :: name in r.value <==> path + [name] in fs)
                && (forall i, j :: 0 <= i < j < |r.value| ==> r.value[i] != r.value[j])
      ensures reliable ==> r.Some?
    {
      var fails := Fails();
      if fails { return None; }
      var names: seq<string> := [];
      var left := set p | p in fs && |p| == |path| + 1 && path <= p :: p[|path|];
      forall name ensures name in left <==> path + [name] in fs {
        var p := path + [name];
        assert p in fs ==> path <= p && p[|path|] == name;
        if name in left {
          var q :| q in fs && |q| == |path| + 1 && path <= q && q[|path|] == name;
          assert q == p;
        }
      }
      while left != {}
        invariant forall name :: name in left || name in names <==> path + [name] in fs
        invariant forall name :: name in left ==> name !in names
        invariant forall i, j :: 0 <= i < j < |names| ==> names[i] != names[j]
        decreases left
      {
        var name :| name in left;
        left := left - {name};
        names := names + [name];
      }
      r := Some(names);
    }

    /** A new directory gets whatever mode and owner the server gives it. */
    method Mkdir(path: Path) returns (ok: bool)
      modifies this`fs
      ensures !ok ==> fs == old(fs)
      ensures ok ==> CanCreate(old(fs), path) && OnlyAt(old(fs), fs, path) && fs[path].Directory?
      ensures reliable && CanCreate(old(fs), path) ==> ok && HasOwner(fs[path])
    {
      var fails := Fails();
      var mode: nat, uid: int, gid: int := *, *, *;
      if reliable && (uid < 0 || gid < 0) { uid, gid := 0, 0; }
      ok := !fails && path !in fs && path != [] && Parent(path) in fs && fs[Parent(path)].Directory?;
      if ok { fs := fs[path := Directory(Meta(mode, uid, gid))]; }
    }

    /** Opening with the flags 'wx': fails if the path exists. */
    method OpenExclusive(path: Path) returns (ok: bool)
      modifies this`fs
      ensures !ok ==> fs == old(fs)
      ensures ok ==> CanCreate(old(fs), path) && OnlyAt(old(fs), fs, path) && fs[path].File? && fs[path].bytes == []
      ensures reliable && CanCreate(old(fs), path) ==> ok && HasOwner(fs[path])
    {
      var fails := Fails();
      var mode: nat, uid: int, gid: int := *, *, *;
      if reliable && (uid < 0 || gid < 0) { uid, gid := 0, 0; }
      ok := !fails && path !in fs && path != [] && Parent(path) in fs && fs[Parent(path)].Directory?;
      if ok { fs := fs[path := File(Meta(mode, uid, gid), [])]; }
    }

    /** The stream may fail or end at any point. */
    method ReadChunk(path: Path, position: nat) returns (r: Read)
      ensures r.Chunk? ==>
                && path in fs && fs[path].File? && r.bytes != [] && position + |r.bytes| <= |fs[path].bytes|
                && r.bytes == fs[path].bytes[position..position + |r.bytes|]
      ensures reliable && path in fs && fs[path].File? && position <= |fs[path].bytes| ==>
                if position < |fs[path].bytes| then r.Chunk? else r.End?
    {
      var fails := Fails();
      var ends: bool, length: nat := *, *;
      if fails || path !in fs || !fs[path].File? { return ReadFailed; }
      if reliable && position < |fs[path].bytes| {
        ends := false;
        if length == 0 || position + length > |fs[path].bytes| { length := |fs[path].bytes| - position; }
      }
      if ends || length == 0 || position + length > |fs[path].bytes| { return End; }
      r := Chunk(fs[path].bytes[position..position + length]);
    }

    /** A failing write may leave any contents in the file. */
    method Append(path: Path, chunk: seq<byte>) returns (ok: bool)
      requires path in fs && fs[path].File?
      modifies this`fs
      ensures OnlyAt(old(fs), fs, path) && fs[path].File? && fs[path].meta == old(fs)[path].meta
      ensures ok ==> fs[path].bytes == old(fs)[path].bytes + chunk
      ensures reliable ==> ok
    {
      var fails := Fails();
      var damaged: seq<byte> := *;
      ok := !fails;
      fs := fs[path := fs[path].(bytes := if ok then fs[path].bytes + chunk else damaged)];
    }

    /** `chmod` and `chown`: the server may set less or more than it was asked to. */
    method ChangeMeta(path: Path, wanted: Meta) returns (ok: bool)
      requires path in fs
      modifies this`fs
      ensures OnlyAt(old(fs), fs, path) && fs[path] == old(fs)[path].(meta := fs[path].meta)
      ensures reliable ==> ok && fs[path].meta == wanted
    {
      var fails := Fails();
      var exact: bool, mode: nat, uid: int, gid: int := *, *, *, *;
      ok := !fails;
      fs := fs[path := fs[path].(meta := if ok && (exact || reliable) then wanted else Meta(mode, uid, gid))];
    }

    method Unlink(path: Path) returns (r: Removal)
      modifies this
      ensures RemovalMeans(old(fs), fs, path, r)
      ensures refusals == old(refusals) + if r == Refused then 1 else 0
      ensures r == NotEmpty ==> path in old(fs) && old(fs)[path].Directory?
    {
      var refuses: bool := *;
      if path !in fs { return Missing; }
      if fs[path].Directory? { return NotEmpty; }
      if refuses { refusals := refusals + 1; return Refused; }
      fs := fs - {path};
      r := Removed;
    }

    method Rmdir(path: Path) returns (r: Removal)
      modifies this
      ensures RemovalMeans(old(fs), fs, path, r)
      ensures refusals == old(refusals) + if r == Refused then 1 else 0
      ensures r == NotEmpty ==> path in old(fs) && (!old(fs)[path].Directory? || HasChild(old(fs), path))
    {
      var refuses: bool := *;
      if path !in fs { return Missing; }
      if !fs[path].Directory? || exists p :: p in fs && p != [] && Parent(p) == path {
        return NotEmpty;
      }
      if refuses { refusals := refusals + 1; return Refused; }
      fs := fs - {path};
      r := Removed;
    }
  }

  predicate HasOwner(node: Node) { node.meta.uid >= 0 && node.meta.gid >= 0 }

  ghost predicate CanCreate(fs: Tree, path: Path) {
    path !in fs && path != [] && Parent(path) in fs && fs[Parent(path)].Directory?
  }

  ghost predicate HasChild(fs: Tree, path: Path) {
    exists p :: p in fs && p != [] && Parent(p) == path
  }

  ghost predicate RemovalMeans(before: Tree, fs: Tree, path: Path, r: Removal) {
    && (r == Removed ==> path in before && fs == before - {path})
    && (r != Removed ==> fs == before)
    && (r == Missing ==> path !in before)
  }

  // ---------- What the copy owns ----------

  datatype Owned = Owned(path: Path, directory: bool)

  function PathsOf(owned: seq<Owned>): set<Path> {
    set i | 0 <= i < |owned| :: owned[i].path
  }

  /** The tree is the one at the start plus the owned entries, and each of those was created in a
      directory that was there before or is owned and older. */
  ghost predicate Kept(base: Tree, fs: Tree, owned: seq<Owned>) {
    && fs.Keys == base.Keys + PathsOf(owned)
    && (forall p :: p in base ==> p in fs && fs[p] == base[p])
    && (forall i :: 0 <= i < |owned| ==> IsOwned(base, fs, owned, i))
  }

  ghost predicate IsOwned(base: Tree, fs: Tree, owned: seq<Owned>, i: nat)
    requires i < |owned|
  {
    var entry := owned[i];
    && entry.path !in base && entry.path in fs && entry.path != []
    && (if entry.directory then fs[entry.path].Directory? else fs[entry.path].File?)
    && (forall j :: 0 <= j < i ==> owned[j].path != entry.path)
    && ((Parent(entry.path) in base && base[Parent(entry.path)].Directory?)
        || exists j :: 0 <= j < i && owned[j] == Owned(Parent(entry.path), true))
  }

  lemma NothingOwned(base: Tree, fs: Tree)
    requires Kept(base, fs, [])
    ensures fs == base
  {
    assert PathsOf([]) == {};
  }

  lemma KeptIsWellFormed(base: Tree, fs: Tree, owned: seq<Owned>)
    requires WellFormed(base) && Kept(base, fs, owned)
    ensures WellFormed(fs)
  {
    forall path | path in fs && path != [] ensures Parent(path) in fs && fs[Parent(path)].Directory? {
      if path !in base {
        var i :| 0 <= i < |owned| && owned[i].path == path;
        assert IsOwned(base, fs, owned, i);
        if !(Parent(path) in base && base[Parent(path)].Directory?) {
          var j :| 0 <= j < i && owned[j] == Owned(Parent(path), true);
          assert IsOwned(base, fs, owned, j);
        }
      }
    }
  }

  /** A new entry is owned. */
  lemma CreatedIsOwned(base: Tree, before: Tree, fs: Tree, owned: seq<Owned>, path: Path)
    requires Kept(base, before, owned) && CanCreate(before, path) && OnlyAt(before, fs, path) && !fs[path].Special?
    ensures Kept(base, fs, owned + [Owned(path, fs[path].Directory?)])
  {
    var more := owned + [Owned(path, fs[path].Directory?)];
    forall i | 0 <= i < |owned| ensures IsOwned(base, fs, more, i) {
      assert IsOwned(base, before, owned, i);
      if exists j :: 0 <= j < i && owned[j] == Owned(Parent(owned[i].path), true) {
        var j :| 0 <= j < i && owned[j] == Owned(Parent(owned[i].path), true);
        assert more[j] == owned[j];
      }
    }
    if Parent(path) !in base {
      var j :| 0 <= j < |owned| && owned[j].path == Parent(path);
      assert IsOwned(base, before, owned, j);
      assert more[j] == Owned(Parent(path), true);
    }
    assert IsOwned(base, fs, more, |owned|);
    PathsOfMore(owned, more[|owned|]);
  }

  lemma CreatedIsNew(base: Tree, before: Tree, owned: seq<Owned>, path: Path)
    requires Kept(base, before, owned) && path !in before
    ensures path !in base && forall i :: 0 <= i < |owned| ==> owned[i].path != path
  {
    forall i | 0 <= i < |owned| ensures owned[i].path != path {
      assert IsOwned(base, before, owned, i);
    }
  }

  lemma PathsOfMore(owned: seq<Owned>, entry: Owned)
    ensures PathsOf(owned + [entry]) == PathsOf(owned) + {entry.path}
  {
    var more := owned + [entry];
    forall p ensures p in PathsOf(more) <==> p in PathsOf(owned) || p == entry.path {
      if p in PathsOf(owned) {
        var i :| 0 <= i < |owned| && owned[i].path == p;
        assert more[i].path == p;
      }
      assert more[|owned|].path == entry.path;
    }
  }

  /** Changing an owned entry in place keeps it owned. */
  lemma ChangedStaysOwned(base: Tree, before: Tree, fs: Tree, owned: seq<Owned>, path: Path)
    requires Kept(base, before, owned) && path in PathsOf(owned) && OnlyAt(before, fs, path)
    requires (before[path].Directory? && fs[path].Directory?) || (before[path].File? && fs[path].File?)
    ensures Kept(base, fs, owned)
  {
    var k :| 0 <= k < |owned| && owned[k].path == path;
    assert IsOwned(base, before, owned, k);
    forall i | 0 <= i < |owned| ensures IsOwned(base, fs, owned, i) {
      assert IsOwned(base, before, owned, i);
    }
  }

  /** The newest entry is there and holds nothing: removing in reverse order never meets a directory
      that is not empty. */
  lemma NewestIsEmpty(base: Tree, fs: Tree, owned: seq<Owned>)
    requires WellFormed(base) && Kept(base, fs, owned) && owned != []
    ensures var entry := owned[|owned| - 1];
            && entry.path in fs && entry.path !in base && !HasChild(fs, entry.path)
            && (if entry.directory then fs[entry.path].Directory? else fs[entry.path].File?)
  {
    var entry := owned[|owned| - 1];
    assert IsOwned(base, fs, owned, |owned| - 1);
    forall p | p in fs && p != [] ensures Parent(p) != entry.path {
      if p !in base {
        var i :| 0 <= i < |owned| && owned[i].path == p;
        assert IsOwned(base, fs, owned, i);
      }
    }
  }

  lemma StaysOwned(base: Tree, fs: Tree, owned: seq<Owned>, i: nat)
    requires i < |owned| - 1 && IsOwned(base, fs, owned, i) && owned[i].path != owned[|owned| - 1].path
    ensures IsOwned(base, fs - {owned[|owned| - 1].path}, owned[..|owned| - 1], i)
  {
    var rest := owned[..|owned| - 1];
    if exists j :: 0 <= j < i && owned[j] == Owned(Parent(owned[i].path), true) {
      var j :| 0 <= j < i && owned[j] == Owned(Parent(owned[i].path), true);
      assert rest[j] == owned[j];
    }
  }

  /** Without the newest entry the rest is still owned. */
  lemma RestIsKept(base: Tree, fs: Tree, owned: seq<Owned>)
    requires Kept(base, fs, owned) && owned != []
    ensures Kept(base, fs - {owned[|owned| - 1].path}, owned[..|owned| - 1])
  {
    var n := |owned| - 1;
    var entry, rest, less := owned[n], owned[..n], fs - {owned[n].path};
    assert IsOwned(base, fs, owned, n);
    assert forall j :: 0 <= j < n ==> owned[j].path != entry.path;
    forall i | 0 <= i < n ensures IsOwned(base, less, rest, i) {
      StaysOwned(base, fs, owned, i);
    }
    hide IsOwned;
    assert owned == rest + [entry];
    PathsOfMore(rest, entry);
  }

  // ---------- What a copy is ----------

  /** What can be copied at all. */
  predicate Copyable(a: Node) {
    !a.Special? && HasOwner(a) && (a.File? ==> |a.bytes| <= MAX_SAFE_INTEGER)
  }

  /** The same kind, the same bytes, the same permission bits and the same owner. */
  predicate SameNode(a: Node, b: Node) {
    && Copyable(a)
    && (a.File? ==> b.File? && a.bytes == b.bytes)
    && (a.Directory? ==> b.Directory?)
    && SameMeta(a.meta, b.meta)
  }

  predicate SameMeta(a: Meta, b: Meta) {
    a.mode % 0x1000 == b.mode % 0x1000 && a.uid == b.uid && a.gid == b.gid
  }

  function Rebase(path: Path, from: Path, to: Path): Path
    requires from <= path
  {
    to + path[|from|..]
  }

  /** The tree under `to` is that under `from`. */
  ghost predicate Mirrors(base: Tree, from: Path, fs: Tree, to: Path) {
    && (forall p :: p in base && from <= p ==> Rebase(p, from, to) in fs && SameNode(base[p], fs[Rebase(p, from, to)]))
    && (forall q :: q in fs && to <= q ==> Rebase(q, to, from) in base)
  }

  /** Nothing outside `to` changed. */
  ghost predicate OnlyUnder(before: Tree, fs: Tree, to: Path) {
    forall p :: !(to <= p) ==> (p in fs <==> p in before) && (p in fs ==> fs[p] == before[p])
  }

  // ---------- Budget ----------

  datatype Limits = Limits(maxDepth: nat, maxNodes: nat, maxTotalBytes: nat)

  /** None stands for a limit the caller left out; a negative number also for one that is no safe integer. */
  datatype LimitOptions = LimitOptions(maxDepth: Option<int>, maxNodes: Option<int>, maxTotalBytes: Option<int>)

  const DEFAULT_LIMITS := Limits(128, 10000, 8 * 1024 * 1024 * 1024)
  const MAX_SAFE_INTEGER: nat := 0x1F_FFFF_FFFF_FFFF

  function BoundedInteger(value: Option<int>, fallback: nat, minimum: nat): (r: Option<nat>)
    requires minimum <= fallback
    ensures r.Some? <==> value.None? || value.value >= minimum
    ensures r.Some? ==> r.value == (if value.Some? then value.value else fallback) && r.value >= minimum
  {
    var resolved := if value.Some? then value.value else fallback;
    if resolved < minimum then None else Some(resolved)
  }

  datatype CopyError =
    | TargetInsideSource | InvalidLimits | Aborted | ServerFailed | SpecialEntry | InvalidSize
    | TooDeep | TooManyNodes | TooManyBytes | TooManyActualBytes | SizeChanged | OwnershipUnreadable | MetadataMismatch

  datatype Result = Ok | Err(error: CopyError)

  /** What the server answers, or a copy that is cancelled, may end it with these. */
  predicate WhileCopying(error: CopyError) {
    error in {Aborted, ServerFailed, TooManyActualBytes, SizeChanged, OwnershipUnreadable, MetadataMismatch}
  }

  /** What the source explains: an error about its depth, size or kind has its cause there. */
  ghost predicate Explains(base: Tree, source: Path, limits: Limits, error: CopyError) {
    match error
    case TooDeep => exists p :: p in base && source <= p && |p| - |source| > limits.maxDepth
    case TooManyNodes => |NodesUnder(base, source)| > limits.maxNodes
    case TooManyBytes => TreeBytes(base, NodesUnder(base, source)) > limits.maxTotalBytes
    case SpecialEntry => exists p :: p in base && source <= p && base[p].Special?
    case InvalidSize => exists p :: p in base && source <= p && base[p].File? && |base[p].bytes| > MAX_SAFE_INTEGER
    case _ => WhileCopying(error)
  }

  lemma CauseAt(base: Tree, source: Path, limits: Limits, from: Path, nodes: nat, bytes: nat)
    requires from in base && source <= from
    requires nodes <= |NodesUnder(base, source)| && bytes <= TreeBytes(base, NodesUnder(base, source))
    ensures base[from].Special? ==> Explains(base, source, limits, SpecialEntry)
    ensures base[from].File? && |base[from].bytes| > MAX_SAFE_INTEGER ==> Explains(base, source, limits, InvalidSize)
    ensures |from| - |source| > limits.maxDepth ==> Explains(base, source, limits, TooDeep)
    ensures nodes > limits.maxNodes ==> Explains(base, source, limits, TooManyNodes)
    ensures bytes > limits.maxTotalBytes ==> Explains(base, source, limits, TooManyBytes)
  {
    hide NodesUnder, TreeBytes;
  }

  // ---------- The copy ----------

  /** The bytes of the files among the owned entries. */
  function OwnedBytes(fs: Tree, owned: seq<Owned>): nat {
    if owned == [] then 0 else OwnedBytes(fs, owned[..|owned| - 1]) + BytesAt(fs, owned[|owned| - 1].path)
  }

  function BytesAt(fs: Tree, path: Path): nat {
    if path in fs && fs[path].File? then |fs[path].bytes| else 0
  }

  lemma {:induction false} OwnedBytesUnchanged(before: Tree, fs: Tree, owned: seq<Owned>)
    requires forall i :: 0 <= i < |owned| ==> BytesAt(before, owned[i].path) == BytesAt(fs, owned[i].path)
    ensures OwnedBytes(fs, owned) == OwnedBytes(before, owned)
  {
    if owned != [] {
      OwnedBytesUnchanged(before, fs, owned[..|owned| - 1]);
    }
  }

  class CopyOperation {
    const server: SftpServer
    const limits: Limits
    const source: Path
    const target: Path
    var nodes: nat
    var totalBytes: nat
    var actualBytes: nat
    var ownedEntries: seq<Owned>
    /** The tree before the copy. */
    ghost const base: Tree

    constructor (server: SftpServer, source: Path, target: Path, limits: Limits)
      requires !(source <= target) && WellFormed(server.fs)
      ensures Valid() && Settled() && ownedEntries == [] && base == server.fs
      ensures this.server == server && this.source == source && this.target == target && this.limits == limits
    {
      this.server, this.source, this.target, this.limits := server, source, target, limits;
      nodes, totalBytes, actualBytes, ownedEntries := 0, 0, 0, [];
      base := server.fs;
    }

    ghost predicate Valid()
      reads this, server
    {
      && WellFormed(base) && Kept(base, server.fs, ownedEntries)
      && !(source <= target)
      && (ownedEntries != [] ==> target !in base && source in base)
      && InTarget(ownedEntries, target, limits.maxDepth)
      && nodes <= limits.maxNodes && totalBytes <= limits.maxTotalBytes && actualBytes <= limits.maxTotalBytes
    }

    /** Every node counted was created, and the bytes declared, streamed and stored are the same. */
    ghost predicate Settled()
      reads this, server
    {
      && nodes == |ownedEntries| && totalBytes == actualBytes == OwnedBytes(server.fs, ownedEntries)
      && AreCopies(base, source, server.fs, target, ownedEntries)
    }

    /** Nothing stands in the way of the whole copy but what the server may do. */
    ghost predicate MustSucceed() {
      server.reliable && source in base && AllCopyable(base, source) && WithinLimits(base, source, limits)
    }

    method CheckAborted() returns (r: Result)
      ensures r == Ok || r == Err(Aborted)
      ensures server.reliable ==> r == Ok
    {
      var aborted := server.Fails();
      r := if aborted then Err(Aborted) else Ok;
    }

    method ConsumeBudget(depth: nat, bytes: nat) returns (r: Result)
      modifies this`nodes, this`totalBytes
      ensures r.Ok? <==>
          depth <= limits.maxDepth && old(nodes) + 1 <= limits.maxNodes
          && old(totalBytes) + bytes <= limits.maxTotalBytes
      ensures r == Err(TooDeep) <==> depth > limits.maxDepth
      ensures r == Err(TooManyNodes) <==> depth <= limits.maxDepth && old(nodes) + 1 > limits.maxNodes
      ensures r.Err? ==> r.error in {TooDeep, TooManyNodes, TooManyBytes}
      ensures r.Ok? ==> nodes == old(nodes) + 1 && totalBytes == old(totalBytes) + bytes
      ensures !r.Ok? ==> nodes == old(nodes) && totalBytes == old(totalBytes)
    {
      if depth > limits.maxDepth { return Err(TooDeep); }
      if nodes + 1 > limits.maxNodes { return Err(TooManyNodes); }
      if totalBytes + bytes > limits.maxTotalBytes { return Err(TooManyBytes); }
      nodes := nodes + 1;
      totalBytes := totalBytes + bytes;
      r := Ok;
    }

    method ConsumeActualBytes(bytes: nat) returns (r: Result)
      modifies this`actualBytes
      ensures r == if old(actualBytes) + bytes <= limits.maxTotalBytes then Ok else Err(TooManyActualBytes)
      ensures actualBytes == old(actualBytes) + if r.Ok? then bytes else 0
    {
      if actualBytes + bytes > limits.maxTotalBytes { return Err(TooManyActualBytes); }
      actualBytes := actualBytes + bytes;
      r := Ok;
    }

    /** Owner first, as changing it may clear mode bits; what counts is the last look. */
    method ApplyMetadata(path: Path, stat: Stat) returns (r: Result)
      requires Valid() && path in PathsOf(ownedEntries)
      modifies server`fs
      ensures Valid() && path in old(server.fs) && OnlyAt(old(server.fs), server.fs, path)
      ensures server.fs[path] == old(server.fs)[path].(meta := server.fs[path].meta)
      ensures r.Ok? ==> SameMeta(stat.meta, server.fs[path].meta) && stat.meta.uid >= 0 && stat.meta.gid >= 0
      ensures server.reliable && HasOwner(old(server.fs)[path]) && stat.meta.uid >= 0 && stat.meta.gid >= 0 ==> r.Ok?
      ensures r.Err? ==> WhileCopying(r.error)
    {
      hide Kept, WellFormed;
      OwnedIsThere(path);
      r := CheckAborted();
      if r.Err? { return; }
      var copied := server.Lstat(path);
      if copied.None? { return Err(ServerFailed); }
      if stat.meta.uid < 0 || stat.meta.gid < 0 || copied.value.meta.uid < 0 || copied.value.meta.gid < 0 {
        return Err(OwnershipUnreadable);
      }
      if copied.value.meta.uid != stat.meta.uid || copied.value.meta.gid != stat.meta.gid {
        var ok := Change(path, copied.value.meta.(uid := stat.meta.uid, gid := stat.meta.gid));
        if !ok { return Err(ServerFailed); }
        copied := server.Lstat(path);
        if copied.None? { return Err(ServerFailed); }
      }
      if copied.value.meta.mode % 0x1000 != stat.meta.mode % 0x1000 {
        var ok := Change(path, copied.value.meta.(mode := stat.meta.mode % 0x1000));
        if !ok { return Err(ServerFailed); }
      }
      r := CheckAborted();
      if r.Err? { return; }
      copied := server.Lstat(path);
      if copied.None? { return Err(ServerFailed); }
      if copied.value.meta.uid < 0 || copied.value.meta.gid < 0 { return Err(OwnershipUnreadable); }
      if !SameMeta(stat.meta, copied.value.meta) { return Err(MetadataMismatch); }
      r := Ok;
    }

    lemma OwnedIsThere(path: Path)
      requires Valid() && path in PathsOf(ownedEntries)
      ensures path in server.fs && path !in base && !server.fs[path].Special?
    {
      var i :| 0 <= i < |ownedEntries| && ownedEntries[i].path == path;
      assert IsOwned(base, server.fs, ownedEntries, i);
    }

    method Change(path: Path, wanted: Meta) returns (ok: bool)
      requires Valid() && path in PathsOf(ownedEntries)
      modifies server`fs
      ensures Valid() && path in old(server.fs) && OnlyAt(old(server.fs), server.fs, path)
      ensures server.fs[path] == old(server.fs)[path].(meta := server.fs[path].meta)
      ensures server.reliable ==> ok && server.fs[path].meta == wanted
    {
      OwnedIsThere(path);
      hide Kept, WellFormed, InTarget;
      ghost var before := server.fs;
      ok := server.ChangeMeta(path, wanted);
      ChangedStaysOwned(base, before, server.fs, ownedEntries, path);
    }

    // ---------- One entry ----------

    /** `from` and `to` lie at the same place below the source and the target. */
    ghost predicate Corresponds(from: Path, to: Path)
      reads this
    {
      && source <= from && target <= to && from[|source|..] == to[|target|..]
      && (ownedEntries == [] ==> to == target)
    }

    /** The source is as before the copy: no owned entry lies in it. */
    lemma SourceIsUntouched(p: Path)
      requires Valid() && source <= p
      ensures p in server.fs <==> p in base
      ensures p in base ==> server.fs[p] == base[p]
    {
      if p in server.fs && p !in base {
        var i :| 0 <= i < |ownedEntries| && ownedEntries[i].path == p;
        assert target <= p && source <= p;
        assert target <= source;
        AboveIsDirectory(base, target, source);
        assert false;
      }
    }

    /** Takes over an entry that was just created. */
    method Claim(from: Path, to: Path, ghost before: Tree)
      requires WellFormed(base) && Kept(base, before, ownedEntries) && CanCreate(before, to)
          && OnlyAt(before, server.fs, to)
      requires !server.fs[to].Special?
      requires !(source <= target) && InTarget(ownedEntries, target, limits.maxDepth)
      requires ownedEntries != [] ==> target !in base && source in base
      requires Corresponds(from, to) && from in base && |to| - |target| <= limits.maxDepth
      requires nodes <= limits.maxNodes && totalBytes <= limits.maxTotalBytes && actualBytes <= limits.maxTotalBytes
      modifies this`ownedEntries
      ensures Valid() && ownedEntries == old(ownedEntries) + [Owned(to, server.fs[to].Directory?)]
      ensures to in PathsOf(ownedEntries) && to !in before
      ensures OwnedBytes(server.fs, ownedEntries) == OwnedBytes(before, old(ownedEntries)) + BytesAt(server.fs, to)
    {
      hide Kept, OwnedBytes, PathsOf;
      CreatedIsOwned(base, before, server.fs, ownedEntries, to);
      CreatedIsNew(base, before, ownedEntries, to);
      PathsOfMore(ownedEntries, Owned(to, server.fs[to].Directory?));
      AboveIsDirectory(base, source, from);
      hide WellFormed;
      ClaimedBytes(before, server.fs, ownedEntries, to);
      ghost var owned := ownedEntries;
      var isDirectory := to in server.fs && server.fs[to].Directory?;
      ownedEntries := ownedEntries + [Owned(to, isDirectory)];
      assert ownedEntries[|owned|].path == to;
    }

    /** The pipeline: what it wrote is what it counted, and begins the source file. */
    method Stream(from: Path, to: Path) returns (r: Result)
      requires Valid() && from in base && base[from].File? && source <= from
      requires to in PathsOf(ownedEntries) && to in server.fs && server.fs[to].File? && server.fs[to].bytes == []
      modifies this`actualBytes, server`fs
      ensures Valid() && OnlyAt(old(server.fs), server.fs, to) && server.fs[to].File?
      ensures r.Ok? ==>
                var count := actualBytes - old(actualBytes);
                0 <= count <= |base[from].bytes| && server.fs[to].bytes == base[from].bytes[..count]
      ensures server.fs[to].meta == old(server.fs)[to].meta
      ensures server.reliable && old(actualBytes) + |base[from].bytes| <= limits.maxTotalBytes ==>
                r.Ok? && actualBytes == old(actualBytes) + |base[from].bytes|
      ensures r.Err? ==> WhileCopying(r.error)
    {
      hide Kept, WellFormed, InTarget, Corresponds;
      var position := 0;
      OwnedIsThere(to);
      while true
        invariant Valid() && OnlyAt(old(server.fs), server.fs, to) && server.fs[to].File? && to !in base
        invariant actualBytes == old(actualBytes) + position && position <= |base[from].bytes|
        invariant server.fs[to].bytes == base[from].bytes[..position] && server.fs[to].meta == old(server.fs)[to].meta
        decreases |base[from].bytes| - position
      {
        r := CheckAborted();
        if r.Err? { return; }
        SourceIsUntouched(from);
        var read := server.ReadChunk(from, position);
        if read.ReadFailed? { return Err(ServerFailed); }
        if read.End? { return Ok; }
        r := ConsumeActualBytes(|read.bytes|);
        if r.Err? { return; }
        ghost var before := server.fs;
        var ok := server.Append(to, read.bytes);
        ChangedStaysOwned(base, before, server.fs, ownedEntries, to);
        if !ok { return Err(ServerFailed); }
        assert base[from].bytes[..position] + read.bytes == base[from].bytes[..position + |read.bytes|];
        position := position + |read.bytes|;
      }
    }

    /** The new file gets the bytes and the metadata. */
    method Fill(from: Path, to: Path, stat: Stat) returns (r: Result)
      requires Valid() && from in base && base[from].File? && stat == StatOf(base[from]) && source <= from
      requires to in PathsOf(ownedEntries) && to in server.fs && server.fs[to].File? && server.fs[to].bytes == []
      requires stat.size <= MAX_SAFE_INTEGER
      modifies this`actualBytes, server`fs
      ensures Valid() && OnlyAt(old(server.fs), server.fs, to) && server.fs[to].File?
      ensures r.Ok? ==> SameNode(base[from], server.fs[to]) && actualBytes == old(actualBytes) + stat.size
      ensures server.reliable && Copyable(base[from]) && HasOwner(old(server.fs)[to]) ==>
                old(actualBytes) + stat.size <= limits.maxTotalBytes ==> r.Ok?
      ensures r.Err? ==> WhileCopying(r.error)
    {
      hide Kept, WellFormed, InTarget, PathsOf;
      var actualBytesBefore := actualBytes;
      r := Stream(from, to);
      if r.Err? { return; }
      r := CheckAborted();
      if r.Err? { return; }
      if actualBytes - actualBytesBefore != stat.size { return Err(SizeChanged); }
      assert server.fs[to].bytes == base[from].bytes;
      r := ApplyMetadata(to, stat);
    }

    method CopyFile(from: Path, to: Path, stat: Stat) returns (r: Result)
      requires Valid() && Corresponds(from, to) && |to| - |target| <= limits.maxDepth
      requires from in base && base[from].File? && stat == StatOf(base[from])
      requires nodes == |ownedEntries| + 1 && actualBytes == OwnedBytes(server.fs, ownedEntries)
          && totalBytes == actualBytes + stat.size
      requires AreCopies(base, source, server.fs, target, ownedEntries) && stat.size <= MAX_SAFE_INTEGER
      modifies this`actualBytes, this`ownedEntries, server`fs
      ensures Valid() && OnlyUnder(old(server.fs), server.fs, to) && old(ownedEntries) <= ownedEntries
      ensures r.Ok? ==>
          Settled() && Mirrors(base, from, server.fs, to) && ownedEntries != [] && CanCreate(old(server.fs), to)
      ensures server.reliable && Copyable(base[from]) && CanCreate(old(server.fs), to) ==> r.Ok?
      ensures r.Err? ==> WhileCopying(r.error)
    {
      hide Kept, WellFormed, InTarget, OwnedBytes, OnlyUnder, Mirrors, AreCopies, CanCreate, PathsOf, Rebase;
      ghost var before := server.fs;
      OnlyUnderNothing(before, to);
      r := CheckAborted();
      if r.Err? { return; }
      var ok := server.OpenExclusive(to);
      if !ok { return Err(ServerFailed); }
      Claim(from, to, before);
      r := Fill(from, to, stat);
      OnlyUnderThenAt(before, before, server.fs, to);
      if r.Err? { return; }
      FileIsCopied(before, from, to);
      ClaimIsCopy(before, old(ownedEntries), from, to);
    }

    lemma FileIsCopied(before: Tree, from: Path, to: Path)
      requires Valid() && OnlyAt(before, server.fs, to) && to !in before && server.fs[to].File?
      requires from in base && base[from].File? && SameNode(base[from], server.fs[to])
      requires ownedEntries != [] && ownedEntries[|ownedEntries| - 1] == Owned(to, false)
      ensures Mirrors(base, from, server.fs, to)
      ensures OwnedBytes(server.fs, ownedEntries) == OwnedBytes(before, ownedEntries[..|ownedEntries| - 1])
          + |base[from].bytes|
    {
      hide Kept, WellFormed, OwnedBytes, Mirrors;
      KeptIsWellFormed(base, server.fs, ownedEntries);
      FileMirrors(base, from, server.fs, to);
      var older := ownedEntries[..|ownedEntries| - 1];
      assert ownedEntries == older + [Owned(to, false)];
      OlderAreOther(older, Owned(to, false));
      ClaimedBytes(before, server.fs, older, to);
    }

    lemma OlderAreOther(older: seq<Owned>, entry: Owned)
      requires Valid() && ownedEntries == older + [entry]
      ensures forall i :: 0 <= i < |older| ==> older[i].path != entry.path
    {
      assert IsOwned(base, server.fs, ownedEntries, |older|);
      assert forall i :: 0 <= i < |older| ==> ownedEntries[i] == older[i];
    }

    // ---------- A directory and what it holds ----------

    method CopyDirectory(from: Path, to: Path, stat: Stat, depth: nat) returns (r: Result)
      requires Valid() && Corresponds(from, to) && depth == |to| - |target| <= limits.maxDepth
      requires from in base && base[from].Directory? && stat == StatOf(base[from])
      requires nodes == |ownedEntries| + 1 && totalBytes == actualBytes == OwnedBytes(server.fs, ownedEntries)
      requires AreCopies(base, source, server.fs, target, ownedEntries)
      modifies this`nodes, this`totalBytes, this`actualBytes, this`ownedEntries, server`fs
      ensures Valid() && OnlyUnder(old(server.fs), server.fs, to) && old(ownedEntries) <= ownedEntries
      ensures r.Ok? ==>
          Settled() && Mirrors(base, from, server.fs, to) && ownedEntries != [] && CanCreate(old(server.fs), to)
      ensures MustSucceed() && CanCreate(old(server.fs), to) ==> r.Ok?
      ensures r.Err? ==> Explains(base, source, limits, r.error)
      decreases limits.maxDepth + 1 - depth, 0
    {
      hide Kept, WellFormed, InTarget, OwnedBytes, Mirrors, OnlyUnder, ChildrenMirror, AreCopies, CanCreate,
          AllCopyable, WithinLimits, PathsOf, Rebase;
      ghost var before := server.fs;
      OnlyUnderNothing(before, to);
      r := CheckAborted();
      if r.Err? { return; }
      KeptIsWellFormed(base, before, ownedEntries);
      var ok := server.Mkdir(to);
      if !ok { return Err(ServerFailed); }
      Claim(from, to, before);
      OnlyUnderThenAt(before, before, server.fs, to);
      r := CheckAborted();
      if r.Err? { return; }
      var names := server.List(from);
      if names.None? { return Err(ServerFailed); }
      ClaimIsCopy(before, old(ownedEntries), from, to);
      ListedFromBase(from, names.value);
      NewDirectoryIsEmpty(base, from, before, server.fs, to, names.value);
      r := CopyChildren(from, to, names.value, depth, before);
      if r.Err? { return; }
      ghost var copied := server.fs;
      CopyableIn(base, source, from);
      r := ApplyMetadata(to, stat);
      OnlyUnderThenAt(before, copied, server.fs, to);
      if r.Err? { return; }
      OnlyMetaChanged(base, source, copied, server.fs, target, ownedEntries, to);
      ChildrenMirrorAfter(base, from, copied, server.fs, to, names.value);
      DirectoryMirrors(base, from, server.fs, to, names.value);
    }

    lemma ListedFromBase(from: Path, names: seq<string>)
      requires Valid() && source <= from
      requires forall name :: name in names <==> from + [name] in server.fs
      ensures forall name :: name in names <==> from + [name] in base
    {
      forall name ensures name in names <==> from + [name] in base {
        SourceIsUntouched(from + [name]);
      }
    }

    /** The loop over the entries of a directory. */
    method CopyChildren(from: Path, to: Path, names: seq<string>, depth: nat, ghost before: Tree) returns (r: Result)
      requires Valid() && Settled() && Corresponds(from, to) && depth == |to| - |target| <= limits.maxDepth
          && ownedEntries != []
      requires forall i, j :: 0 <= i < j < |names| ==> names[i] != names[j]
      requires to in PathsOf(ownedEntries) && to in server.fs && server.fs[to].Directory?
      requires ChildrenMirror(base, from, server.fs, to, names, 0) && OnlyUnder(before, server.fs, to)
      requires forall name :: name in names ==> from + [name] in base
      modifies this`nodes, this`totalBytes, this`actualBytes, this`ownedEntries, server`fs
      ensures Valid() && OnlyUnder(before, server.fs, to) && old(ownedEntries) <= ownedEntries
      ensures r.Ok? ==>
                && Settled() && ChildrenMirror(base, from, server.fs, to, names, |names|)
                && to in PathsOf(ownedEntries) && to in server.fs && server.fs[to] == old(server.fs)[to]
      ensures MustSucceed() ==> r.Ok?
      ensures r.Err? ==> Explains(base, source, limits, r.error)
      decreases limits.maxDepth + 1 - depth, 0, 0
    {
      hide Kept, WellFormed, InTarget, Mirrors, Settled, ChildrenMirror, CanCreate, AllCopyable, WithinLimits;
      var i := 0;
      while i < |names|
        invariant 0 <= i <= |names|
        invariant Valid() && Settled() && ownedEntries != [] && old(ownedEntries) <= ownedEntries
        invariant OnlyUnder(before, server.fs, to)
        invariant to in server.fs && server.fs[to] == old(server.fs)[to]
        invariant ChildrenMirror(base, from, server.fs, to, names, i)
      {
        r := CheckAborted();
        if r.Err? { return; }
        var sourcePath, targetPath := from + [names[i]], to + [names[i]];
        ghost var fs := server.fs;
        NextCanBeCreated(base, from, fs, to, names, i);
        assert names[i] in names && sourcePath in base;
        r := CopyEntryWithinBudget(sourcePath, targetPath, depth + 1);
        OnlyUnderMore(before, fs, server.fs, to, names[i]);
        if r.Err? { return; }
        OneMoreChild(base, from, fs, server.fs, to, names, i);
        i := i + 1;
      }
      r := Ok;
    }

    method CopyEntryWithinBudget(from: Path, to: Path, depth: nat) returns (r: Result)
      requires Valid() && Settled() && Corresponds(from, to) && depth == |to| - |target| <= limits.maxDepth + 1
      requires if ownedEntries == [] then from == source else to !in server.fs
      modifies this`nodes, this`totalBytes, this`actualBytes, this`ownedEntries, server`fs
      ensures Valid() && OnlyUnder(old(server.fs), server.fs, to) && old(ownedEntries) <= ownedEntries
      ensures r.Ok? ==>
          Settled() && Mirrors(base, from, server.fs, to) && ownedEntries != [] && CanCreate(old(server.fs), to)
      ensures MustSucceed() && from in base && CanCreate(old(server.fs), to) ==> r.Ok?
      ensures r.Err? ==> Explains(base, source, limits, r.error)
      decreases limits.maxDepth + 1 - depth, 1
    {
      hide Kept, WellFormed, InTarget, Mirrors, OwnedBytes, AreCopies, CanCreate, AllCopyable, WithinLimits, Explains;
      if MustSucceed() && from in base && CanCreate(server.fs, to) {
        RoomForOneMore(from, to);
      }
      if from in base { WhyRefused(from, to); }
      assert Explains(base, source, limits, Aborted) && Explains(base, source, limits, ServerFailed) by {
        ServerExplains();
      }
      SourceIsUntouched(from);
      r := CheckAborted();
      if r.Err? { return; }
      var sourceStat := server.Lstat(from);
      if sourceStat.None? { return Err(ServerFailed); }
      r := CheckAborted();
      if r.Err? { return; }
      if sourceStat.value.kind == IsSpecial { return Err(SpecialEntry); }
      var bytes := if sourceStat.value.kind == IsFile then sourceStat.value.size else 0;
      assert bytes == BytesAt(base, from);
      if bytes > MAX_SAFE_INTEGER { return Err(InvalidSize); }
      r := ConsumeBudget(depth, bytes);
      if r.Err? { return; }
      if sourceStat.value.kind == IsDirectory {
        r := CopyDirectory(from, to, sourceStat.value, depth);
      } else {
        r := CopyFile(from, to, sourceStat.value);
        ServerExplains();
      }
    }

    lemma ServerExplains()
      ensures forall e :: WhileCopying(e) ==> Explains(base, source, limits, e)
    {
    }

    /** What an entry that is refused says about the source. */
    lemma WhyRefused(from: Path, to: Path)
      requires Valid() && Settled() && Corresponds(from, to) && from in base
      requires ownedEntries == [] || to !in server.fs
      ensures base[from].Special? ==> Explains(base, source, limits, SpecialEntry)
      ensures base[from].File? && |base[from].bytes| > MAX_SAFE_INTEGER ==> Explains(base, source, limits, InvalidSize)
      ensures |to| - |target| > limits.maxDepth ==> Explains(base, source, limits, TooDeep)
      ensures nodes + 1 > limits.maxNodes ==> Explains(base, source, limits, TooManyNodes)
      ensures totalBytes + BytesAt(base, from) > limits.maxTotalBytes ==> Explains(base, source, limits, TooManyBytes)
    {
      MissingCounts(from, to);
      assert |from| - |source| == |to| - |target| by {
        assert |from[|source|..]| == |to[|target|..]|;
      }
      CauseAt(base, source, limits, from, nodes + 1, totalBytes + BytesAt(base, from));
      hide Kept, WellFormed, InTarget, OwnedBytes, AreCopies, TreeBytes, NodesUnder, Explains, BytesAt, PathsOf;
    }

    lemma ClaimIsCopy(before: Tree, owned: seq<Owned>, from: Path, to: Path)
      requires Kept(base, before, owned) && AreCopies(base, source, before, target, owned)
      requires OnlyAt(before, server.fs, to) && to !in before && Corresponds(from, to) && from in base
      requires BytesAt(server.fs, to) <= BytesAt(base, from)
      ensures forall directory :: AreCopies(base, source, server.fs, target, owned + [Owned(to, directory)])
    {
      forall i | 0 <= i < |owned| ensures owned[i].path in before {
        assert IsOwned(base, before, owned, i);
      }
      assert Rebase(to, target, source) == from;
      forall directory ensures AreCopies(base, source, server.fs, target, owned + [Owned(to, directory)]) {
        MoreAreCopies(base, source, before, server.fs, target, owned, Owned(to, directory));
      }
    }

    /** While an entry is missing, the source has one more, with its bytes, than was counted. */
    lemma MissingCounts(from: Path, to: Path)
      requires Valid() && Settled() && Corresponds(from, to) && from in base
      requires ownedEntries == [] || to !in server.fs
      ensures nodes + 1 <= |NodesUnder(base, source)|
      ensures totalBytes + BytesAt(base, from) <= TreeBytes(base, NodesUnder(base, source))
    {
      AllAreNew(base, server.fs, ownedEntries);
      OwnedCountExactly(ownedEntries);
      OwnedBytesOfSet(server.fs, ownedEntries);
      var paths, others := PathsOf(ownedEntries), NodesUnder(base, source) - {from};
      forall p | p in paths
        ensures target <= p && Rebase(p, target, source) in others
            && BytesAt(server.fs, p) <= BytesAt(base, Rebase(p, target, source))
      {
        CopyOfAnother(from, to, p);
      }
      hide Kept, OwnedBytes, TreeBytes, BytesAt, PathsOf;
      CountByRebase(server.fs, target, base, source, paths, others);
      TreeBytesWithout(base, NodesUnder(base, source), from);
    }

    /** While an entry is missing, the limits that hold for the whole source hold for one entry more. */
    lemma RoomForOneMore(from: Path, to: Path)
      requires Valid() && Settled() && Corresponds(from, to) && from in base && CanCreate(server.fs, to)
      requires AllCopyable(base, source) && WithinLimits(base, source, limits)
      ensures Copyable(base[from]) && |from| - |source| <= limits.maxDepth
      ensures nodes + 1 <= limits.maxNodes && totalBytes + BytesAt(base, from) <= limits.maxTotalBytes
    {
      MissingCounts(from, to);
      hide Kept, OwnedBytes, TreeBytes, BytesAt, PathsOf, Copyable;
    }

    lemma CopyOfAnother(from: Path, to: Path, p: Path)
      requires Valid() && Settled() && Corresponds(from, to) && to !in server.fs && p in PathsOf(ownedEntries)
      ensures target <= p && source <= Rebase(p, target, source) && Rebase(p, target, source) != from
      ensures IsCopy(base, source, server.fs, target, p)
    {
      var i :| 0 <= i < |ownedEntries| && ownedEntries[i].path == p;
      assert IsOwned(base, server.fs, ownedEntries, i);
      assert IsCopy(base, source, server.fs, target, ownedEntries[i].path);
      var copy := Rebase(p, target, source);
      assert copy[|source|..] == p[|target|..];
      assert p == target + p[|target|..] && to == target + to[|target|..];
    }

    // ---------- Clean-up ----------

    /** Removes what was created, newest first. Unless the server refuses a removal for a reason of its
        own, the tree is the one before the copy; what was there before is never touched. */
    method CleanUp() returns (failed: bool)
      requires Valid()
      modifies server
      ensures Intact(base, server.fs) && server.refusals >= old(server.refusals)
      ensures server.refusals == old(server.refusals) ==> server.fs == base && !failed
    {
      hide Kept, WellFormed, InTarget;
      failed := false;
      AllAreNew(base, server.fs, ownedEntries);
      var k := |ownedEntries|;
      assert ownedEntries[..k] == ownedEntries;
      while k > 0
        invariant 0 <= k <= |ownedEntries| && ownedEntries == old(ownedEntries)
        invariant Intact(base, server.fs) && server.refusals >= old(server.refusals)
        invariant server.refusals == old(server.refusals) ==> Kept(base, server.fs, ownedEntries[..k]) && !failed
      {
        var owned := ownedEntries[k - 1];
        var removal: Removal;
        ghost var fs, left := server.fs, ownedEntries[..k];
        if server.refusals == old(server.refusals) {
          NewestIsEmpty(base, fs, left);
          RestIsKept(base, fs, left);
        }
        if owned.directory {
          removal := server.Rmdir(owned.path);
        } else {
          removal := server.Unlink(owned.path);
        }
        if removal != Removed && removal != Missing { failed := true; }
        k := k - 1;
        assert left[..|left| - 1] == ownedEntries[..k];
      }
      if server.refusals == old(server.refusals) {
        assert ownedEntries[..0] == [];
        NothingOwned(base, server.fs);
      }
    }

    // ---------- What a finished copy kept to ----------

    lemma FinishedWithinLimits()
      requires Valid() && Settled() && ownedEntries != [] && source in base && Mirrors(base, source, server.fs, target)
      ensures WithinLimits(base, source, limits)
    {
      hide Mirrors, OwnedBytes, TreeBytes, SameNode;
      var copies := NodesUnder(server.fs, target);
      OwnedAreUnderTarget();
      OwnedCount(ownedEntries);
      AllAreNew(base, server.fs, ownedEntries);
      MirrorsCount(base, source, server.fs, target);
      OwnedBytesOfSet(server.fs, ownedEntries);
      forall p | p in base && source <= p ensures |p| - |source| <= limits.maxDepth {
        MirrorOf(base, source, server.fs, target, p);
        assert Rebase(p, source, target) in copies;
      }
    }

    lemma OwnedAreUnderTarget()
      requires Valid() && ownedEntries != []
      ensures NodesUnder(server.fs, target) == PathsOf(ownedEntries)
      ensures forall p :: p in PathsOf(ownedEntries) ==> |p| - |target| <= limits.maxDepth
    {
      forall p | p in server.fs && target <= p ensures p in PathsOf(ownedEntries) {
        if p in base { AboveIsDirectory(base, target, p); }
      }
    }
  }

  /** Everything under the path can be copied. */
  ghost predicate AllCopyable(fs: Tree, path: Path) {
    forall p :: p in fs && path <= p ==> Copyable(fs[p])
  }

  lemma CopyableIn(fs: Tree, path: Path, p: Path)
    ensures AllCopyable(fs, path) && p in fs && path <= p ==> Copyable(fs[p])
  {
  }

  /** The owned entries are copies of entries of the source, with no more bytes. */
  ghost predicate AreCopies(base: Tree, source: Path, fs: Tree, target: Path, owned: seq<Owned>) {
    forall i :: 0 <= i < |owned| ==> IsCopy(base, source, fs, target, owned[i].path)
  }

  ghost predicate IsCopy(base: Tree, source: Path, fs: Tree, target: Path, p: Path) {
    target <= p && Rebase(p, target, source) in base && BytesAt(fs, p) <= BytesAt(base, Rebase(p, target, source))
  }

  lemma MoreAreCopies(base: Tree, source: Path, before: Tree, fs: Tree, target: Path, owned: seq<Owned>, entry: Owned)
    requires AreCopies(base, source, before, target, owned) && OnlyAt(before, fs, entry.path) && entry.path !in before
    requires forall i :: 0 <= i < |owned| ==> owned[i].path in before
    requires IsCopy(base, source, fs, target, entry.path)
    ensures AreCopies(base, source, fs, target, owned + [entry])
  {
  }

  lemma CopiesUnchanged(base: Tree, source: Path, before: Tree, fs: Tree, target: Path, owned: seq<Owned>)
    requires AreCopies(base, source, before, target, owned)
    requires forall i :: 0 <= i < |owned| ==> BytesAt(fs, owned[i].path) == BytesAt(before, owned[i].path)
    ensures AreCopies(base, source, fs, target, owned)
  {
  }

  /** The next child is not there yet, and its parent is. */
  lemma NextCanBeCreated(base: Tree, from: Path, fs: Tree, to: Path, names: seq<string>, i: nat)
    requires i < |names| && ChildrenMirror(base, from, fs, to, names, i) && to in fs && fs[to].Directory?
    requires forall i, j :: 0 <= i < j < |names| ==> names[i] != names[j]
    ensures CanCreate(fs, to + [names[i]])
  {
    var path := to + [names[i]];
    assert path[|to|] == names[i] && names[i] !in names[..i];
    assert Parent(path) == to;
  }

  ghost predicate Intact(base: Tree, fs: Tree) {
    forall p :: p in base ==> p in fs && fs[p] == base[p]
  }

  lemma AllAreNew(base: Tree, fs: Tree, owned: seq<Owned>)
    requires Kept(base, fs, owned)
    ensures Intact(base, fs)
    ensures forall i :: 0 <= i < |owned| ==> owned[i].path !in base
    ensures forall i, j :: 0 <= i < j < |owned| ==> owned[i].path != owned[j].path
  {
    forall j | 0 <= j < |owned| ensures owned[j].path !in base && forall i :: 0 <= i < j ==>
        owned[i].path != owned[j].path {
      assert IsOwned(base, fs, owned, j);
    }
  }

  function NodesUnder(fs: Tree, path: Path): set<Path> {
    set p | p in fs && path <= p
  }

  ghost function TreeBytes(fs: Tree, paths: set<Path>): nat {
    if paths == {} then 0 else var p :| p in paths; BytesAt(fs, p) + TreeBytes(fs, paths - {p})
  }

  lemma {:induction false} TreeBytesWithout(fs: Tree, paths: set<Path>, p: Path)
    requires p in paths
    ensures TreeBytes(fs, paths) == BytesAt(fs, p) + TreeBytes(fs, paths - {p})
  {
    var q :| q in paths && TreeBytes(fs, paths) == BytesAt(fs, q) + TreeBytes(fs, paths - {q});
    if p != q {
      TreeBytesWithout(fs, paths - {q}, p);
      TreeBytesWithout(fs, paths - {p}, q);
      assert paths - {q} - {p} == paths - {p} - {q};
    }
  }

  /** Neither too deep, nor too many nodes, nor too many bytes. */
  ghost predicate WithinLimits(fs: Tree, from: Path, limits: Limits) {
    && (forall p :: p in fs && from <= p ==> |p| - |from| <= limits.maxDepth)
    && |NodesUnder(fs, from)| <= limits.maxNodes
    && TreeBytes(fs, NodesUnder(fs, from)) <= limits.maxTotalBytes
  }

  lemma {:induction false} OwnedCount(owned: seq<Owned>)
    ensures |PathsOf(owned)| <= |owned|
  {
    if owned != [] {
      var rest := owned[..|owned| - 1];
      OwnedCount(rest);
      assert owned == rest + [owned[|owned| - 1]];
      PathsOfMore(rest, owned[|owned| - 1]);
    }
  }

  lemma {:induction false} OwnedBytesOfSet(fs: Tree, owned: seq<Owned>)
    requires forall i, j :: 0 <= i < j < |owned| ==> owned[i].path != owned[j].path
    ensures TreeBytes(fs, PathsOf(owned)) == OwnedBytes(fs, owned)
  {
    if owned != [] {
      var rest, last := owned[..|owned| - 1], owned[|owned| - 1];
      OwnedBytesOfSet(fs, rest);
      assert owned == rest + [last];
      PathsOfMore(rest, last);
      assert last.path !in PathsOf(rest);
      TreeBytesWithout(fs, PathsOf(owned), last.path);
      assert PathsOf(owned) - {last.path} == PathsOf(rest);
    }
  }

  /** A mirrored tree has at most as many nodes and as many bytes as its mirror. */
  lemma MirrorsCount(base: Tree, from: Path, fs: Tree, to: Path)
    requires Mirrors(base, from, fs, to)
    ensures |NodesUnder(base, from)| <= |NodesUnder(fs, to)|
    ensures TreeBytes(base, NodesUnder(base, from)) <= TreeBytes(fs, NodesUnder(fs, to))
  {
    CountByRebase(base, from, fs, to, NodesUnder(base, from), NodesUnder(fs, to));
  }

  lemma {:induction false} CountByRebase(a: Tree, from: Path, b: Tree, to: Path, nodes: set<Path>, copies: set<Path>)
    requires forall p :: p in nodes ==>
        from <= p && Rebase(p, from, to) in copies && BytesAt(a, p) <= BytesAt(b, Rebase(p, from, to))
    ensures |nodes| <= |copies| && TreeBytes(a, nodes) <= TreeBytes(b, copies)
    decreases nodes
  {
    if nodes != {} {
      var p :| p in nodes;
      var copy := Rebase(p, from, to);
      forall q | q in nodes - {p} ensures Rebase(q, from, to) in copies - {copy} {
        assert q == from + Rebase(q, from, to)[|to|..] && p == from + copy[|to|..];
      }
      CountByRebase(a, from, b, to, nodes - {p}, copies - {copy});
      TreeBytesWithout(a, nodes, p);
      TreeBytesWithout(b, copies, copy);
    }
  }

  lemma {:induction false} OwnedCountExactly(owned: seq<Owned>)
    requires forall i, j :: 0 <= i < j < |owned| ==> owned[i].path != owned[j].path
    ensures |PathsOf(owned)| == |owned|
  {
    if owned != [] {
      var rest, last := owned[..|owned| - 1], owned[|owned| - 1];
      OwnedCountExactly(rest);
      assert owned == rest + [last];
      PathsOfMore(rest, last);
      assert last.path !in PathsOf(rest);
    }
  }

  lemma ClaimedBytes(before: Tree, fs: Tree, owned: seq<Owned>, path: Path)
    requires OnlyAt(before, fs, path) && forall i :: 0 <= i < |owned| ==> owned[i].path != path
    ensures forall directory ::
        OwnedBytes(fs, owned + [Owned(path, directory)]) == OwnedBytes(before, owned) + BytesAt(fs, path)
  {
    OwnedBytesUnchanged(before, fs, owned);
    forall directory ensures OwnedBytes(fs, owned + [Owned(path, directory)]) == OwnedBytes(before, owned)
        + BytesAt(fs, path) {
      assert (owned + [Owned(path, directory)])[..|owned|] == owned;
    }
  }

  lemma NothingBelowFile(fs: Tree, path: Path)
    requires WellFormed(fs) && path in fs && !fs[path].Directory?
    ensures forall p :: p in fs && path <= p ==> p == path
  {
    forall p | p in fs && path <= p ensures p == path {
      AboveIsDirectory(fs, path, p);
    }
  }

  lemma FileMirrors(base: Tree, from: Path, fs: Tree, to: Path)
    requires WellFormed(base) && WellFormed(fs) && from in base && to in fs && base[from].File?
        && SameNode(base[from], fs[to])
    ensures Mirrors(base, from, fs, to)
  {
    NothingBelowFile(base, from);
    NothingBelowFile(fs, to);
    assert Rebase(from, from, to) == to && Rebase(to, to, from) == from;
  }

  lemma OnlyMetaChanged(base: Tree, source: Path, before: Tree, fs: Tree, target: Path, owned: seq<Owned>, path: Path)
    requires OnlyAt(before, fs, path) && path in before && fs[path] == before[path].(meta := fs[path].meta)
    ensures OwnedBytes(fs, owned) == OwnedBytes(before, owned)
    ensures AreCopies(base, source, before, target, owned) ==> AreCopies(base, source, fs, target, owned)
  {
    hide AreCopies;
    OwnedBytesUnchanged(before, fs, owned);
    if AreCopies(base, source, before, target, owned) {
      CopiesUnchanged(base, source, before, fs, target, owned);
    }
  }

  // ---------- Copied children ----------

  /** The first `k` names are copied, and below `to` there is nothing else. */
  ghost predicate ChildrenMirror(base: Tree, from: Path, fs: Tree, to: Path, names: seq<string>, k: nat)
    requires k <= |names|
  {
    && (forall j :: 0 <= j < k ==> Mirrors(base, from + [names[j]], fs, to + [names[j]]))
    && (forall q :: q in fs && to <= q && q != to ==> q[|to|] in names[..k])
  }

  lemma NewDirectoryIsEmpty(base: Tree, from: Path, before: Tree, fs: Tree, to: Path, names: seq<string>)
    requires WellFormed(before) && OnlyAt(before, fs, to) && to !in before
    ensures ChildrenMirror(base, from, fs, to, names, 0) && OnlyUnder(before, fs, to)
  {
    forall q | q in fs && to <= q ensures q == to {
      if q in before { AboveIsDirectory(before, to, q); }
    }
  }

  lemma OnlyUnderNothing(fs: Tree, to: Path)
    ensures OnlyUnder(fs, fs, to)
  {
  }

  lemma OnlyUnderThenAt(before: Tree, fs: Tree, after: Tree, to: Path)
    requires OnlyUnder(before, fs, to) && OnlyAt(fs, after, to)
    ensures OnlyUnder(before, after, to)
  {
  }

  lemma OnlyUnderMore(before: Tree, fs: Tree, after: Tree, to: Path, name: string)
    requires OnlyUnder(before, fs, to) && OnlyUnder(fs, after, to + [name])
    ensures OnlyUnder(before, after, to)
    ensures to in fs ==> to in after && after[to] == fs[to]
  {
    assert !(to + [name] <= to);
    forall p | !(to <= p) ensures (p in after <==> p in before) && (p in after ==> after[p] == before[p]) {
      assert !(to + [name] <= p);
    }
  }

  /** What lies under `to` is the same in both trees, so what mirrors it still does. */
  lemma MirrorsUntouched(base: Tree, from: Path, fs: Tree, after: Tree, to: Path)
    requires Mirrors(base, from, fs, to)
    requires forall q :: to <= q ==> (q in after <==> q in fs) && (q in fs ==> after[q] == fs[q])
    ensures Mirrors(base, from, after, to)
  {
    forall p | p in base && from <= p ensures Rebase(p, from, to) in after
        && SameNode(base[p], after[Rebase(p, from, to)]) {
      assert to <= Rebase(p, from, to);
    }
  }

  lemma OneMoreChild(base: Tree, from: Path, fs: Tree, after: Tree, to: Path, names: seq<string>, i: nat)
    requires i < |names| && forall k, j :: 0 <= k < j < |names| ==> names[k] != names[j]
    requires ChildrenMirror(base, from, fs, to, names, i) && OnlyUnder(fs, after, to + [names[i]])
    requires Mirrors(base, from + [names[i]], after, to + [names[i]])
    ensures ChildrenMirror(base, from, after, to, names, i + 1)
  {
    hide Mirrors;
    forall j | 0 <= j < i ensures Mirrors(base, from + [names[j]], after, to + [names[j]]) {
      forall q | to + [names[j]] <= q ensures (q in after <==> q in fs) && (q in fs ==> after[q] == fs[q]) {
        assert q[|to|] == names[j];
        assert !(to + [names[i]] <= q);
      }
      MirrorsUntouched(base, from + [names[j]], fs, after, to + [names[j]]);
    }
    forall q | q in after && to <= q && q != to ensures q[|to|] in names[..i + 1] {
      if to + [names[i]] <= q {
        assert q[|to|] == names[i] && names[..i + 1][i] == names[i];
      } else {
        assert q in fs;
      }
    }
  }

  lemma ChildrenMirrorAfter(base: Tree, from: Path, fs: Tree, after: Tree, to: Path, names: seq<string>)
    requires ChildrenMirror(base, from, fs, to, names, |names|) && OnlyAt(fs, after, to) && to in fs
    ensures ChildrenMirror(base, from, after, to, names, |names|)
  {
    hide Mirrors;
    forall j | 0 <= j < |names| ensures Mirrors(base, from + [names[j]], after, to + [names[j]]) {
      MirrorsUntouched(base, from + [names[j]], fs, after, to + [names[j]]);
    }
  }

  /** A directory mirrors another when it looks the same and each of its children does. */
  lemma DirectoryMirrors(base: Tree, from: Path, fs: Tree, to: Path, names: seq<string>)
    requires WellFormed(base) && ChildrenMirror(base, from, fs, to, names, |names|)
    requires forall name :: name in names <==> from + [name] in base
    requires from in base && to in fs && SameNode(base[from], fs[to])
    ensures Mirrors(base, from, fs, to)
  {
    hide WellFormed, SameNode, ChildrenMirror, Rebase;
    forall p | p in base && from <= p ensures Rebase(p, from, to) in fs && SameNode(base[p], fs[Rebase(p, from, to)]) {
      HasMirror(base, from, fs, to, names, p);
    }
    forall q | q in fs && to <= q ensures Rebase(q, to, from) in base {
      HasOriginal(base, from, fs, to, names, q);
    }
  }

  lemma HasMirror(base: Tree, from: Path, fs: Tree, to: Path, names: seq<string>, p: Path)
    requires WellFormed(base) && ChildrenMirror(base, from, fs, to, names, |names|)
    requires forall name :: name in names <==> from + [name] in base
    requires from in base && to in fs && SameNode(base[from], fs[to])
    requires p in base && from <= p
    ensures Rebase(p, from, to) in fs && SameNode(base[p], fs[Rebase(p, from, to)])
  {
    hide SameNode, Mirrors, WellFormed;
    if p == from {
      assert Rebase(p, from, to) == to;
    } else {
      var child := from + [p[|from|]];
      AboveIsDirectory(base, child, p);
      var j :| 0 <= j < |names| && names[j] == p[|from|];
      MirrorOf(base, child, fs, to + [names[j]], p);
      assert Rebase(p, child, to + [names[j]]) == Rebase(p, from, to);
    }
  }

  lemma MirrorOf(base: Tree, from: Path, fs: Tree, to: Path, p: Path)
    requires Mirrors(base, from, fs, to) && p in base && from <= p
    ensures Rebase(p, from, to) in fs && SameNode(base[p], fs[Rebase(p, from, to)])
  {
  }

  lemma OriginalOf(base: Tree, from: Path, fs: Tree, to: Path, q: Path)
    requires Mirrors(base, from, fs, to) && q in fs && to <= q
    ensures Rebase(q, to, from) in base
  {
  }

  lemma HasOriginal(base: Tree, from: Path, fs: Tree, to: Path, names: seq<string>, q: Path)
    requires ChildrenMirror(base, from, fs, to, names, |names|) && from in base && q in fs && to <= q
    ensures Rebase(q, to, from) in base
  {
    hide SameNode, Mirrors;
    if q == to {
      assert Rebase(q, to, from) == from;
    } else {
      var j :| 0 <= j < |names| && names[j] == q[|to|];
      OriginalOf(base, from + [names[j]], fs, to + [names[j]], q);
      assert Rebase(q, to + [names[j]], from + [names[j]]) == Rebase(q, to, from);
    }
  }

  ghost predicate InTarget(owned: seq<Owned>, target: Path, maxDepth: nat) {
    forall i :: 0 <= i < |owned| ==> target <= owned[i].path && |owned[i].path| - |target| <= maxDepth
  }

  // ---------- What the words of the contract say ----------

  /** A mirror has, for every entry, one of the same kind at the same place, with the same bytes, mode bits and
      owner, and nothing else. */
  lemma MirrorsIff(base: Tree, from: Path, fs: Tree, to: Path)
    ensures Mirrors(base, from, fs, to) <==>
              && (forall p :: p in base && from <= p ==>
                    var q := to + p[|from|..];
                    && q in fs && !base[p].Special?
                    && (base[p].File? ==>
                          fs[q].File? && fs[q].bytes == base[p].bytes && |base[p].bytes| <= 9007199254740991)
                    && (base[p].Directory? ==> fs[q].Directory?)
                    && fs[q].meta.mode % 4096 == base[p].meta.mode % 4096
                    && fs[q].meta.uid == base[p].meta.uid >= 0 && fs[q].meta.gid == base[p].meta.gid >= 0)
              && (forall q :: q in fs && to <= q ==> from + q[|to|..] in base)
  {
    assert forall p :: p in base && from <= p ==> Rebase(p, from, to) == to + p[|from|..];
    assert forall q :: q in fs && to <= q ==> Rebase(q, to, from) == from + q[|to|..];
    hide Rebase;
  }

  /** What can be copied: files of at most 2^53 - 1 bytes and directories, whose owner can be read. */
  lemma CopyableIff(fs: Tree, path: Path)
    ensures AllCopyable(fs, path) <==>
              forall p :: p in fs && path <= p ==>
                && !fs[p].Special? && fs[p].meta.uid >= 0 && fs[p].meta.gid >= 0
                && (fs[p].File? ==> |fs[p].bytes| <= 9007199254740991)
  {
  }

  /** Only files have bytes, and those of several entries add up. */
  lemma TreeBytesIff(fs: Tree, paths: set<Path>, p: Path)
    requires p in paths
    ensures TreeBytes(fs, {}) == 0
    ensures TreeBytes(fs, paths)
        == TreeBytes(fs, paths - {p}) + (if p in fs && fs[p].File? then |fs[p].bytes| else 0)
  {
    TreeBytesWithout(fs, paths, p);
  }

  // ---------- copyEntry ----------

  /** The target is new and mirrors the source; nothing else changed. */
  ghost predicate Copied(before: Tree, fs: Tree, from: Path, to: Path) {
    from in before && to !in before && Mirrors(before, from, fs, to) && OnlyUnder(before, fs, to)
  }

  /** A limit the caller gave, or else the default. */
  function OrElse(limit: Option<int>, fallback: nat): int {
    if limit.Some? then limit.value else fallback
  }

  /** Depth and bytes may be limited to nothing, nodes to one and more. */
  predicate AreLimits(options: LimitOptions) {
    && (options.maxDepth.Some? ==> options.maxDepth.value >= 0)
    && (options.maxNodes.Some? ==> options.maxNodes.value >= 1)
    && (options.maxTotalBytes.Some? ==> options.maxTotalBytes.value >= 0)
  }

  /** What a copy needs: a source with nothing but readable files and directories in it, outside of which
      the target can be created, and limits it keeps to: its own, or 128 levels, 10000 nodes and 8 GiB. */
  ghost predicate CanCopy(fs: Tree, from: Path, to: Path, options: LimitOptions) {
    && !(from <= to) && from in fs && CanCreate(fs, to) && AllCopyable(fs, from) && AreLimits(options)
    && (forall p :: p in fs && from <= p ==> |p| - |from| <= OrElse(options.maxDepth, 128))
    && |NodesUnder(fs, from)| <= OrElse(options.maxNodes, 10000)
    && TreeBytes(fs, NodesUnder(fs, from)) <= OrElse(options.maxTotalBytes, 0x2_0000_0000)
  }

  /** Each limit is the option of its own name or its own default. */
  lemma BoundedLimitsIff(options: LimitOptions)
    ensures BoundedLimits(options).Some? <==> AreLimits(options)
    ensures AreLimits(options) ==>
              BoundedLimits(options)
              == Some(Limits(OrElse(options.maxDepth, 128), OrElse(options.maxNodes, 10000),
                             OrElse(options.maxTotalBytes, 0x2_0000_0000)))
    ensures forall fs: Tree, from: Path, to: Path :: CanCopy(fs, from, to, options) <==>
              && !(from <= to) && from in fs && CanCreate(fs, to) && AllCopyable(fs, from)
              && BoundedLimits(options).Some? && WithinLimits(fs, from, BoundedLimits(options).value)
  {
    hide CanCreate, AllCopyable, NodesUnder, TreeBytes;
  }

  lemma CopiedIsCopyable(base: Tree, from: Path, fs: Tree, to: Path)
    requires Mirrors(base, from, fs, to)
    ensures AllCopyable(base, from)
  {
  }

  /** A copy succeeds within its limits or, if the server lets it clean up, changes nothing; either way
      it touches nothing that was there before. */
  method CopyEntry(server: SftpServer, from: Path, to: Path, options: LimitOptions)
      returns (r: Result, cleanupFailed: bool)
    requires WellFormed(server.fs)
    modifies server
    ensures r == Err(TargetInsideSource) <==> from <= to
    ensures r == Err(InvalidLimits) <==> !(from <= to) && !AreLimits(options)
    ensures r.Err? && !(from <= to) && AreLimits(options) ==>
              Explains(old(server.fs), from,
                       Limits(OrElse(options.maxDepth, 128), OrElse(options.maxNodes, 10000),
                              OrElse(options.maxTotalBytes, 0x2_0000_0000)), r.error)
    ensures r.Ok? ==> Copied(old(server.fs), server.fs, from, to)
    ensures r.Err? && server.refusals == old(server.refusals) ==> server.fs == old(server.fs) && !cleanupFailed
    ensures Intact(old(server.fs), server.fs)
    ensures r.Ok? ==> CanCopy(old(server.fs), from, to, options)
    ensures server.reliable ==> (r.Ok? <==> CanCopy(old(server.fs), from, to, options))
  {
    hide WellFormed, Mirrors, WithinLimits, Kept, CanCreate, AllCopyable, CanCopy, BoundedLimits, AreLimits;
    BoundedLimitsIff(options);
    cleanupFailed := false;
    if from <= to { return Err(TargetInsideSource), false; }
    var limits := BoundedLimits(options);
    if limits.None? { return Err(InvalidLimits), false; }
    var operation := new CopyOperation(server, from, to, limits.value);
    r := operation.CopyEntryWithinBudget(from, to, 0);
    if r.Ok? {
      assert from in operation.base;
      operation.FinishedWithinLimits();
      CopiedIsCopyable(operation.base, from, server.fs, to);
      AllAreNew(operation.base, server.fs, operation.ownedEntries);
    } else {
      cleanupFailed := operation.CleanUp();
    }
  }

  function BoundedLimits(options: LimitOptions): Option<Limits> {
    var depth := BoundedInteger(options.maxDepth, DEFAULT_LIMITS.maxDepth, 0);
    var nodes := BoundedInteger(options.maxNodes, DEFAULT_LIMITS.maxNodes, 1);
    var bytes := BoundedInteger(options.maxTotalBytes, DEFAULT_LIMITS.maxTotalBytes, 0);
    if depth.None? || nodes.None? || bytes.None? then None else Some(Limits(depth.value, nodes.value, bytes.value))
  }
}
