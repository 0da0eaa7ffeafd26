/** The managed writer of terminal input (apps/electerm-agent/src/app/server/managed-terminal-input.js):
    one command at a time, in chunks, that an interrupt or a disposal may stop between two awaits. */
module ManagedInput {
  import opened Prelude
  import Utf8Encoding

  const MAX_COMMAND_BYTES: nat := 4 * 1024 * 1024

  // ---------- Chunks ----------

  /** The length of a character in UTF-8. */
  function CharBytes(c: char): (n: nat)
    ensures 1 <= n <= 4
  {
    var v := c as int;
    if v < 0x80 then 1 else if v < 0x800 then 2 else if v < 0x1_0000 then 3 else 4
  }

  function Bytes(s: string): nat {
    if s == "" then 0 else Bytes(s[..|s| - 1]) + CharBytes(s[|s| - 1])
  }

  /** They count the bytes that are written. */
  lemma {:induction false} BytesAreEncoded(s: string)
    ensures Bytes(s) == |Utf8Encoding.Encode(s)|
  {
    if s != "" {
      var n := |s| - 1;
      BytesAreEncoded(s[..n]);
      assert s == s[..n] + [s[n]];
      EncodeMore(s[..n], s[n]);
    }
  }

  lemma {:induction false} EncodeMore(s: string, c: char)
    ensures Utf8Encoding.Encode(s + [c]) == Utf8Encoding.Encode(s) + Utf8Encoding.EncodeChar(c)
  {
    if s == "" {
      assert s + [c] == [c] && [c][1..] == "";
    } else {
      assert (s + [c])[1..] == s[1..] + [c];
      EncodeMore(s[1..], c);
    }
  }

  function Joined(chunks: seq<string>): string {
    if chunks == [] then "" else Joined(chunks[..|chunks| - 1]) + chunks[|chunks| - 1]
  }

  /** One more character: into the last chunk if it fits there, else into a new one. */
  function AddChar(chunks: seq<string>, c: char, maximumBytes: nat): (more: seq<string>)
    ensures more != []
  {
    if chunks != [] && Bytes(chunks[|chunks| - 1]) + CharBytes(c) <= maximumBytes
    then chunks[..|chunks| - 1] + [chunks[|chunks| - 1] + [c]]
    else chunks + [[c]]
  }

  /** The chunks of a command. */
  function Split(value: string, maximumBytes: nat): (chunks: seq<string>) {
    if value == "" then [] else AddChar(Split(value[..|value| - 1], maximumBytes), value[|value| - 1], maximumBytes)
  }

  /** Each chunk fits or is one character, and none could take the character that begins the next. */
  ghost predicate WellCut(chunks: seq<string>, maximumBytes: nat) {
    forall k :: 0 <= k < |chunks| ==>
      && chunks[k] != ""
      && (Bytes(chunks[k]) <= maximumBytes || |chunks[k]| == 1)
      && (k > 0 ==> Bytes(chunks[k - 1]) + CharBytes(chunks[k][0]) > maximumBytes)
  }

  lemma AddCharIsWellCut(chunks: seq<string>, c: char, maximumBytes: nat)
    requires WellCut(chunks, maximumBytes)
    ensures WellCut(AddChar(chunks, c, maximumBytes), maximumBytes)
  {
    var n := |chunks| - 1;
    if chunks != [] {
      BytesOfMore(chunks[n], c);
    }
    hide Bytes;
    var more := AddChar(chunks, c, maximumBytes);
    assert forall k :: 0 <= k < |more| - 1 ==> more[k] == chunks[k];
    assert |more| == |chunks| ==> more[n][0] == chunks[n][0];
  }

  lemma AddCharJoined(chunks: seq<string>, c: char, maximumBytes: nat)
    ensures Joined(AddChar(chunks, c, maximumBytes)) == Joined(chunks) + [c]
  {
    hide Bytes, Joined;
    var n := |chunks| - 1;
    if chunks != [] && Bytes(chunks[n]) + CharBytes(c) <= maximumBytes {
      JoinedMore(chunks[..n], chunks[n]);
      JoinedMore(chunks[..n], chunks[n] + [c]);
      assert chunks[..n] + [chunks[n]] == chunks;
    } else {
      JoinedMore(chunks, [c]);
    }
  }

  lemma BytesOfMore(s: string, c: char)
    ensures Bytes(s + [c]) == Bytes(s) + CharBytes(c)
  {
    assert (s + [c])[..|s|] == s;
  }

  lemma JoinedMore(chunks: seq<string>, chunk: string)
    ensures Joined(chunks + [chunk]) == Joined(chunks) + chunk
  {
    assert (chunks + [chunk])[..|chunks|] == chunks;
  }

  /** The chunks are the command, well cut. */
  lemma {:induction false} SplitProperties(value: string, maximumBytes: nat)
    ensures WellCut(Split(value, maximumBytes), maximumBytes)
    ensures Joined(Split(value, maximumBytes)) == value
    ensures value != "" ==> Split(value, maximumBytes) != []
  {
    hide WellCut, Joined, AddChar;
    if value == "" {
      NothingCut(maximumBytes);
    } else {
      SplitProperties(value[..|value| - 1], maximumBytes);
      AddCharIsWellCut(Split(value[..|value| - 1], maximumBytes), value[|value| - 1], maximumBytes);
      AddCharJoined(Split(value[..|value| - 1], maximumBytes), value[|value| - 1], maximumBytes);
      assert value == value[..|value| - 1] + [value[|value| - 1]];
    }
  }

  lemma NothingCut(maximumBytes: nat)
    ensures WellCut([], maximumBytes) && Joined([]) == ""
  {
  }

  lemma NothingSplit(maximumBytes: nat)
    ensures Split("", maximumBytes) == [] && Bytes("") == 0
  {
  }

  method SplitUtf8Chunks(value: string, maximumBytes: nat) returns (chunks: seq<string>)
    ensures chunks == Split(value, maximumBytes)
  {
    NothingSplit(maximumBytes);
    hide Split, Bytes, CharBytes, AddChar;
    chunks := [];
    var chunk, chunkBytes := "", 0;
    var i := 0;
    assert value[..0] == "";
    while i < |value|
      invariant 0 <= i <= |value|
      invariant chunkBytes == Bytes(chunk)
      invariant Split(value[..i], maximumBytes) == if chunk == "" then chunks else chunks + [chunk]
      invariant chunk == "" ==> chunks == []
    {
      var character := value[i];
      var characterBytes := CharBytes(character);
      SplitMore(value, maximumBytes, i, chunks, chunk);
      if chunk != "" && chunkBytes + characterBytes > maximumBytes {
        chunks := chunks + [chunk];
        chunk, chunkBytes := "", 0;
      }
      BytesOfMore(chunk, character);
      assert "" + [character] == [character];
      chunk := chunk + [character];
      chunkBytes := chunkBytes + characterBytes;
      i := i + 1;
    }
    assert value[..i] == value;
    if chunk != "" { chunks := chunks + [chunk]; }
  }

  lemma SplitMore(value: string, maximumBytes: nat, i: nat, chunks: seq<string>, chunk: string)
    requires i < |value| && Split(value[..i], maximumBytes) == (if chunk == "" then chunks else chunks + [chunk])
    requires chunk == "" ==> chunks == []
    ensures Split(value[..i + 1], maximumBytes) ==
              if chunk != "" && Bytes(chunk) + CharBytes(value[i]) > maximumBytes then chunks + [chunk] + [[value[i]]]
              else chunks + [chunk + [value[i]]]
  {
    hide Bytes, AddChar;
    assert value[..i + 1][..i] == value[..i];
    AddCharToLast(chunks, chunk, value[i], maximumBytes);
  }

  lemma AddCharToLast(chunks: seq<string>, chunk: string, c: char, maximumBytes: nat)
    requires chunk == "" ==> chunks == []
    ensures AddChar(if chunk == "" then chunks else chunks + [chunk], c, maximumBytes) ==
              if chunk != "" && Bytes(chunk) + CharBytes(c) > maximumBytes then chunks + [chunk] + [[c]]
              else chunks + [chunk + [c]]
  {
    hide Bytes;
    assert "" + [c] == [c];
    assert (chunks + [chunk])[..|chunks|] == chunks;
  }

  // ---------- The writer ----------

  /** What the terminal answers to a write: `Full` asks to wait for its drain. */
  datatype Write = Taken | Full | Throws

  /** What the command in progress awaits. */
  datatype Phase = Draining | Pausing

  datatype Operation = Operation(requestId: string, chunks: seq<string>, next: nat, cancelled: bool, phase: Phase)

  datatype Status = Written | Interrupted | Failed

  /** The history of what was sent: a command with the number of its chunks sent and whether a carriage
      return followed them, or an interrupt. */
  datatype Block = Sent(requestId: string, command: string, chunks: seq<string>, count: nat, returned: bool,
                        status: Option<Status>) | Break

  datatype State = State(chunkBytes: nat, active: Option<Operation>, disposed: bool, output: string, blocks: seq<Block>)

  datatype Event =
    | Submit(requestId: string, command: string, write: Write)
    | Resume(write: Write)
    | AwaitFails
    | Interrupt
    | Dispose

  predicate IsRequestId(id: string) {
    |id| == 32 && forall k :: 0 <= k < |id| ==> 'a' <= id[k] <= 'f' || '0' <= id[k] <= '9'
  }

  function Initial(chunkBytes: nat): State { State(chunkBytes, None, false, "", []) }

  /** The position of the last command; the one in progress if there is one. */
  function LastSent(blocks: seq<Block>): int {
    if blocks == [] then -1
    else if blocks[|blocks| - 1].Sent? then |blocks| - 1
    else LastSent(blocks[..|blocks| - 1])
  }

  /** Changes the record of the last command. */
  function Record(blocks: seq<Block>, count: nat, returned: bool, status: Option<Status>): seq<Block> {
    var k := LastSent(blocks);
    if 0 <= k < |blocks| && blocks[k].Sent?
    then blocks[k := blocks[k].(count := count, returned := returned, status := status)]
    else blocks
  }

  function End(s: State, op: Operation, status: Status): State {
    s.(active := None,
       output := if status == Written then s.output + "\r" else s.output,
       blocks := Record(s.blocks, op.next, status == Written, Some(status)))
  }

  /** From the head of the loop over the chunks to the next await or the end. */
  function GoOn(s: State, op: Operation, write: Write): State
    requires op.next <= |op.chunks|
  {
    if op.cancelled || s.disposed then End(s, op, Interrupted)
    else if write == Throws then End(s, op, Failed)
    else if op.next < |op.chunks| then
      s.(active := Some(op.(next := op.next + 1, phase := if write == Full then Draining else Pausing)),
         output := s.output + op.chunks[op.next],
         blocks := Record(s.blocks, op.next + 1, false, None))
    else End(s, op, Written)
  }

  predicate Accepts(s: State, requestId: string, command: string) {
    !s.disposed && s.active.None? && IsRequestId(requestId) && command != "" && Bytes(command) <= MAX_COMMAND_BYTES
  }

  /** The id has 32 hexadecimal digits, and the command 1 byte to 4 MiB. */
  predicate IsCommand(requestId: string, command: string) {
    && |requestId| == 32 && (forall c :: c in requestId ==> c in "0123456789abcdef")
    && command != "" && |Utf8Encoding.Encode(command)| <= 4 * 1024 * 1024
  }

  lemma AcceptsIff(s: State, requestId: string, command: string)
    ensures Accepts(s, requestId, command) <==> !s.disposed && s.active.None? && IsCommand(requestId, command)
  {
    BytesAreEncoded(command);
    forall c: char ensures c in "0123456789abcdef" <==> 'a' <= c <= 'f' || '0' <= c <= '9' { IsHex(c); }
    assert IsRequestId(requestId) <==> |requestId| == 32 && forall c :: c in requestId ==> c in "0123456789abcdef" by {
      if forall c :: c in requestId ==> c in "0123456789abcdef" {
        forall k | 0 <= k < |requestId| ensures 'a' <= requestId[k] <= 'f' || '0' <= requestId[k] <= '9' {
          assert requestId[k] in requestId;
        }
      }
    }
    hide Bytes;
  }

  lemma IsHex(c: char)
    ensures c in "0123456789abcdef" <==> 'a' <= c <= 'f' || '0' <= c <= '9'
  {
    var digits := "0123456789abcdef";
    if '0' <= c <= '9' {
      assert digits[c as int - '0' as int] == c;
    } else if 'a' <= c <= 'f' {
      assert digits[10 + c as int - 'a' as int] == c;
    }
  }

  function OnSubmit(s: State, requestId: string, command: string, write: Write): State {
    if !Accepts(s, requestId, command) then s
    else
      var op := Operation(requestId, Split(command, s.chunkBytes), 0, false, Pausing);
      GoOn(s.(active := Some(op), blocks := s.blocks + [Sent(requestId, command, op.chunks, 0, false, None)]), op,
           write)
  }

  function OnResume(s: State, write: Write): State {
    if s.active.None? || s.active.value.next > |s.active.value.chunks| then s
    else if s.active.value.phase == Draining && !s.active.value.cancelled && !s.disposed
    then s.(active := Some(s.active.value.(phase := Pausing)))
    else GoOn(s, s.active.value, write)
  }

  function Cancelled(active: Option<Operation>): Option<Operation> {
    if active.Some? then Some(active.value.(cancelled := true)) else None
  }

  function Step(s: State, event: Event): State {
    match event
    case Submit(requestId, command, write) => OnSubmit(s, requestId, command, write)
    case Resume(write) => OnResume(s, write)
    case AwaitFails => if s.active.None? then s else End(s, s.active.value, Failed)
    case Interrupt =>
      if s.disposed then s
      else s.(active := Cancelled(s.active), output := s.output + "\U{0003}", blocks := s.blocks + [Break])
    case Dispose => s.(disposed := true, active := Cancelled(s.active))
  }

  function Run(chunkBytes: nat, events: seq<Event>): State {
    if events == [] then Initial(chunkBytes) else Step(Run(chunkBytes, events[..|events| - 1]), events[|events| - 1])
  }

  // ---------- What every run keeps ----------

  function TextOf(block: Block): string {
    match block
    case Break => "\U{0003}"
    case Sent(_, _, chunks, count, returned, _) =>
      Joined(chunks[..if count <= |chunks| then count else |chunks|]) + if returned then "\r" else ""
  }

  function Flatten(blocks: seq<Block>): string {
    if blocks == [] then "" else Flatten(blocks[..|blocks| - 1]) + TextOf(blocks[|blocks| - 1])
  }

  /** A command's record: its chunks are the command, and the carriage return was sent exactly when the
      status is `written`, which takes all of them. */
  ghost predicate IsRecord(block: Block) {
    block.Sent? ==>
      && Joined(block.chunks) == block.command && block.count <= |block.chunks|
      && (block.returned <==> block.status == Some(Written))
      && (block.returned ==> block.count == |block.chunks|)
  }

  /** The command in progress is the last one recorded; unless it is cancelled nothing was sent since. */
  ghost predicate IsActive(s: State) {
    var k := LastSent(s.blocks);
    match s.active
    case None => forall i :: 0 <= i < |s.blocks| && s.blocks[i].Sent? ==> s.blocks[i].status.Some?
    case Some(op) =>
      && 0 <= k < |s.blocks| && s.blocks[k].Sent?
      && s.blocks[k].requestId == op.requestId && s.blocks[k].chunks == op.chunks && s.blocks[k].count == op.next
      && s.blocks[k].status.None?
      && (forall i :: 0 <= i < |s.blocks| && s.blocks[i].Sent? && i != k ==> s.blocks[i].status.Some?)
      && (!op.cancelled ==> k == |s.blocks| - 1)
      && (s.disposed ==> op.cancelled)
  }

  ghost predicate Inv(s: State) {
    && s.output == Flatten(s.blocks)
    && (forall i :: 0 <= i < |s.blocks| ==> IsRecord(s.blocks[i]))
    && IsActive(s)
  }

  lemma {:induction false} LastSentRange(blocks: seq<Block>)
    ensures var k := LastSent(blocks);
            -1 <= k < |blocks| && (k >= 0 ==> blocks[k].Sent?) && forall i :: k < i < |blocks| ==> blocks[i].Break?
  {
    if blocks != [] && blocks[|blocks| - 1].Break? {
      LastSentRange(blocks[..|blocks| - 1]);
      assert forall i :: 0 <= i < |blocks| - 1 ==> blocks[i] == blocks[..|blocks| - 1][i];
    }
  }

  /** Changing a command in the history changes the output by what it changes in its text. */
  lemma {:induction false} FlattenChanged(blocks: seq<Block>, k: nat, b: Block, more: string)
    requires k < |blocks| && TextOf(b) == TextOf(blocks[k]) + more && (more == "" || k == |blocks| - 1)
    ensures Flatten(blocks[k := b]) == Flatten(blocks) + more
    decreases |blocks|
  {
    hide TextOf;
    var n := |blocks| - 1;
    if k == n {
      assert blocks[k := b][..n] == blocks[..n];
    } else {
      assert blocks[k := b][..n] == blocks[..n][k := b];
      FlattenChanged(blocks[..n], k, b, more);
    }
  }

  lemma FlattenMore(blocks: seq<Block>, b: Block)
    ensures Flatten(blocks + [b]) == Flatten(blocks) + TextOf(b)
  {
    assert (blocks + [b])[..|blocks|] == blocks;
  }

  /** The state in which the command in progress has `count` chunks sent and perhaps ended. */
  function Recorded(s: State, next: Option<Operation>, count: nat, status: Option<Status>, more: string): State {
    s.(active := next, output := s.output + more, blocks := Record(s.blocks, count, status == Some(Written), status))
  }

  ghost predicate CanRecord(s: State, op: Operation, next: Option<Operation>, count: nat, status: Option<Status>,
                            more: string) {
    && s.active == Some(op)
    && (status.Some? <==> next.None?)
    && (next.Some? ==> next.value == op.(next := count, phase := next.value.phase))
    && op.next <= count <= |op.chunks| && (status == Some(Written) ==> count == |op.chunks|)
    && (more == "" || (!op.cancelled && !s.disposed))
    && Joined(op.chunks[..count]) + (if status == Some(Written) then "\r" else "") == Joined(op.chunks[..op.next])
        + more
  }

  /** Advancing or ending the command in progress. */
  lemma RecordKeeps(s: State, op: Operation, next: Option<Operation>, count: nat, status: Option<Status>, more: string)
    requires Inv(s) && CanRecord(s, op, next, count, status, more)
    ensures Inv(Recorded(s, next, count, status, more))
    ensures ExtendsHistory(s, Recorded(s, next, count, status, more))
  {
    hide IsRecord, IsActive, Record, TextOf, Flatten, ExtendsHistory, Joined;
    var k := RecordedBlock(s, op);
    var b := s.blocks[k].(count := count, returned := status == Some(Written), status := status);
    RecordedText(s, op, next, count, status, more, k);
    RecordIsActive(s, op, next, count, status, more, k);
    hide CanRecord;
    FlattenChanged(s.blocks, k, b, more);
    RecordExtends(s, Recorded(s, next, count, status, more), k, b, more);
    assert forall i :: 0 <= i < |s.blocks| && i != k ==> s.blocks[k := b][i] == s.blocks[i];
  }

  lemma RecordExtends(s: State, t: State, k: nat, b: Block, more: string)
    requires k < |s.blocks| && t.blocks == s.blocks[k := b] && b.Sent? && s.blocks[k].Sent?
    requires TextOf(b) == TextOf(s.blocks[k]) + more
    requires more == "" || (k == |s.blocks| - 1 && s.active.Some? && !s.active.value.cancelled)
    ensures ExtendsHistory(s, t)
  {
    hide TextOf;
    assert TextOf(s.blocks[k]) <= TextOf(b);
  }

  lemma RecordedBlock(s: State, op: Operation) returns (k: nat)
    requires Inv(s) && s.active == Some(op)
    ensures k < |s.blocks| && s.blocks[k].Sent? && s.blocks[k].chunks == op.chunks && s.blocks[k].count == op.next
    ensures LastSent(s.blocks) == k && !s.blocks[k].returned && (!op.cancelled ==> k == |s.blocks| - 1)
    ensures forall count, returned, status ::
              Record(s.blocks, count, returned, status)
                  == s.blocks[k := s.blocks[k].(count := count, returned := returned, status := status)]
  {
    k := LastSent(s.blocks);
    assert IsRecord(s.blocks[k]);
  }

  lemma RecordedText(s: State, op: Operation, next: Option<Operation>, count: nat, status: Option<Status>, more: string,
                     k: nat)
    requires Inv(s) && CanRecord(s, op, next, count, status, more)
    requires k < |s.blocks| && s.blocks[k].Sent? && s.blocks[k].chunks == op.chunks && s.blocks[k].count == op.next
    requires !s.blocks[k].returned && (!op.cancelled ==> k == |s.blocks| - 1)
    ensures var b := s.blocks[k].(count := count, returned := status == Some(Written), status := status);
            TextOf(b) == TextOf(s.blocks[k]) + more && (more == "" || (k == |s.blocks| - 1 && !op.cancelled))
                && IsRecord(b)
  {
    hide Joined;
    assert IsRecord(s.blocks[k]);
  }

  lemma RecordIsActive(s: State, op: Operation, next: Option<Operation>, count: nat, status: Option<Status>,
                       more: string, k: nat)
    requires Inv(s) && CanRecord(s, op, next, count, status, more) && LastSent(s.blocks) == k
    ensures IsActive(Recorded(s, next, count, status, more))
  {
    hide Joined, Flatten, IsRecord;
    var b := s.blocks[k].(count := count, returned := status == Some(Written), status := status);
    LastSentOfSame(s.blocks, k, b);
    assert forall i :: 0 <= i < |s.blocks| && i != k ==> s.blocks[k := b][i] == s.blocks[i];
  }

  lemma {:induction false} LastSentOfSame(blocks: seq<Block>, k: nat, b: Block)
    requires k < |blocks| && LastSent(blocks) == k && b.Sent?
    ensures LastSent(blocks[k := b]) == k
  {
    var n := |blocks| - 1;
    LastSentRange(blocks);
    if k < n {
      assert blocks[k := b][..n] == blocks[..n][k := b];
      LastSentOfSame(blocks[..n], k, b);
    }
  }

  /** What was sent stays as it was, but for the command in progress while it is not cancelled. */
  ghost predicate ExtendsHistory(s: State, t: State) {
    && |s.blocks| <= |t.blocks|
    && forall i :: 0 <= i < |s.blocks| ==>
         && (t.blocks[i].Sent? <==> s.blocks[i].Sent?)
         && (TextOf(t.blocks[i]) == TextOf(s.blocks[i])
             || (i == |s.blocks| - 1 && s.active.Some? && !s.active.value.cancelled
                 && TextOf(s.blocks[i]) <= TextOf(t.blocks[i])))
  }

  // ---------- Every step ----------

  lemma JoinedPrefix(chunks: seq<string>, n: nat)
    requires n < |chunks|
    ensures Joined(chunks[..n + 1]) == Joined(chunks[..n]) + chunks[n]
  {
    assert chunks[..n + 1][..n] == chunks[..n];
  }

  lemma GoOnKeeps(s: State, op: Operation, write: Write)
    requires Inv(s) && s.active == Some(op) && op.next <= |op.chunks|
    ensures Inv(GoOn(s, op, write)) && ExtendsHistory(s, GoOn(s, op, write))
  {
    hide Inv, ExtendsHistory, Joined, Record;
    var count := Joined(op.chunks[..op.next]);
    assert count + "" == count && s.output + "" == s.output;
    if op.cancelled || s.disposed {
      RecordKeeps(s, op, None, op.next, Some(Interrupted), "");
    } else if write == Throws {
      RecordKeeps(s, op, None, op.next, Some(Failed), "");
    } else if op.next < |op.chunks| {
      JoinedPrefix(op.chunks, op.next);
      var chunk := op.chunks[op.next];
      assert Joined(op.chunks[..op.next + 1]) + "" == Joined(op.chunks[..op.next + 1]);
      RecordKeeps(s, op, Some(op.(next := op.next + 1, phase := if write == Full then Draining else Pausing)),
                  op.next + 1, None, chunk);
    } else {
      RecordKeeps(s, op, None, op.next, Some(Written), "\r");
    }
  }

  lemma NewCommand(s: State, requestId: string, command: string)
    requires Inv(s) && s.active.None? && !s.disposed
    ensures var op := Operation(requestId, Split(command, s.chunkBytes), 0, false, Pausing);
            var t := s.(active := Some(op), blocks := s.blocks + [Sent(requestId, command, op.chunks, 0, false, None)]);
            Inv(t) && (forall i :: 0 <= i < |s.blocks| ==> t.blocks[i] == s.blocks[i])
  {
    hide Flatten, Joined, IsRecord, IsActive, Split, TextOf;
    var chunks := Split(command, s.chunkBytes);
    SplitProperties(command, s.chunkBytes);
    var b := Sent(requestId, command, chunks, 0, false, None);
    FlattenMore(s.blocks, b);
    NewIsRecord(b);
    NewIsActive(s, requestId, command, chunks);
    assert Flatten(s.blocks) + "" == Flatten(s.blocks);
  }

  lemma NewIsActive(s: State, requestId: string, command: string, chunks: seq<string>)
    requires IsActive(s) && s.active.None? && !s.disposed
    ensures IsActive(s.(active := Some(Operation(requestId, chunks, 0, false, Pausing)),
                        blocks := s.blocks + [Sent(requestId, command, chunks, 0, false, None)]))
  {
    LastSentOfMore(s.blocks, Sent(requestId, command, chunks, 0, false, None));
  }

  lemma LastSentOfMore(blocks: seq<Block>, b: Block)
    requires b.Sent?
    ensures LastSent(blocks + [b]) == |blocks|
  {
  }

  lemma NewIsRecord(b: Block)
    requires b.Sent? && Joined(b.chunks) == b.command && b.count == 0 && !b.returned && b.status.None?
    ensures IsRecord(b) && TextOf(b) == ""
  {
    assert b.chunks[..0] == [];
  }

  lemma StepKeeps(s: State, event: Event)
    requires Inv(s)
    ensures Inv(Step(s, event)) && ExtendsHistory(s, Step(s, event))
  {
    match event {
      case Submit(requestId, command, write) =>
        if Accepts(s, requestId, command) {
          NewCommand(s, requestId, command);
          var op := Operation(requestId, Split(command, s.chunkBytes), 0, false, Pausing);
          var t := s.(active := Some(op), blocks := s.blocks + [Sent(requestId, command, op.chunks, 0, false, None)]);
          GoOnKeeps(t, op, write);
          AfterNewCommand(s, t, GoOn(t, op, write));
        }
      case Resume(write) =>
        if s.active.Some? && s.active.value.next <= |s.active.value.chunks| {
          GoOnKeeps(s, s.active.value, write);
        }
      case AwaitFails =>
        if s.active.Some? {
          AwaitFailsKeeps(s);
        }
      case Interrupt =>
        if !s.disposed {
          FlattenMore(s.blocks, Break);
          BreakKeeps(s);
        }
      case Dispose =>
    }
  }

  lemma AfterNewCommand(s: State, t: State, u: State)
    requires |t.blocks| == |s.blocks| + 1 && (forall i :: 0 <= i < |s.blocks| ==> t.blocks[i] == s.blocks[i])
    requires ExtendsHistory(t, u)
    ensures ExtendsHistory(s, u)
  {
    hide TextOf;
  }

  lemma AwaitFailsKeeps(s: State)
    requires Inv(s) && s.active.Some?
    ensures Inv(End(s, s.active.value, Failed)) && ExtendsHistory(s, End(s, s.active.value, Failed))
  {
    var op := s.active.value;
    var k := RecordedBlock(s, op);
    assert IsRecord(s.blocks[k]);
    hide Inv, ExtendsHistory, Joined, Record;
    var text := Joined(op.chunks[..op.next]);
    assert text + "" == text && s.output + "" == s.output;
    RecordKeeps(s, op, None, op.next, Some(Failed), "");
  }

  lemma BreakKeeps(s: State)
    requires Inv(s) && !s.disposed
    ensures Inv(Step(s, Interrupt)) && ExtendsHistory(s, Step(s, Interrupt))
  {
    hide Flatten, IsActive, Joined;
    FlattenMore(s.blocks, Break);
    BreakIsActive(s);
    assert (s.blocks + [Break])[..|s.blocks|] == s.blocks;
  }

  lemma BreakIsActive(s: State)
    requires IsActive(s) && !s.disposed
    ensures IsActive(Step(s, Interrupt))
  {
    var blocks := s.blocks + [Break];
    assert blocks[..|s.blocks|] == s.blocks;
    assert LastSent(blocks) == LastSent(s.blocks);
    assert forall i :: 0 <= i < |s.blocks| ==> blocks[i] == s.blocks[i];
  }

  // ---------- Every run ----------

  lemma {:induction false} RunKeeps(chunkBytes: nat, events: seq<Event>)
    ensures Inv(Run(chunkBytes, events))
  {
    if events != [] {
      RunKeeps(chunkBytes, events[..|events| - 1]);
      StepKeeps(Run(chunkBytes, events[..|events| - 1]), events[|events| - 1]);
    }
  }

  /** In every run the output is one block after another: commands are never interleaved. A command's
      block is its first chunks in order; the carriage return follows all of them, and exactly when the
      status is `written`. */
  lemma OutputIsCommandsInOrder(chunkBytes: nat, events: seq<Event>)
    ensures var s := Run(chunkBytes, events);
            && s.output == Flatten(s.blocks)
            && forall i :: 0 <= i < |s.blocks| && s.blocks[i].Sent? ==>
                 var b := s.blocks[i];
                 && Joined(b.chunks) == b.command && b.count <= |b.chunks|
                 && TextOf(b) == (if b.status == Some(Written) then b.command + "\r" else Joined(b.chunks[..b.count]))
  {
    RunKeeps(chunkBytes, events);
    var s := Run(chunkBytes, events);
    forall i | 0 <= i < |s.blocks| && s.blocks[i].Sent?
      ensures var b := s.blocks[i];
              && Joined(b.chunks) == b.command && b.count <= |b.chunks|
              && TextOf(b) == (if b.status == Some(Written) then b.command + "\r" else Joined(b.chunks[..b.count]))
    {
      var b := s.blocks[i];
      assert IsRecord(b);
      hide Joined;
      assert b.chunks[..|b.chunks|] == b.chunks;
      assert Joined(b.chunks[..b.count]) + "" == Joined(b.chunks[..b.count]);
    }
  }

  /** What came before an interrupt, or before a command that ended, never grows: no byte of a cancelled
      command follows its interrupt. */
  lemma {:induction false} PastIsFrozen(chunkBytes: nat, events: seq<Event>, more: seq<Event>, i: nat)
    requires var s := Run(chunkBytes, events);
        i < |s.blocks| && (i < |s.blocks| - 1 || s.active.None? || s.active.value.cancelled)
    ensures var s, t := Run(chunkBytes, events), Run(chunkBytes, events + more);
            i < |t.blocks| && TextOf(t.blocks[i]) == TextOf(s.blocks[i])
            && (i < |t.blocks| - 1 || t.active.None? || t.active.value.cancelled)
    decreases |more|
  {
    hide TextOf, Inv, Step;
    if more == [] {
      assert events + more == events;
    } else {
      var front := more[..|more| - 1];
      assert (events + more)[..|events + more| - 1] == events + front;
      PastIsFrozen(chunkBytes, events, front, i);
      RunKeeps(chunkBytes, events + front);
      StepKeeps(Run(chunkBytes, events + front), more[|more| - 1]);
      StaysPast(Run(chunkBytes, events + front), more[|more| - 1], i);
    }
  }

  lemma StaysPast(s: State, event: Event, i: nat)
    requires i < |s.blocks| && (i < |s.blocks| - 1 || s.active.None? || s.active.value.cancelled)
    ensures var t := Step(s, event); i < |t.blocks| - 1 || t.active.None? || t.active.value.cancelled
  {
    hide Flatten, TextOf, Joined, Split, IsRequestId, Bytes;
  }

  /** After a disposal nothing is written, whatever happens. */
  lemma {:induction false} NothingAfterDispose(chunkBytes: nat, events: seq<Event>, more: seq<Event>)
    requires Run(chunkBytes, events).disposed
    ensures Run(chunkBytes, events + more).disposed && Run(chunkBytes, events + more).output
        == Run(chunkBytes, events).output
    decreases |more|
  {
    hide Inv, Flatten;
    if more == [] {
      assert events + more == events;
    } else {
      var front := more[..|more| - 1];
      assert (events + more)[..|events + more| - 1] == events + front;
      NothingAfterDispose(chunkBytes, events, front);
    }
  }

  lemma {:induction false} DisposedIff(chunkBytes: nat, events: seq<Event>)
    ensures Run(chunkBytes, events).disposed <==> Dispose in events
  {
    if events != [] {
      DisposedIff(chunkBytes, events[..|events| - 1]);
      assert events == events[..|events| - 1] + [events[|events| - 1]];
      hide Split, IsRequestId, Record;
    }
  }

  /** A disposal writes nothing and is the end of the output. */
  lemma DisposeEndsOutput(chunkBytes: nat, before: seq<Event>, after: seq<Event>)
    ensures Run(chunkBytes, before + [Dispose] + after).output == Run(chunkBytes, before).output
  {
    var events := before + [Dispose];
    assert events[..|events| - 1] == before && Dispose in events;
    DisposedIff(chunkBytes, events);
    NothingAfterDispose(chunkBytes, events, after);
  }

  /** An interrupt is the character 3 at once, and cancels the command in progress. */
  lemma InterruptEffect(s: State)
    requires !s.disposed
    ensures var t := Step(s, Interrupt);
            && t.output == s.output + [3 as char] && (t.active.Some? <==> s.active.Some?)
            && (t.active.Some? ==> t.active.value.cancelled) && !t.disposed
  {
  }

  /** How a command that ends is reported: failed when the terminal threw or an await failed, interrupted when
      it was cancelled, else written. */
  lemma EndStatus(s: State, event: Event)
    requires Inv(s) && s.active.Some? && Step(s, event).active.None?
    ensures var op, t, k := s.active.value, Step(s, event), LastSent(s.blocks);
            && 0 <= k < |s.blocks| == |t.blocks| && t.blocks[k].Sent?
            && (event.Resume? || event.AwaitFails?)
            && t.blocks[k].status == Some(if event.AwaitFails? then Failed
                                          else if op.cancelled then Interrupted
                                          else if event.write == Throws then Failed
                                          else Written)
  {
    LastSentRange(s.blocks);
    hide Flatten, IsRecord, Split, IsRequestId, Joined;
  }

  /** Every await comes back, and the terminal answers each write as listed. */
  function Resumed(s: State, writes: seq<Write>): State
    decreases |writes|
  {
    if writes == [] then s else Resumed(OnResume(s, writes[0]), writes[1..])
  }

  ghost predicate Undisturbed(s: State) {
    s.active.Some? && !s.active.value.cancelled && !s.disposed && s.active.value.next <= |s.active.value.chunks|
  }

  /** How many awaits a command in progress has left at most: two for each chunk that the terminal asks to
      wait for, one for each other. */
  function AwaitsLeft(op: Operation): nat
    requires op.next <= |op.chunks|
  {
    2 * (|op.chunks| - op.next) + if op.phase == Draining then 2 else 1
  }

  lemma ResumeSends(s: State, write: Write)
    requires Undisturbed(s) && write != Throws
    ensures var op, t := s.active.value, OnResume(s, write);
            if op.phase == Draining then Undisturbed(t) && t.active.value == op.(phase := Pausing)
                && t.output == s.output
            else if op.next < |op.chunks|
            then Undisturbed(t) && t.active.value == op.(next := op.next + 1, phase := t.active.value.phase)
                 && t.output == s.output + op.chunks[op.next]
            else t.active.None? && t.output == s.output + "\r"
  {
    hide Record;
  }

  lemma {:induction false} NothingResumes(s: State, writes: seq<Write>)
    requires s.active.None?
    ensures Resumed(s, writes) == s
    decreases |writes|
  {
    if writes != [] {
      NothingResumes(s, writes[1..]);
    }
  }

  /** A command that nothing disturbs is on its way until it is sent whole, with its carriage return. */
  lemma {:induction false} ResumesSend(s: State, writes: seq<Write>)
    requires Undisturbed(s) && Throws !in writes
    ensures var op, t := s.active.value, Resumed(s, writes);
            if t.active.None? then t.output == s.output + Joined(op.chunks[op.next..]) + "\r"
            else Undisturbed(t) && |writes| + AwaitsLeft(t.active.value) <= AwaitsLeft(op)
    decreases |writes|
  {
    hide OnResume, Joined;
    if writes != [] {
      var op, t := s.active.value, OnResume(s, writes[0]);
      ResumeSends(s, writes[0]);
      if t.active.None? {
        NothingResumes(t, writes[1..]);
        NothingJoined();
        assert op.chunks[op.next..] == [] && s.output + "" == s.output;
      } else {
        ResumesSend(t, writes[1..]);
        if op.phase != Draining {
          JoinedFrom(op.chunks[op.next..]);
          assert op.chunks[op.next..][1..] == op.chunks[op.next + 1..];
          assert s.output + op.chunks[op.next] + Joined(op.chunks[op.next + 1..])
                 == s.output + (op.chunks[op.next] + Joined(op.chunks[op.next + 1..]));
        }
      }
    }
  }

  lemma NothingJoined()
    ensures Joined([]) == ""
  {
  }

  lemma {:induction false} JoinedFrom(chunks: seq<string>)
    requires chunks != []
    ensures Joined(chunks) == chunks[0] + Joined(chunks[1..])
    decreases |chunks|
  {
    NothingJoined();
    hide Joined;
    var n := |chunks| - 1;
    var front, last := chunks[..n], chunks[n];
    assert chunks == front + [last];
    JoinedMore(front, last);
    if n == 0 {
      assert front == [] && chunks[1..] == [];
      assert "" + last == last + "";
    } else {
      JoinedFrom(front);
      var middle := chunks[1..n];
      assert front[1..] == middle && chunks[1..] == middle + [last];
      JoinedMore(middle, last);
      assert chunks[0] + Joined(middle) + last == chunks[0] + (Joined(middle) + last);
    }
  }

  /** An accepted command that nothing disturbs, whatever the terminal answers short of an error: once it is
      no longer in progress it was sent whole with its carriage return, and that takes at most two awaits a
      chunk. */
  lemma SubmittedCommandIsSent(s: State, requestId: string, command: string, first: Write, writes: seq<Write>)
    requires Accepts(s, requestId, command) && first != Throws && Throws !in writes
    ensures var t := Resumed(Step(s, Submit(requestId, command, first)), writes);
            && (t.active.None? ==> t.output == s.output + command + "\r")
            && (|writes| >= 2 * |Split(command, s.chunkBytes)| ==> t.active.None?)
  {
    hide Split, Joined, Resumed, Step, Accepts;
    SubmitBegins(s, requestId, command, first);
    var t := Step(s, Submit(requestId, command, first));
    var chunks := t.active.value.chunks;
    ResumesSend(t, writes);
    JoinedFrom(chunks);
    assert s.output + chunks[0] + Joined(chunks[1..]) == s.output + (chunks[0] + Joined(chunks[1..]));
  }

  lemma SubmitBegins(s: State, requestId: string, command: string, first: Write)
    requires Accepts(s, requestId, command) && first != Throws
    ensures var t := Step(s, Submit(requestId, command, first));
            && Undisturbed(t) && t.active.value.next == 1 && t.active.value.chunks == Split(command, s.chunkBytes)
            && t.active.value.chunks != [] && Joined(t.active.value.chunks) == command
            && t.output == s.output + t.active.value.chunks[0]
  {
    SplitProperties(command, s.chunkBytes);
    hide Split, Record, WellCut, Joined;
  }

  // ---------- The object ----------

  class ManagedTerminalInputWriter {
    const chunkBytes: nat
    var active: Option<Operation>
    var disposed: bool
    /** Everything the terminal took. */
    var output: string
    ghost var blocks: seq<Block>

    ghost function View(): State
      reads this
    {
      State(chunkBytes, active, disposed, output, blocks)
    }

    constructor (chunkBytes: nat)
      ensures View() == Initial(chunkBytes)
    {
      this.chunkBytes := chunkBytes;
      active, disposed, output, blocks := None, false, "", [];
    }

    /** The loop body up to the next await; `status` is the one the completion then settles with. */
    method GoOnSending(write: Write) returns (status: Option<Status>)
      requires Inv(View()) && active.Some?
      modifies this
      ensures View() == GoOn(old(View()), old(active).value, write)
      ensures status.Some? <==> active.None?
      ensures status.Some? ==> blocks == Record(old(blocks), old(active).value.next, status == Some(Written), status)
    {
      var op := active.value;
      if op.next < |op.chunks| && !op.cancelled && !disposed && write != Throws {
        output := output + op.chunks[op.next];
        blocks := Record(blocks, op.next + 1, false, None);
        active := Some(op.(next := op.next + 1, phase := if write == Full then Draining else Pausing));
        return None;
      }
      var result := Interrupted;
      if !op.cancelled && !disposed {
        if write == Throws {
          result := Failed;
        } else {
          output := output + "\r";
          result := Written;
        }
      }
      active := None;
      blocks := Record(blocks, op.next, result == Written, Some(result));
      status := Some(result);
    }

    method Submit(requestId: string, command: string, write: Write) returns (accepted: bool)
      requires Inv(View())
      modifies this
      ensures View() == Step(old(View()), Event.Submit(requestId, command, write)) && Inv(View())
      ensures accepted <==> !old(disposed) && old(active).None? && IsCommand(requestId, command)
      ensures accepted <==> Accepts(old(View()), requestId, command)
    {
      AcceptsIff(View(), requestId, command);
      StepKeeps(View(), Event.Submit(requestId, command, write));
      hide Inv, GoOn, IsCommand, IsRequestId, Bytes;
      if disposed || active.Some? || !IsRequestId(requestId) || command == "" || Bytes(command) > MAX_COMMAND_BYTES {
        return false;
      }
      NewCommand(View(), requestId, command);
      var chunks := SplitUtf8Chunks(command, chunkBytes);
      active := Some(Operation(requestId, chunks, 0, false, Pausing));
      blocks := blocks + [Sent(requestId, command, chunks, 0, false, None)];
      var status := GoOnSending(write);
      accepted := true;
    }

    /** What the command awaits has settled. */
    method Resume(write: Write)
      requires Inv(View()) && active.Some?
      modifies this
      ensures View() == Step(old(View()), Event.Resume(write)) && Inv(View())
    {
      StepKeeps(View(), Event.Resume(write));
      ghost var k := RecordedBlock(View(), active.value);
      assert IsRecord(blocks[k]);
      hide GoOn;
      if active.value.phase == Draining && !active.value.cancelled && !disposed {
        active := Some(active.value.(phase := Pausing));
        return;
      }
      var status := GoOnSending(write);
    }

    method AwaitFails()
      requires Inv(View()) && active.Some?
      modifies this
      ensures View() == Step(old(View()), Event.AwaitFails) && Inv(View())
    {
      StepKeeps(View(), Event.AwaitFails);
      hide Inv;
      blocks := Record(blocks, active.value.next, false, Some(Failed));
      active := None;
    }

    method Interrupt() returns (done: bool)
      requires Inv(View())
      modifies this
      ensures View() == Step(old(View()), Event.Interrupt) && Inv(View())
      ensures done <==> !old(disposed)
    {
      StepKeeps(View(), Event.Interrupt);
      hide Inv;
      if disposed { return false; }
      if active.Some? && !active.value.cancelled {
        active := Some(active.value.(cancelled := true));
      }
      output := output + "\U{0003}";
      blocks := blocks + [Break];
      done := true;
    }

    method Dispose()
      requires Inv(View())
      modifies this
      ensures View() == Step(old(View()), Event.Dispose) && Inv(View())
    {
      StepKeeps(View(), Event.Dispose);
      hide Inv;
      disposed := true;
      if active.Some? && !active.value.cancelled {
        active := Some(active.value.(cancelled := true));
      }
    }
  }
}
