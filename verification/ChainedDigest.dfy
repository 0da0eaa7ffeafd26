/** The block-chained digest that the SFTP session and the local transfer plan compute with the same
    code: `SftpBoundedDigest` and `TransferBoundedDigest`. SHA-256 is a parameter `hash`. */
module ChainedDigest {
  import opened Prelude
  import opened Utf8

  const BLOCK_BYTES: nat := 64 * 1024
  const STATE_BYTES: nat := 32

  type Hash = seq<byte> -> seq<byte>

  ghost predicate Is256(hash: Hash) {
    forall input :: |hash(input)| == STATE_BYTES
  }

  // ---------- The chain, as a function of all the bytes ----------

  function InitialState(): (state: seq<byte>)
    ensures |state| == STATE_BYTES
  {
    seq(STATE_BYTES, _ => 0)
  }

  /** What is hashed for a full block. */
  function BlockInput(state: seq<byte>, block: seq<byte>): seq<byte> {
    state + [0] + block
  }

  /** What is hashed at the end. */
  function FinalInput(state: seq<byte>, rest: seq<byte>, size: nat): seq<byte> {
    state + [1] + rest + BigEndian(size, 8)
  }

  function BlockAt(data: seq<byte>, n: nat): seq<byte>
    requires (n + 1) * BLOCK_BYTES <= |data|
  {
    data[n * BLOCK_BYTES..(n + 1) * BLOCK_BYTES]
  }

  /** The state after the first `n` blocks. */
  function ChainState(hash: Hash, data: seq<byte>, n: nat): seq<byte>
    requires n * BLOCK_BYTES <= |data|
  {
    if n == 0 then InitialState() else hash(BlockInput(ChainState(hash, data, n - 1), BlockAt(data, n - 1)))
  }

  /** How many blocks the bytes fill. */
  function Blocks(data: seq<byte>): (n: nat)
    ensures n * BLOCK_BYTES <= |data| < (n + 1) * BLOCK_BYTES
    ensures |data| == n * BLOCK_BYTES + |data| % BLOCK_BYTES
  {
    |data| / BLOCK_BYTES
  }

  function Rest(data: seq<byte>): (rest: seq<byte>)
    ensures |rest| == |data| % BLOCK_BYTES
  {
    data[|data| - |data| % BLOCK_BYTES..]
  }

  function LastInput(hash: Hash, data: seq<byte>): seq<byte> {
    FinalInput(ChainState(hash, data, Blocks(data)), Rest(data), |data|)
  }

  /** The digest of a byte string. */
  function Digest(hash: Hash, data: seq<byte>): seq<byte> {
    hash(LastInput(hash, data))
  }

  // ---------- The 64-bit big-endian length ----------

  /** The `width` low bytes of `value`, most significant first. */
  function BigEndian(value: nat, width: nat): (bytes: seq<byte>)
    ensures |bytes| == width
  {
    if width == 0 then [] else BigEndian(value / 256, width - 1) + [value % 256]
  }

  function Pow256(width: nat): (p: nat)
    ensures p > 0
  {
    if width == 0 then 1 else 256 * Pow256(width - 1)
  }

  lemma {:induction false} BigEndianInjective(v: nat, w: nat, width: nat)
    requires v < Pow256(width) && w < Pow256(width) && BigEndian(v, width) == BigEndian(w, width)
    ensures v == w
  {
    if width > 0 {
      var a, b := BigEndian(v, width), BigEndian(w, width);
      assert a[width - 1] == v % 256 && b[width - 1] == w % 256;
      assert a[..width - 1] == BigEndian(v / 256, width - 1) && b[..width - 1] == BigEndian(w / 256, width - 1);
      BigEndianInjective(v / 256, w / 256, width - 1);
    }
  }

  const TWO_64: nat := 0x1_0000_0000_0000_0000

  lemma Pow256Of8()
    ensures Pow256(8) == TWO_64
  {
    assert Pow256(2) == 256 * Pow256(1) == 0x1_0000;
    assert Pow256(4) == 256 * Pow256(3) == 0x1_0000_0000;
    assert Pow256(6) == 256 * Pow256(5) == 0x1_0000_0000_0000;
    assert Pow256(8) == 256 * Pow256(7);
  }

  // ---------- The object ----------

  datatype Finished = Finished(size: nat, digest: seq<byte>) | SizeOutOfRange

  class BoundedDigest {
    const hash: Hash
    var state: seq<byte>
    const block: array<byte>
    var used: nat
    var size: nat
    /** Every byte given to `Update` so far. */
    ghost var fed: seq<byte>

    ghost predicate Valid()
      reads this, block
    {
      && block.Length == BLOCK_BYTES
      && size == |fed|
      && used == |fed| % BLOCK_BYTES
      && block[..used] == Rest(fed)
      && state == ChainState(hash, fed, Blocks(fed))
    }

    constructor (hash: Hash)
      ensures Valid() && fresh(block) && fed == [] && this.hash == hash
    {
      this.hash := hash;
      state := InitialState();
      block := new byte[BLOCK_BYTES](_ => 0);
      used, size, fed := 0, 0, [];
    }

    method Update(bytes: seq<byte>)
      requires Valid()
      modifies this, block
      ensures Valid() && fed == old(fed) + bytes
    {
      hide ChainState, Rest;
      var offset := 0;
      while offset < |bytes|
        invariant 0 <= offset <= |bytes|
        invariant Valid() && fed == old(fed) + bytes[..offset]
      {
        var length := Min(block.Length - used, |bytes| - offset);
        ghost var before := fed;
        Copy(bytes[offset..offset + length]);
        assert bytes[..offset] + bytes[offset..offset + length] == bytes[..offset + length];
        offset := offset + length;
      }
      assert bytes[..offset] == bytes;
    }

    /** One turn of the loop: the bytes go into the block, and a full block into the state. */
    method Copy(piece: seq<byte>)
      requires Valid() && 0 < |piece| <= BLOCK_BYTES - used
      modifies this, block
      ensures Valid() && fed == old(fed) + piece
    {
      hide ChainState;
      ghost var before := block[..used];
      forall k | 0 <= k < |piece| {
        block[used + k] := piece[k];
      }
      used := used + |piece|;
      size := size + |piece|;
      ghost var data := fed;
      fed := fed + piece;
      assert block[..used] == before + piece;
      FeedPiece(hash, data, piece);
      if used == block.Length {
        assert block[..] == block[..used];
        state := hash(BlockInput(state, block[..]));
        used := 0;
      }
    }

    method Finish() returns (result: Finished)
      requires Valid()
      ensures size < TWO_64 ==> result == Finished(|fed|, Digest(hash, fed))
      ensures size >= TWO_64 ==> result == SizeOutOfRange
    {
      if size >= TWO_64 { return SizeOutOfRange; }
      result := Finished(size, hash(FinalInput(state, block[..used], size)));
    }
  }

  /** The chain and the rest after a piece that at most fills the block. */
  lemma FeedPiece(hash: Hash, data: seq<byte>, piece: seq<byte>)
    requires 0 < |piece| <= BLOCK_BYTES - |data| % BLOCK_BYTES
    ensures var n := Blocks(data);
            var fed := data + piece;
            if |Rest(data)| + |piece| < BLOCK_BYTES then
              Blocks(fed) == n && Rest(fed) == Rest(data) + piece
                  && ChainState(hash, fed, n) == ChainState(hash, data, n)
            else
              Blocks(fed) == n + 1 && Rest(fed) == []
              && ChainState(hash, fed, n + 1) == hash(BlockInput(ChainState(hash, data, n), Rest(data) + piece))
  {
    var n := Blocks(data);
    var fed := data + piece;
    ChainOfPrefix(hash, data, piece, n);
    hide Rest, BlockAt, ChainState;
    if |Rest(data)| + |piece| < BLOCK_BYTES {
      RestGrows(data, piece);
    } else {
      BlockFills(data, piece);
      ChainUnfold(hash, fed, n);
    }
  }

  lemma ChainUnfold(hash: Hash, data: seq<byte>, n: nat)
    requires (n + 1) * BLOCK_BYTES <= |data|
    ensures ChainState(hash, data, n + 1) == hash(BlockInput(ChainState(hash, data, n), BlockAt(data, n)))
  {
  }

  lemma RestGrows(data: seq<byte>, piece: seq<byte>)
    requires |data| % BLOCK_BYTES + |piece| < BLOCK_BYTES
    ensures Blocks(data + piece) == Blocks(data) && Rest(data + piece) == Rest(data) + piece
  {
  }

  lemma BlockFills(data: seq<byte>, piece: seq<byte>)
    requires |data| % BLOCK_BYTES + |piece| == BLOCK_BYTES
    ensures var n := Blocks(data);
            && |data + piece| == (n + 1) * BLOCK_BYTES && Blocks(data + piece) == n + 1
            && Rest(data + piece) == [] && BlockAt(data + piece, n) == Rest(data) + piece
  {
  }

  lemma {:induction false} ChainOfPrefix(hash: Hash, data: seq<byte>, more: seq<byte>, n: nat)
    requires n * BLOCK_BYTES <= |data|
    ensures ChainState(hash, data + more, n) == ChainState(hash, data, n)
  {
    if n > 0 {
      ChainOfPrefix(hash, data, more, n - 1);
      assert BlockAt(data + more, n - 1) == BlockAt(data, n - 1);
    }
  }

  // ---------- What the digest promises ----------

  function Joined(chunks: seq<seq<byte>>): seq<byte> {
    if chunks == [] then [] else Joined(chunks[..|chunks| - 1]) + chunks[|chunks| - 1]
  }

  /** However a reader cuts the data, the digest is that of the joined bytes. */
  method DigestOfChunks(hash: Hash, chunks: seq<seq<byte>>) returns (result: Finished)
    ensures |Joined(chunks)| < TWO_64 ==> result == Finished(|Joined(chunks)|, Digest(hash, Joined(chunks)))
  {
    var digest := new BoundedDigest(hash);
    for i := 0 to |chunks|
      invariant digest.Valid() && fresh(digest) && fresh(digest.block) && digest.hash == hash
      invariant digest.fed == Joined(chunks[..i])
    {
      digest.Update(chunks[i]);
      assert chunks[..i + 1][..i] == chunks[..i];
    }
    assert chunks[..|chunks|] == chunks;
    result := digest.Finish();
  }

  /** Everything that is hashed on the way to the digest of `data`. */
  ghost predicate IsInput(hash: Hash, data: seq<byte>, input: seq<byte>) {
    || input == LastInput(hash, data)
    || exists n: nat :: n < Blocks(data) && input == InputAt(hash, data, n)
  }

  function InputAt(hash: Hash, data: seq<byte>, n: nat): seq<byte>
    requires (n + 1) * BLOCK_BYTES <= |data|
  {
    BlockInput(ChainState(hash, data, n), BlockAt(data, n))
  }

  /** Two different byte strings with equal digests give two different inputs with the same hash,
      both hashed on the way to those digests. */
  lemma CollisionReduction(hash: Hash, a: seq<byte>, b: seq<byte>) returns (x: seq<byte>, y: seq<byte>)
    requires Is256(hash) && |a| < TWO_64 && |b| < TWO_64
    requires a != b && Digest(hash, a) == Digest(hash, b)
    ensures x != y && hash(x) == hash(y) && IsInput(hash, a, x) && IsInput(hash, b, y)
  {
    x, y := LastInput(hash, a), LastInput(hash, b);
    if x == y {
      var n := Blocks(a);
      EqualLastInputs(hash, a, b);
      x, y := CollisionInChain(hash, a, b, n);
    }
  }

  lemma StateLength(hash: Hash, data: seq<byte>, n: nat)
    requires Is256(hash) && n * BLOCK_BYTES <= |data|
    ensures |ChainState(hash, data, n)| == STATE_BYTES
  {
  }

  /** Equal final inputs have equal parts. */
  lemma EqualLastInputs(hash: Hash, a: seq<byte>, b: seq<byte>)
    requires Is256(hash) && |a| < TWO_64 && |b| < TWO_64 && LastInput(hash, a) == LastInput(hash, b)
    ensures |a| == |b| && Rest(a) == Rest(b)
    ensures ChainState(hash, a, Blocks(a)) == ChainState(hash, b, Blocks(b))
  {
    hide Is256, Blocks, BigEndian, ChainState, FinalInput, Rest;
    StateLength(hash, a, Blocks(a));
    StateLength(hash, b, Blocks(b));
    EqualFinalInputs(ChainState(hash, a, Blocks(a)), ChainState(hash, b, Blocks(b)), Rest(a), Rest(b), |a|, |b|);
  }

  lemma EqualFinalInputs(s: seq<byte>, t: seq<byte>, p: seq<byte>, q: seq<byte>, m: nat, n: nat)
    requires |s| == |t| && m < TWO_64 && n < TWO_64 && FinalInput(s, p, m) == FinalInput(t, q, n)
    ensures s == t && p == q && m == n
  {
    hide BigEndian, FinalInput;
    FinalInputParts(s, p, m);
    FinalInputParts(t, q, n);
    Pow256Of8();
    BigEndianInjective(m, n, 8);
  }

  lemma FinalInputParts(state: seq<byte>, rest: seq<byte>, size: nat)
    ensures var input := FinalInput(state, rest, size);
            && |input| == |state| + |rest| + 9
            && input[..|state|] == state
            && input[|state| + 1..|input| - 8] == rest
            && input[|input| - 8..] == BigEndian(size, 8)
  {
    hide BigEndian;
    var input := FinalInput(state, rest, size);
    assert input[..|state|] == state;
    assert input[|state| + 1..|input| - 8] == rest;
    assert input[|input| - 8..] == BigEndian(size, 8);
  }

  /** Equal states of chains over different blocks: going back, some link has two inputs. */
  lemma {:induction false} CollisionInChain(hash: Hash, a: seq<byte>, b: seq<byte>, n: nat)
      returns (x: seq<byte>, y: seq<byte>)
    requires Is256(hash) && n <= Blocks(a) && |a| == |b|
    requires ChainState(hash, a, n) == ChainState(hash, b, n)
    requires a[..n * BLOCK_BYTES] != b[..n * BLOCK_BYTES]
    ensures x != y && hash(x) == hash(y) && IsInput(hash, a, x) && IsInput(hash, b, y)
    decreases n
  {
    hide ChainState, IsInput;
    x, y := InputAt(hash, a, n - 1), InputAt(hash, b, n - 1);
    ChainUnfold(hash, a, n - 1);
    ChainUnfold(hash, b, n - 1);
    InputsOfBlocks(hash, a, n - 1);
    InputsOfBlocks(hash, b, n - 1);
    hide InputAt;
    if x == y {
      EqualBlockInputs(hash, a, b, n - 1);
      BlocksInFront(a, n);
      BlocksInFront(b, n);
      x, y := CollisionInChain(hash, a, b, n - 1);
    }
  }

  lemma InputsOfBlocks(hash: Hash, data: seq<byte>, n: nat)
    requires n < Blocks(data)
    ensures IsInput(hash, data, InputAt(hash, data, n))
  {
  }

  lemma BlocksInFront(data: seq<byte>, n: nat)
    requires 0 < n <= Blocks(data)
    ensures data[..n * BLOCK_BYTES] == data[..(n - 1) * BLOCK_BYTES] + BlockAt(data, n - 1)
  {
  }

  lemma EqualBlockInputs(hash: Hash, a: seq<byte>, b: seq<byte>, n: nat)
    requires Is256(hash) && (n + 1) * BLOCK_BYTES <= |a| == |b| && InputAt(hash, a, n) == InputAt(hash, b, n)
    ensures ChainState(hash, a, n) == ChainState(hash, b, n) && BlockAt(a, n) == BlockAt(b, n)
  {
    StateLength(hash, a, n);
    StateLength(hash, b, n);
    var s, t := ChainState(hash, a, n), ChainState(hash, b, n);
    assert InputAt(hash, a, n)[..STATE_BYTES] == s && InputAt(hash, b, n)[..STATE_BYTES] == t;
    assert InputAt(hash, a, n)[STATE_BYTES + 1..] == BlockAt(a, n)
        && InputAt(hash, b, n)[STATE_BYTES + 1..] == BlockAt(b, n);
  }

  // ---------- The format ----------

  /** The number that eight bytes stand for, most significant first. */
  function NumberOf(b: seq<byte>): nat
    requires |b| == 8
  {
    b[0] as nat * 0x100_0000_0000_0000 + b[1] as nat * 0x1_0000_0000_0000 + b[2] as nat * 0x100_0000_0000
    + b[3] as nat * 0x1_0000_0000 + b[4] as nat * 0x100_0000 + b[5] as nat * 0x1_0000 + b[6] as nat * 0x100
    + b[7] as nat
  }

  /** The states of the chain: 32 zero bytes, and after every 64 KiB the hash of the state before, a zero byte
      and those 64 KiB. */
  ghost predicate AreStates(hash: Hash, data: seq<byte>, states: seq<seq<byte>>) {
    && |states| == |data| / 65536 + 1
    && |states[0]| == 32 && (forall k :: 0 <= k < 32 ==> states[0][k] == 0)
    && forall i :: 0 <= i < |states| - 1 ==>
         states[i + 1] == hash(states[i] + [0] + data[65536 * i..65536 * i + 65536])
  }

  /** The digest is the hash of the last state, a one, the bytes that fill no block, and their whole number. */
  lemma DigestFormat(hash: Hash, data: seq<byte>) returns (states: seq<seq<byte>>, length: seq<byte>)
    requires |data| < TWO_64
    ensures AreStates(hash, data, states) && |length| == 8 && NumberOf(length) == |data|
    ensures Digest(hash, data) == hash(states[|states| - 1] + [1] + data[65536 * (|states| - 1)..] + length)
  {
    var n := Blocks(data);
    states := seq(n + 1, i requires 0 <= i <= n => (BlocksFit(data, i); ChainState(hash, data, i)));
    length := BigEndian(|data|, 8);
    BigEndianNumber(|data|);
    forall i | 0 <= i < n
      ensures states[i + 1] == hash(states[i] + [0] + data[65536 * i..65536 * i + 65536])
    {
      BlocksFit(data, i + 1);
    }
    hide BigEndian;
    assert Rest(data) == data[65536 * n..];
  }

  lemma BlocksFit(data: seq<byte>, i: nat)
    requires i <= Blocks(data)
    ensures i * BLOCK_BYTES <= |data|
  {
  }

  lemma BigEndianNumber(value: nat)
    requires value < TWO_64
    ensures |BigEndian(value, 8)| == 8 && NumberOf(BigEndian(value, 8)) == value
  {
    var v1 := value / 256;
    var v2 := v1 / 256;
    var v3 := v2 / 256;
    var v4 := v3 / 256;
    var v5 := v4 / 256;
    var v6 := v5 / 256;
    var v7 := v6 / 256;
    var b := BigEndian(value, 8);
    LastByte(value, 7);
    LastByte(v1, 6);
    LastByte(v2, 5);
    LastByte(v3, 4);
    LastByte(v4, 3);
    LastByte(v5, 2);
    LastByte(v6, 1);
    LastByte(v7, 0);
    hide BigEndian;
    assert b[7] as nat == value % 256 && b[6] as nat == v1 % 256 && b[5] as nat == v2 % 256 && b[4] as nat == v3 % 256;
    assert b[3] as nat == v4 % 256 && b[2] as nat == v5 % 256 && b[1] as nat == v6 % 256 && b[0] as nat == v7 % 256;
    assert v7 < 256;
  }

  lemma LastByte(value: nat, width: nat)
    ensures BigEndian(value, width + 1)[width] as nat == value % 256
    ensures BigEndian(value, width + 1)[..width] == BigEndian(value / 256, width)
  {
  }
}
