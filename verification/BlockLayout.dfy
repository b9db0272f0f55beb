/**
  Range splitting (cache/src/block/mod.rs): a byte range of the device becomes one piece per touched block. The
  method follows the 64-bit checked arithmetic of the source; `Tiles` says independently what a right answer is.
  The second half places the pieces on the device as one flat byte array; `Requests` follows whole requests.
*/
module BlockLayout {
  import opened Common
  import opened Resident
  import opened CacheModel
  import opened CacheSystem
  import opened CacheRefinement

  datatype TouchedBlock = TouchedBlock(
    blockIndex: nat, blockBase: nat, blockOffset: nat, bufferOffset: nat, validLen: nat)
  {
    function BufferEnd(): nat { bufferOffset + validLen }
    function BlockEnd(): nat { blockOffset + validLen }
  }

  datatype LayoutError = InvalidRange | ArithmeticOverflow | BufferTooSmall

  predicate BlockSizeOk(size: nat) { 0 < size < U32_LIMIT }

  function CheckedAdd(a: nat, b: nat): Option<nat> { if a + b < U64_LIMIT then Some(a + b) else None }

  function CheckedMul(a: nat, b: nat): Option<nat> { if a * b < U64_LIMIT then Some(a * b) else None }

  function CheckedSub(a: nat, b: nat): Option<nat> { if b <= a then Some(a - b) else None }

  // ---------------------------------------------------------------- what a right split is

  /** The piece lies inside its block and stands for the device bytes its buffer bytes stand for. */
  predicate PieceOk(size: nat, offset: nat, p: TouchedBlock) {
    && p.validLen > 0 && p.BlockEnd() <= size
    && p.blockBase == p.blockIndex * size
    && p.blockBase + p.blockOffset == offset + p.bufferOffset
  }

  /** The buffer bytes the pieces cover. */
  function Covered(pieces: seq<TouchedBlock>): nat {
    if pieces == [] then 0 else pieces[|pieces| - 1].BufferEnd()
  }

  /** The pieces take consecutive blocks and tile `length` buffer bytes from the first on. */
  ghost predicate Tiles(size: nat, offset: nat, length: nat, pieces: seq<TouchedBlock>) {
    && (forall i :: 0 <= i < |pieces| ==> PieceOk(size, offset, pieces[i]))
    && (forall i :: 0 <= i < |pieces| ==> pieces[i].bufferOffset == Covered(pieces[..i]))
    && (forall i, j :: 0 <= i < j < |pieces| ==> pieces[j].blockIndex == pieces[i].blockIndex + (j - i))
    && Covered(pieces) == length
  }

  /** The last block the range touches ends within 64 bits. */
  predicate LastBlockFits(size: nat, offset: nat, length: nat)
    requires BlockSizeOk(size) && length > 0
  {
    ((offset + length - 1) / size + 1) * size < U64_LIMIT
  }

  function BlockIndex(size: nat, address: nat): nat
    requires size > 0
  {
    address / size
  }

  // ---------------------------------------------------------------- arithmetic

  lemma DivBounds(size: nat, a: nat)
    requires size > 0
    ensures a / size * size <= a < a / size * size + size
  {
  }

  lemma MulMonotone(size: nat, i: nat, j: nat)
    requires i <= j
    ensures i * size <= j * size
  {
  }

  lemma NextBlock(size: nat, i: nat)
    ensures (i + 1) * size == i * size + size
  {
  }

  /** A position inside block `q` belongs to block `q`. */
  lemma BlockOfAddress(size: nat, q: nat, at: nat)
    requires at < size
    ensures (q * size + at) / size == q && (q * size + at) % size == at
  {
    var a := q * size + at;
    DivBounds(size, a);
    if a / size < q {
      MulMonotone(size, a / size + 1, q);
      NextBlock(size, a / size);
    } else if a / size > q {
      MulMonotone(size, q + 1, a / size);
      NextBlock(size, q);
    }
  }

  // ---------------------------------------------------------------- splitting

  /** One turn of the loop: the piece of block `index`, or an overflow. */
  function PieceAt(size: nat, offset: nat, end: nat, first: nat, index: nat, bufferOffset: nat): Option<TouchedBlock> {
    match CheckedMul(index, size)
    case None => None
    case Some(base) =>
      if index == first && base > offset then None
      else
        var blockOffset := if index == first then offset - base else 0;
        match CheckedAdd(base, size)
        case None => None
        case Some(blockEnd) =>
          match CheckedAdd(base, blockOffset)
          case None => None
          case Some(start) =>
            match CheckedSub(Min(end, blockEnd), start)
            case None => None
            case Some(len) => Some(TouchedBlock(index, base, blockOffset, bufferOffset, len))
  }

  /** `touched_blocks`: succeeds exactly when the last touched block fits in 64 bits, and then with the tiling. */
  method TouchedBlocks(size: nat, offset: nat, length: nat) returns (r: Result<seq<TouchedBlock>, LayoutError>)
    requires BlockSizeOk(size) && offset < U64_LIMIT && length < U64_LIMIT
    ensures r.Ok? <==> length == 0 || LastBlockFits(size, offset, length)
    ensures r.Ok? ==> Tiles(size, offset, length, r.value)
    ensures r == Err(InvalidRange) <==> length > 0 && offset + length >= U64_LIMIT
    ensures r.Err? ==> r.error in {InvalidRange, ArithmeticOverflow}
  {
    hide Tiles, LastBlockFits;
    EmptyTiles(size, offset);
    if length == 0 {
      r := Ok([]);
    } else if CheckedAdd(offset, length).None? {
      WrappedRange(size, offset, length);
      r := Err(InvalidRange);
    } else {
      r := SplitRange(size, offset, length);
    }
  }

  /** The loop of `touched_blocks`, for a range within 64 bits. */
  method SplitRange(size: nat, offset: nat, length: nat) returns (r: Result<seq<TouchedBlock>, LayoutError>)
    requires BlockSizeOk(size) && length > 0 && offset + length < U64_LIMIT
    ensures r.Ok? <==> LastBlockFits(size, offset, length)
    ensures r.Ok? ==> Tiles(size, offset, length, r.value)
    ensures r.Err? ==> r == Err(ArithmeticOverflow)
  {
    hide Tiles, LastBlockFits, PieceAt, CoveredBefore, PieceOk, BlockIndex;
    EmptyTiles(size, offset);
    var end := offset + length;
    var first, last := BlockIndex(size, offset), BlockIndex(size, end - 1);
    var pieces := [];
    var bufferOffset: nat := 0;
    var index := first;
    FirstTurn(size, offset, length);
    LastTurn(size, offset, length);
    while index <= last
      invariant first <= index <= last + 1
      invariant |pieces| == index - first
      invariant Tiles(size, offset, bufferOffset, pieces)
      invariant pieces != [] ==> pieces[0].blockIndex == first
      invariant bufferOffset == CoveredBefore(size, offset, end, index)
      invariant index == last + 1 ==> LastBlockFits(size, offset, length)
    {
      TurnFacts(size, offset, length, index);
      var piece := PieceAt(size, offset, end, first, index, bufferOffset);
      if piece.None? {
        return Err(ArithmeticOverflow);
      }
      AppendTile(size, offset, bufferOffset, pieces, piece.value);
      pieces := pieces + [piece.value];
      bufferOffset := bufferOffset + piece.value.validLen;
      index := index + 1;
    }
    r := Ok(pieces);
  }

  lemma EmptyTiles(size: nat, offset: nat)
    ensures Tiles(size, offset, 0, [])
  {
  }

  lemma WrappedRange(size: nat, offset: nat, length: nat)
    requires BlockSizeOk(size) && length > 0 && offset + length >= U64_LIMIT
    ensures !LastBlockFits(size, offset, length)
  {
    DivBounds(size, offset + length - 1);
    NextBlock(size, (offset + length - 1) / size);
  }

  /** The request bytes that lie before block `index`. */
  function CoveredBefore(size: nat, offset: nat, end: nat, index: nat): nat {
    Max(0, Min(end, index * size) - offset)
  }

  lemma FirstTurn(size: nat, offset: nat, length: nat)
    requires size > 0 && length > 0
    ensures CoveredBefore(size, offset, offset + length, BlockIndex(size, offset)) == 0
    ensures BlockIndex(size, offset) <= BlockIndex(size, offset + length - 1)
  {
    DivBounds(size, offset);
    DivBounds(size, offset + length - 1);
    if (offset + length - 1) / size < offset / size {
      MulMonotone(size, (offset + length - 1) / size + 1, offset / size);
      NextBlock(size, (offset + length - 1) / size);
    }
  }

  lemma LastTurn(size: nat, offset: nat, length: nat)
    requires size > 0 && length > 0
    ensures CoveredBefore(size, offset, offset + length, BlockIndex(size, offset + length - 1) + 1) == length
  {
    DivBounds(size, offset + length - 1);
    NextBlock(size, (offset + length - 1) / size);
  }

  /** Where block `index` begins relative to the range. */
  lemma BlockBegins(size: nat, offset: nat, index: nat)
    requires size > 0 && offset / size <= index
    ensures if index == offset / size then index * size <= offset < index * size + size else offset <= index * size
  {
    var first := offset / size;
    DivBounds(size, offset);
    if first < index {
      NextBlock(size, first);
      MulMonotone(size, first + 1, index);
    }
  }

  /** Where block `index` ends relative to a range whose last byte is `at`. */
  lemma BlockEnds(size: nat, at: nat, index: nat)
    requires size > 0 && index <= at / size
    ensures index * size <= at
    ensures if index == at / size then at < index * size + size else index * size + size <= at
  {
    var last := at / size;
    DivBounds(size, at);
    MulMonotone(size, index, last);
    if index < last {
      NextBlock(size, index);
      MulMonotone(size, index + 1, last);
    }
  }

  /** Where block `index` lies relative to the range. */
  lemma BlockBounds(size: nat, offset: nat, length: nat, index: nat)
    requires size > 0 && length > 0 && offset / size <= index <= (offset + length - 1) / size
    ensures index * size < offset + length && (index + 1) * size == index * size + size
    ensures if index == offset / size then index * size <= offset < index * size + size else offset <= index * size
    ensures if index == (offset + length - 1) / size then offset + length <= index * size + size
            else index * size + size < offset + length
  {
    BlockBegins(size, offset, index);
    BlockEnds(size, offset + length - 1, index);
    NextBlock(size, index);
  }

  /** One turn of the loop overflows exactly when its block is the last one and ends beyond 64 bits; otherwise it
      yields a right piece. */
  lemma TurnFacts(size: nat, offset: nat, length: nat, index: nat)
    requires BlockSizeOk(size) && length > 0 && offset + length < U64_LIMIT
    requires BlockIndex(size, offset) <= index <= BlockIndex(size, offset + length - 1)
    ensures var end := offset + length;
      var covered := CoveredBefore(size, offset, end, index);
      var piece := PieceAt(size, offset, end, BlockIndex(size, offset), index, covered);
      && (piece.None? ==> !LastBlockFits(size, offset, length))
      && (piece.Some? && index == BlockIndex(size, end - 1) ==> LastBlockFits(size, offset, length))
      && (piece.Some? ==>
            && PieceOk(size, offset, piece.value)
            && piece.value.blockIndex == index && piece.value.bufferOffset == covered
            && covered + piece.value.validLen == CoveredBefore(size, offset, end, index + 1))
  {
    BlockBounds(size, offset, length, index);
  }

  lemma AppendTile(size: nat, offset: nat, length: nat, pieces: seq<TouchedBlock>, p: TouchedBlock)
    requires Tiles(size, offset, length, pieces) && PieceOk(size, offset, p) && p.bufferOffset == length
    requires pieces != [] ==> p.blockIndex == pieces[0].blockIndex + |pieces|
    ensures Tiles(size, offset, length + p.validLen, pieces + [p])
  {
    hide PieceOk;
    var all := pieces + [p];
    forall i | 0 <= i < |all| ensures PieceOk(size, offset, all[i]) {
      assert i < |pieces| ==> all[i] == pieces[i];
    }
    forall i | 0 <= i < |all| ensures all[i].bufferOffset == Covered(all[..i]) {
      assert all[..i] == pieces[..i];
      assert pieces[..|pieces|] == pieces;
    }
  }

  // ---------------------------------------------------------------- the split is the only one

  /** Every piece but the last ends where its block ends, so every piece but the first starts its block. */
  lemma PieceFillsBlock(size: nat, offset: nat, length: nat, pieces: seq<TouchedBlock>, i: nat)
    requires Tiles(size, offset, length, pieces) && i + 1 < |pieces|
    ensures pieces[i].BlockEnd() == size && pieces[i + 1].blockOffset == 0
  {
    var p, q := pieces[i], pieces[i + 1];
    assert pieces[..i + 1][i] == p;
    assert q.bufferOffset == p.BufferEnd();
    NextBlock(size, p.blockIndex);
  }

  lemma {:induction false} CoveredGrows(size: nat, offset: nat, length: nat, pieces: seq<TouchedBlock>, i: nat)
    requires Tiles(size, offset, length, pieces) && i < |pieces|
    ensures pieces[i].BufferEnd() <= length
    ensures i + 1 < |pieces| ==> pieces[i].BufferEnd() < length
    decreases |pieces| - i
  {
    if i + 1 < |pieces| {
      CoveredGrows(size, offset, length, pieces, i + 1);
      assert pieces[..i + 1][i] == pieces[i];
    } else {
      assert pieces[|pieces| - 1] == pieces[i];
    }
  }

  /** A piece is determined by the buffer bytes before it. */
  lemma PieceDetermined(size: nat, offset: nat, length: nat, ps: seq<TouchedBlock>, k: nat)
    requires Tiles(size, offset, length, ps) && k < |ps|
    ensures size > 0
    ensures var at := Covered(ps[..k]);
      && ps[k].bufferOffset == at
      && ps[k].blockIndex == (offset + at) / size
      && ps[k].blockBase == ps[k].blockIndex * size
      && ps[k].blockOffset == (offset + at) % size
      && ps[k].validLen == Min(size - ps[k].blockOffset, length - at)
  {
    FirstAddress(size, offset, length, ps, k);
    PieceEnds(size, offset, length, ps, k);
  }

  /** The first `n` pieces of two splits of the same range agree. */
  lemma {:induction false} SplitsAgree(
    size: nat, offset: nat, length: nat, ps: seq<TouchedBlock>, qs: seq<TouchedBlock>, n: nat)
    requires Tiles(size, offset, length, ps) && Tiles(size, offset, length, qs)
    requires n <= |ps| && n <= |qs|
    ensures ps[..n] == qs[..n]
  {
    hide Tiles;
    if n > 0 {
      var k := n - 1;
      SplitsAgree(size, offset, length, ps, qs, k);
      PieceDetermined(size, offset, length, ps, k);
      PieceDetermined(size, offset, length, qs, k);
      assert ps[..n] == ps[..k] + [ps[k]] && qs[..n] == qs[..k] + [qs[k]];
    }
  }

  /** A piece is in the block of its first byte. */
  lemma FirstAddress(size: nat, offset: nat, length: nat, ps: seq<TouchedBlock>, k: nat)
    requires Tiles(size, offset, length, ps) && k < |ps|
    ensures size > 0 && ps[k].blockIndex == (offset + ps[k].bufferOffset) / size
    ensures ps[k].blockOffset == (offset + ps[k].bufferOffset) % size
  {
    BlockOfAddress(size, ps[k].blockIndex, ps[k].blockOffset);
  }

  /** A piece ends at the end of its block or at the end of the range, whichever comes first. */
  lemma PieceEnds(size: nat, offset: nat, length: nat, ps: seq<TouchedBlock>, k: nat)
    requires Tiles(size, offset, length, ps) && k < |ps|
    ensures ps[k].validLen == Min(size - ps[k].blockOffset, length - ps[k].bufferOffset)
  {
    CoveredGrows(size, offset, length, ps, k);
    if k + 1 < |ps| {
      PieceFillsBlock(size, offset, length, ps, k);
    } else {
      assert ps[|ps| - 1] == ps[k];
    }
  }

  /** There is only one way to tile a range by consecutive blocks, so `Tiles` fixes what `touched_blocks` returns. */
  lemma SplitIsUnique(size: nat, offset: nat, length: nat, ps: seq<TouchedBlock>, qs: seq<TouchedBlock>)
    requires size > 0 && Tiles(size, offset, length, ps) && Tiles(size, offset, length, qs)
    ensures ps == qs
  {
    var n := Min(|ps|, |qs|);
    SplitsAgree(size, offset, length, ps, qs, n);
    if |ps| < |qs| {
      assert qs[..n] == ps;
      ShorterEndsEarlier(size, offset, length, qs, n);
    } else if |qs| < |ps| {
      assert ps[..n] == qs;
      ShorterEndsEarlier(size, offset, length, ps, n);
    }
    assert ps[..n] == ps && qs[..n] == qs;
  }

  lemma ShorterEndsEarlier(size: nat, offset: nat, length: nat, ps: seq<TouchedBlock>, n: nat)
    requires Tiles(size, offset, length, ps) && n < |ps|
    ensures Covered(ps[..n]) < length
  {
    CoveredGrows(size, offset, length, ps, n);
    assert ps[n].bufferOffset == Covered(ps[..n]);
  }

  /** Every byte of the buffer lies in a piece. */
  lemma {:induction false} PieceOf(size: nat, offset: nat, length: nat, ps: seq<TouchedBlock>, k: nat, n: nat) returns (i: nat)
    requires Tiles(size, offset, length, ps) && n <= |ps| && k < Covered(ps[..n])
    ensures i < n && ps[i].bufferOffset <= k < ps[i].BufferEnd()
    decreases n
  {
    i := n - 1;
    assert ps[..n][n - 1] == ps[n - 1];
    if k < ps[i].bufferOffset {
      i := PieceOf(size, offset, length, ps, k, n - 1);
    }
  }

  // ---------------------------------------------------------------- copying

  /** `copy_from_block`: the piece's bytes of the block go to the piece's place in the buffer, in place. */
  method CopyFromBlock(p: TouchedBlock, block: Block, buffer: array<byte>) returns (r: Result<(), LayoutError>)
    modifies buffer
    ensures r.Ok? <==> p.BlockEnd() <= |block| && p.BufferEnd() <= buffer.Length
    ensures r.Ok? ==>
      buffer[..] == Splice(old(buffer[..]), p.bufferOffset, block[p.blockOffset..p.BlockEnd()])
    ensures r.Err? ==> r == Err(BufferTooSmall) && buffer[..] == old(buffer[..])
  {
    if |block| < p.BlockEnd() || buffer.Length < p.BufferEnd() {
      return Err(BufferTooSmall);
    }
    forall i | 0 <= i < p.validLen {
      buffer[p.bufferOffset + i] := block[p.blockOffset + i];
    }
    r := Ok(());
  }

  /** `patch_into_block`: the piece's bytes of the request go to the piece's place in the block, in place. */
  method PatchIntoBlock(p: TouchedBlock, data: Block, block: array<byte>) returns (r: Result<(), LayoutError>)
    modifies block
    ensures r.Ok? <==> p.BufferEnd() <= |data| && p.BlockEnd() <= block.Length
    ensures r.Ok? ==>
      block[..] == Splice(old(block[..]), p.blockOffset, data[p.bufferOffset..p.BufferEnd()])
    ensures r.Err? ==> r == Err(BufferTooSmall) && block[..] == old(block[..])
  {
    if |data| < p.BufferEnd() || block.Length < p.BlockEnd() {
      return Err(BufferTooSmall);
    }
    forall i | 0 <= i < p.validLen {
      block[p.blockOffset + i] := data[p.bufferOffset + i];
    }
    r := Ok(());
  }

  // ---------------------------------------------------------------- requests on the flat array

  ghost predicate WellSized(size: nat, mem: Memory) {
    forall b :: b in mem ==> |mem[b]| == size
  }

  /** The device as one flat byte array; `None` where the device ends. */
  function FlatByte(size: nat, mem: Memory, address: nat): Option<byte>
    requires size > 0
  {
    if address / size in mem && address % size < |mem[address / size]|
    then Some(mem[address / size][address % size]) else None
  }

  /** What one piece asks of the device. */
  function PieceRead(p: TouchedBlock): Op { ReadOp(p.blockIndex, p.blockOffset, p.validLen) }

  function PieceWrite(p: TouchedBlock, data: Block): Op
    requires p.BufferEnd() <= |data|
  {
    WriteOp(p.blockIndex, p.blockOffset, data[p.bufferOffset..p.BufferEnd()])
  }

  /** Every piece is an operation the cache may be asked for. */
  lemma PieceIsOp(c: Config, offset: nat, length: nat, ps: seq<TouchedBlock>, i: nat)
    requires Tiles(c.blockSize, offset, length, ps) && i < |ps| && offset + length <= U64_LIMIT
    ensures OpOk(c, PieceRead(ps[i]))
    ensures forall data: Block :: |data| == length ==> ps[i].BufferEnd() <= length && OpOk(c, PieceWrite(ps[i], data))
  {
    CoveredGrows(c.blockSize, offset, length, ps, i);
  }

  lemma {:induction false} PiecesOrdered(size: nat, offset: nat, length: nat, ps: seq<TouchedBlock>, i: nat, j: nat)
    requires Tiles(size, offset, length, ps) && i < j < |ps|
    ensures ps[i].BufferEnd() <= ps[j].bufferOffset
    decreases j
  {
    assert ps[..j][j - 1] == ps[j - 1];
    if i < j - 1 {
      PiecesOrdered(size, offset, length, ps, i, j - 1);
    }
  }

  /** Each byte a piece's read returns is the flat byte of the device at the instant of that read. */
  lemma PieceReadsFlat(size: nat, offset: nat, length: nat, ps: seq<TouchedBlock>, i: nat, k: nat, mem: Memory, bytes: Block)
    requires Tiles(size, offset, length, ps) && i < |ps| && ps[i].bufferOffset <= k < ps[i].BufferEnd()
    requires Accepts(mem, ReadDone(PieceRead(ps[i]), bytes))
    ensures size > 0 && FlatByte(size, mem, offset + k) == Some(bytes[k - ps[i].bufferOffset])
  {
    BlockOfAddress(size, ps[i].blockIndex, ps[i].blockOffset + (k - ps[i].bufferOffset));
  }

  /** The event writes no byte of the device range. */
  predicate Disjoint(size: nat, event: Event, offset: nat, length: nat) {
    event.WriteDone? ==>
      var from := event.op.block * size + OpRange(event.op).start;
      var to := event.op.block * size + OpRange(event.op).end;
      to <= offset || offset + length <= from
  }

  /** `mem` is `base` with the first `count` bytes of the request written at `offset`. */
  ghost predicate FlatSpliced(size: nat, mem: Memory, base: Memory, offset: nat, data: Block, count: nat)
    requires size > 0 && count <= |data|
  {
    && mem.Keys == base.Keys && WellSized(size, mem) && WellSized(size, base)
    && forall a: nat :: FlatByte(size, mem, a)
         == if offset <= a < offset + count && a / size in base then Some(data[a - offset]) else FlatByte(size, base, a)
  }

  /** A block write on the flat array. */
  lemma FlatWrite(size: nat, mem: Memory, op: Op, a: nat)
    requires size > 0 && WellSized(size, mem) && op.WriteOp? && InDevice(mem, op)
    ensures WellSized(size, Apply(mem, WriteDone(op)))
    ensures var from := op.block * size + op.at;
      FlatByte(size, Apply(mem, WriteDone(op)), a)
        == if from <= a < from + |op.data| then Some(op.data[a - from]) else FlatByte(size, mem, a)
  {
    DivBounds(size, a);
    if op.block * size <= a < op.block * size + size {
      BlockOfAddress(size, op.block, a - op.block * size);
    } else if a / size == op.block {
      assert false;
    }
  }

  lemma OtherKeepsSplice(size: nat, mem: Memory, base: Memory, offset: nat, data: Block, count: nat, event: Event)
    requires size > 0 && count <= |data| && FlatSpliced(size, mem, base, offset, data, count)
    requires Disjoint(size, event, offset, |data|) && event.WriteDone?
    ensures FlatSpliced(size, AfterOther(mem, event), AfterOther(base, event), offset, data, count)
    ensures AfterOther(mem, event).Keys == mem.Keys
  {
    if Accepts(mem, event) {
      forall a: nat
        ensures FlatByte(size, Apply(mem, event), a)
          == if offset <= a < offset + count && a / size in base then Some(data[a - offset])
             else FlatByte(size, Apply(base, event), a)
      {
        FlatWrite(size, mem, event.op, a);
        FlatWrite(size, base, event.op, a);
      }
      FlatWrite(size, mem, event.op, 0);
      FlatWrite(size, base, event.op, 0);
    }
  }

  lemma MineExtendsSplice(size: nat, mem: Memory, base: Memory, offset: nat, data: Block, p: TouchedBlock)
    requires size > 0 && PieceOk(size, offset, p) && p.BufferEnd() <= |data|
    requires FlatSpliced(size, mem, base, offset, data, p.bufferOffset) && p.blockIndex in mem
    ensures InDevice(mem, PieceWrite(p, data))
    ensures FlatSpliced(size, Apply(mem, WriteDone(PieceWrite(p, data))), base, offset, data, p.BufferEnd())
  {
    var op := PieceWrite(p, data);
    var now := Apply(mem, WriteDone(op));
    FlatWrite(size, mem, op, 0);
    forall a: nat
      ensures FlatByte(size, now, a)
        == if offset <= a < offset + p.BufferEnd() && a / size in base then Some(data[a - offset])
           else FlatByte(size, base, a)
    {
      FlatWrite(size, mem, op, a);
      if offset + p.bufferOffset <= a < offset + p.BufferEnd() {
        BlockOfAddress(size, p.blockIndex, p.blockOffset + (a - offset - p.bufferOffset));
      }
    }
  }

  /** One turn of another request. */
  function AfterOther(mem: Memory, event: Event): Memory {
    if Accepts(mem, event) then Apply(mem, event) else mem
  }

  /** Where a request stands: `done` of its pieces are on the device, `mem`; `base` is the device without them. */
  ghost predicate Written(
    size: nat, mem: Memory, base: Memory, offset: nat, data: Block, ps: seq<TouchedBlock>, done: nat)
  {
    && size > 0 && Tiles(size, offset, |data|, ps) && done <= |ps|
    && Covered(ps[..done]) <= |data| && FlatSpliced(size, mem, base, offset, data, Covered(ps[..done]))
  }

  lemma OtherTurn(
    size: nat, mem: Memory, base: Memory, offset: nat, data: Block, ps: seq<TouchedBlock>, done: nat, event: Event)
    requires Written(size, mem, base, offset, data, ps, done) && Disjoint(size, event, offset, |data|)
    ensures Written(size, AfterOther(mem, event), AfterOther(base, event), offset, data, ps, done)
    ensures AfterOther(mem, event).Keys == mem.Keys
  {
    if event.WriteDone? {
      OtherKeepsSplice(size, mem, base, offset, data, Covered(ps[..done]), event);
    }
  }

  lemma MineTurn(size: nat, mem: Memory, base: Memory, offset: nat, data: Block, ps: seq<TouchedBlock>, done: nat)
    requires Written(size, mem, base, offset, data, ps, done) && done < |ps| && ps[done].blockIndex in mem
    ensures ps[done].BufferEnd() <= |data| && InDevice(mem, PieceWrite(ps[done], data))
    ensures Written(size, Apply(mem, WriteDone(PieceWrite(ps[done], data))), base, offset, data, ps, done + 1)
    ensures Apply(mem, WriteDone(PieceWrite(ps[done], data))).Keys == mem.Keys
  {
    CoveredGrows(size, offset, |data|, ps, done);
    assert ps[..done + 1][done] == ps[done];
    MineExtendsSplice(size, mem, base, offset, data, ps[done]);
  }
}
