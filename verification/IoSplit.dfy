/**
  Splitting of block I/O requests. A request owns a window of a data buffer and, for volume I/O, the
  sector address of its first byte; a split cuts sectors off its head or its tail into a new request.
 */
module IoSplit {
  import opened Sums

  const SECTOR: nat := 512
  const SECTORS_PER_BLOCK: nat := 8
  const U32: nat := 0x1_0000_0000
  const U64: nat := 0x1_0000_0000_0000_0000

  /** The window of a request: where it starts in the root buffer, how long it is, who frees the memory. */
  datatype Window = Window(start: nat, size: nat, originalSize: nat, owns: bool)

  datatype Piece = Piece(window: Window, rba: nat)

  predicate Fits(p: Piece, sectors: nat) { sectors * SECTOR <= p.window.size }

  /** The bytes taken off one end. */
  function Shrunk(w: Window, bytes: nat, fromTail: bool): (r: Window)
    requires bytes <= w.size
  {
    w.(start := if fromTail then w.start else w.start + bytes, size := w.size - bytes)
  }

  /** The copy of a buffer shares the memory and never owns it. */
  function Shared(w: Window): (r: Window) {
    w.(originalSize := w.size, owns := false)
  }

  /** The request after a split. */
  function Kept(p: Piece, sectors: nat, fromTail: bool): (r: Piece)
    requires Fits(p, sectors)
  {
    Piece(Shrunk(p.window, sectors * SECTOR, fromTail), if fromTail then p.rba else (p.rba + sectors) % U64)
  }

  /** The new request a split returns. */
  function CutOff(p: Piece, sectors: nat, fromTail: bool): (r: Piece)
    requires Fits(p, sectors)
  {
    var rest := p.window.size - sectors * SECTOR;
    Piece(Shrunk(Shared(p.window), rest, !fromTail), if fromTail then (p.rba + rest / SECTOR) % U64 else p.rba)
  }

  class DataBuffer {
    var current: nat
    var size: nat
    var originalSize: nat
    var ownership: bool

    ghost function View(): (w: Window)
      reads this
    {
      Window(current, size, originalSize, ownership)
    }

    constructor (size: nat, bufferGiven: bool)
      ensures View() == Window(0, size, size, size != 0 && !bufferGiven)
    {
      current, this.size, originalSize := 0, size, size;
      ownership := false;
      if size != 0 && !bufferGiven { ownership := true; }
    }

    constructor Copy(from: DataBuffer)
      ensures View() == Shared(from.View())
    {
      current, size, originalSize, ownership := from.current, from.size, from.size, false;
    }

    /** Returns false, and changes nothing, where the source throws. */
    method Remove(removalSize: nat, fromTail: bool) returns (ok: bool)
      modifies this`current, this`size
      ensures ok <==> removalSize <= old(size)
      ensures View() == if ok then Shrunk(old(View()), removalSize, fromTail) else old(View())
    {
      if removalSize > size { return false; }
      if !fromTail { current := current + removalSize; }
      size := size - removalSize;
      ok := true;
    }

    /** The address of a sector of the window; a sector outside it yields the base address. */
    function GetAddress(blockIndex: nat, sectorOffset: nat): (a: nat)
      reads this
      ensures (blockIndex * SECTORS_PER_BLOCK + sectorOffset) * SECTOR < size ==>
                a == current + (blockIndex * SECTORS_PER_BLOCK + sectorOffset) * SECTOR
      ensures (blockIndex * SECTORS_PER_BLOCK + sectorOffset) * SECTOR >= size ==> a == 0
    {
      var shift := blockIndex * SECTORS_PER_BLOCK * SECTOR + sectorOffset * SECTOR;
      if size <= shift then 0 else current + shift
    }
  }

  class VolumeIo {
    const dataBuffer: DataBuffer
    var sectorRba: nat

    ghost function View(): (p: Piece)
      reads this, dataBuffer
    {
      Piece(dataBuffer.View(), sectorRba)
    }

    constructor (buffer: DataBuffer, rba: nat)
      ensures dataBuffer == buffer && sectorRba == rba
    {
      dataBuffer, sectorRba := buffer, rba;
    }

    constructor Copy(from: VolumeIo)
      ensures fresh(dataBuffer) && View() == Piece(Shared(from.dataBuffer.View()), from.sectorRba)
    {
      dataBuffer := new DataBuffer.Copy(from.dataBuffer);
      sectorRba := from.sectorRba;
    }

    /** Returns the request that was cut off, or nothing, with this request unchanged, where the source throws. */
    method Split(sectors: nat, fromTail: bool) returns (r: VolumeIo?)
      requires sectors < U32 && dataBuffer.size < U64
      modifies this, dataBuffer
      ensures r == null <==> !Fits(old(View()), sectors)
      ensures r == null ==> View() == old(View())
      ensures r != null ==> fresh(r) && fresh(r.dataBuffer)
      ensures r != null ==>
                View() == Kept(old(View()), sectors, fromTail) && r.View() == CutOff(old(View()), sectors, fromTail)
    {
      r := new VolumeIo.Copy(this);
      var reflected := ReflectSplit(r, sectors, fromTail);
      if !reflected { return null; }
      if fromTail {
        r.sectorRba := (r.sectorRba + dataBuffer.size / SECTOR) % U64;
      } else {
        sectorRba := (sectorRba + sectors) % U64;
      }
    }

    /** The remaining size is computed in 64 bits, so an oversized request is caught by the new buffer. */
    method ReflectSplit(cut: VolumeIo, sectors: nat, fromTail: bool) returns (ok: bool)
      requires sectors < U32 && dataBuffer.size < U64 && cut.dataBuffer != dataBuffer
      requires cut.dataBuffer.View() == Shared(dataBuffer.View())
      modifies dataBuffer, cut.dataBuffer
      ensures ok <==> sectors * SECTOR <= old(dataBuffer.size)
      ensures !ok ==> dataBuffer.View() == old(dataBuffer.View())
      ensures ok ==> dataBuffer.View() == Shrunk(old(dataBuffer.View()), sectors * SECTOR, fromTail)
      ensures ok ==>
                cut.dataBuffer.View() == Shrunk(Shared(old(dataBuffer.View())), old(dataBuffer.size) - sectors * SECTOR, !fromTail)
    {
      var removalSize := sectors * SECTOR;
      var remainingSize := (dataBuffer.size - removalSize) % U64;
      ok := cut.dataBuffer.Remove(remainingSize, !fromTail);
      if !ok { return false; }
      ok := dataBuffer.Remove(removalSize, fromTail);
    }
  }

  // --- Any sequence of splits ---------------------------------------------------------------------------

  /** A split of one of the pieces that exist so far. */
  datatype Cut = Cut(which: nat, sectors: nat, fromTail: bool)

  /** An oversized split is rejected and leaves the pieces alone. */
  function AfterCut(pieces: seq<Piece>, c: Cut): (r: seq<Piece>)
    requires c.which < |pieces|
  {
    var p := pieces[c.which];
    if !Fits(p, c.sectors) then pieces
    else pieces[c.which := Kept(p, c.sectors, c.fromTail)] + [CutOff(p, c.sectors, c.fromTail)]
  }

  ghost predicate IsRun(root: Piece, cuts: seq<Cut>, stages: seq<seq<Piece>>) {
    && |stages| == |cuts| + 1 && stages[0] == [root]
    && (forall k :: 0 <= k < |cuts| ==>
          cuts[k].which < |stages[k]| && stages[k + 1] == AfterCut(stages[k], cuts[k]))
  }

  predicate Holds(p: Piece, b: nat) {
    p.window.start <= b < p.window.start + p.window.size
  }

  ghost function Holders(pieces: seq<Piece>, b: nat): (r: seq<nat>) {
    seq(|pieces|, i requires 0 <= i < |pieces| => if Holds(pieces[i], b) then 1 else 0)
  }

  ghost function Owners(pieces: seq<Piece>): (r: seq<nat>) {
    seq(|pieces|, i requires 0 <= i < |pieces| => if pieces[i].window.owns then 1 else 0)
  }

  /** A whole number of sectors with a 64-bit address. */
  predicate IsRoot(root: Piece) {
    root.window.start == 0 && root.window.size % SECTOR == 0 && root.rba < U64
  }

  /** The piece lies in the root buffer on sector boundaries, and its address has moved along with its window. */
  predicate InStep(root: Piece, p: Piece) {
    && p.window.start % SECTOR == 0 && p.window.size % SECTOR == 0
    && p.window.start + p.window.size <= root.window.size
    && p.rba == (root.rba + p.window.start / SECTOR) % U64
  }

  lemma {:induction false} ModAdd(x: nat, y: nat)
    ensures (x % U64 + y) % U64 == (x + y) % U64
  {
    assert x + y == x / U64 * U64 + (x % U64 + y);
  }

  lemma {:induction false} SplitInStep(root: Piece, p: Piece, sectors: nat, fromTail: bool)
    requires IsRoot(root) && InStep(root, p) && Fits(p, sectors)
    ensures InStep(root, Kept(p, sectors, fromTail)) && InStep(root, CutOff(p, sectors, fromTail))
  {
    var a, n := p.window.start / SECTOR, p.window.size / SECTOR;
    assert p.window.start == a * SECTOR && p.window.size == n * SECTOR && sectors <= n;
    var kept, cut := Kept(p, sectors, fromTail), CutOff(p, sectors, fromTail);
    Whole(n - sectors);
    if fromTail {
      ModAdd(root.rba + a, n - sectors);
      InStepAt(root, kept, a, n - sectors);
      InStepAt(root, cut, a + n - sectors, sectors);
    } else {
      ModAdd(root.rba + a, sectors);
      InStepAt(root, kept, a + sectors, n - sectors);
      InStepAt(root, cut, a, sectors);
    }
  }

  lemma {:induction false} Whole(a: nat)
    ensures a * SECTOR % SECTOR == 0 && a * SECTOR / SECTOR == a
  {
  }

  lemma {:induction false} InStepAt(root: Piece, p: Piece, a: nat, n: nat)
    requires p.window.start == a * SECTOR && p.window.size == n * SECTOR
    requires p.window.start + p.window.size <= root.window.size && p.rba == (root.rba + a) % U64
    ensures InStep(root, p)
  {
    Whole(a);
    Whole(n);
  }

  /** A split from the tail cuts off the last sectors and one from the head the first; the rest is kept. */
  lemma {:induction false} SplitEnds(p: Piece, sectors: nat, fromTail: bool, b: nat)
    requires Fits(p, sectors)
    ensures var first, last := p.window.start + sectors * SECTOR, p.window.start + p.window.size - sectors * SECTOR;
            && (Holds(CutOff(p, sectors, fromTail), b) <==> Holds(p, b) && if fromTail then b >= last else b < first)
            && (Holds(Kept(p, sectors, fromTail), b) <==> Holds(p, b) && if fromTail then b < last else b >= first)
    ensures CutOff(p, sectors, fromTail).window.size == sectors * SECTOR
    ensures CutOff(p, sectors, fromTail).window.originalSize == p.window.size
    ensures !CutOff(p, sectors, fromTail).window.owns
    ensures Kept(p, sectors, fromTail).window.owns == p.window.owns
    ensures Kept(p, sectors, fromTail).window.originalSize == p.window.originalSize
  {
    var rest := p.window.size - sectors * SECTOR;
    assert Shrunk(Shared(p.window), rest, !fromTail).size == sectors * SECTOR;
  }

  /** The part at the head keeps the address of the request, and the part at the tail comes right after it. */
  lemma {:induction false} SplitAddresses(p: Piece, sectors: nat, fromTail: bool)
    requires Fits(p, sectors) && p.window.size % SECTOR == 0 && p.rba < U64
    ensures var kept, cut := Kept(p, sectors, fromTail), CutOff(p, sectors, fromTail);
            if fromTail
            then kept.rba == p.rba && cut.rba == (p.rba + p.window.size / SECTOR - sectors) % U64
            else cut.rba == p.rba && kept.rba == (p.rba + sectors) % U64
  {
    Whole(p.window.size / SECTOR - sectors);
    assert p.window.size - sectors * SECTOR == (p.window.size / SECTOR - sectors) * SECTOR;
  }

  /** A split loses no byte and duplicates none. */
  lemma {:induction false} SplitHolds(p: Piece, sectors: nat, fromTail: bool, b: nat)
    requires Fits(p, sectors)
    ensures Holds(p, b) <==> Holds(Kept(p, sectors, fromTail), b) || Holds(CutOff(p, sectors, fromTail), b)
    ensures !(Holds(Kept(p, sectors, fromTail), b) && Holds(CutOff(p, sectors, fromTail), b))
  {
  }

  lemma {:induction false} CutKeepsTiling(pieces: seq<Piece>, c: Cut, b: nat)
    requires c.which < |pieces|
    ensures Sum(Holders(AfterCut(pieces, c), b)) == Sum(Holders(pieces, b))
    ensures Sum(Owners(AfterCut(pieces, c))) == Sum(Owners(pieces))
  {
    var p, h, o := pieces[c.which], Holders(pieces, b), Owners(pieces);
    if Fits(p, c.sectors) {
      SplitHolds(p, c.sectors, c.fromTail, b);
      var kept := if Holds(Kept(p, c.sectors, c.fromTail), b) then 1 else 0;
      var cut := if Holds(CutOff(p, c.sectors, c.fromTail), b) then 1 else 0;
      assert Holders(AfterCut(pieces, c), b) == h[c.which := kept] + [cut];
      assert Owners(AfterCut(pieces, c)) == o + [0];
      SumUpdate(h, c.which, kept);
      SumAppend(h[c.which := kept], cut);
      SumAppend(o, 0);
    }
  }

  /**
    After any sequence of splits, every byte of the root buffer lies in exactly one piece and no piece
    reaches outside, the piece addresses follow their windows, and at most one piece owns the memory.
   */
  lemma {:induction false} PiecesTile(root: Piece, cuts: seq<Cut>, stages: seq<seq<Piece>>, k: nat, b: nat)
    requires IsRoot(root) && IsRun(root, cuts, stages) && k < |stages|
    ensures Sum(Holders(stages[k], b)) == if b < root.window.size then 1 else 0
    ensures Sum(Owners(stages[k])) == if root.window.owns then 1 else 0
    ensures forall i :: 0 <= i < |stages[k]| ==> InStep(root, stages[k][i])
  {
    if k == 0 {
      SumSingle(Holders([root], b), 0);
      SumSingle(Owners([root]), 0);
    } else {
      var pieces, c := stages[k - 1], cuts[k - 1];
      PiecesTile(root, cuts, stages, k - 1, b);
      CutKeepsTiling(pieces, c, b);
      CutInStep(root, pieces, c);
    }
  }

  lemma {:induction false} CutInStep(root: Piece, pieces: seq<Piece>, c: Cut)
    requires IsRoot(root) && c.which < |pieces| && forall i :: 0 <= i < |pieces| ==> InStep(root, pieces[i])
    ensures forall i :: 0 <= i < |AfterCut(pieces, c)| ==> InStep(root, AfterCut(pieces, c)[i])
  {
    if Fits(pieces[c.which], c.sectors) { SplitInStep(root, pieces[c.which], c.sectors, c.fromTail); }
  }

  /** No two pieces hold the same byte, and no two own the memory. */
  lemma {:induction false} PiecesApart(root: Piece, cuts: seq<Cut>, stages: seq<seq<Piece>>, k: nat, i: nat, j: nat, b: nat)
    requires IsRoot(root) && IsRun(root, cuts, stages) && k < |stages| && i < j < |stages[k]|
    ensures !(Holds(stages[k][i], b) && Holds(stages[k][j], b))
    ensures !(stages[k][i].window.owns && stages[k][j].window.owns)
  {
    PiecesTile(root, cuts, stages, k, b);
    SumAtLeast(Holders(stages[k], b), i, j);
    SumAtLeast(Owners(stages[k]), i, j);
  }

  /** Wherever a byte ends up, its piece maps it to the sector the root request had for it. */
  lemma {:induction false} SameSector(root: Piece, cuts: seq<Cut>, stages: seq<seq<Piece>>, k: nat, i: nat, b: nat)
    requires IsRoot(root) && IsRun(root, cuts, stages) && k < |stages| && i < |stages[k]|
    requires Holds(stages[k][i], b)
    ensures b < root.window.size
    ensures (stages[k][i].rba + (b - stages[k][i].window.start) / SECTOR) % U64 == (root.rba + b / SECTOR) % U64
  {
    PiecesTile(root, cuts, stages, k, b);
    var p := stages[k][i];
    assert InStep(root, p) && p.window.start == p.window.start / SECTOR * SECTOR;
    ModAdd(root.rba + p.window.start / SECTOR, (b - p.window.start) / SECTOR);
  }
}
