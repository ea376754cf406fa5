/**
 * The link-cell list of freud's locality package: one array of `Np + Nc`
 * unsigned slots in which slot `Np + c` holds the first particle of cell `c`
 * and slot `p < Np` holds the particle that follows `p` in its cell, every
 * chain ending in LINK_CELL_TERMINATOR. IteratorLinkCell is a cursor that walks
 * one chain; LinkCell maps points to cells through a 3D indexer.
 */
module LinkCell {
  import opened Wrappers
  import opened Numbers

  /** Signifies the end of a linked chain. */
  const LINK_CELL_TERMINATOR: u32 := 0xffff_ffff

  // ---------------------------------------------------------------------------
  // The cell-list array as a value
  // ---------------------------------------------------------------------------

  /**
   * The shape computeCellList gives the array: `Np + Nc` slots, every slot
   * addressable without colliding with the terminator, and every entry either
   * a particle index or the terminator.
   */
  ghost predicate EntriesInRange(list: seq<u32>, np: nat, nc: nat)
  {
    && |list| == np + nc
    && np + nc <= LINK_CELL_TERMINATOR
    && forall s :: 0 <= s < |list| ==> list[s] < np || list[s] == LINK_CELL_TERMINATOR
  }

  /**
   * The particles met when following links from slot `slot`, reading at most
   * `fuel` slots; None when the terminator is not reached within that many
   * reads (a cycle, or a chain longer than the fuel).
   */
  ghost function ChainFrom(list: seq<u32>, slot: int, fuel: nat): Option<seq<u32>>
    decreases fuel
  {
    if fuel == 0 || slot < 0 || slot >= |list| then None
    else if list[slot] == LINK_CELL_TERMINATOR then Some([])
    else match ChainFrom(list, list[slot], fuel - 1)
      case None => None
      case Some(rest) => Some([list[slot]] + rest)
  }

  /**
   * A populated cell list: entries in range and every cell's chain reaches the
   * terminator. A chain without a cycle visits distinct particles, so `Np + 1`
   * reads (the head slot and one per particle) always suffice.
   */
  ghost predicate WellFormed(list: seq<u32>, np: nat, nc: nat)
  {
    && EntriesInRange(list, np, nc)
    && forall s :: np <= s < np + nc ==> ChainEnds(list, np, s)
  }

  /** The chain starting at `slot` reaches the terminator within `Np + 1` reads. */
  ghost predicate ChainEnds(list: seq<u32>, np: nat, slot: int)
  {
    ChainFrom(list, slot, np + 1).Some?
  }

  /** The particles of cell `cell`, in link order. */
  ghost function Chain(list: seq<u32>, np: nat, nc: nat, cell: nat): seq<u32>
    requires WellFormed(list, np, nc) && cell < nc
  {
    assert ChainEnds(list, np, np + cell);
    ChainFrom(list, np + cell, np + 1).value
  }

  /** A chain found with some fuel used one read per particle plus one for its start. */
  lemma {:induction false} ChainFromFuel(list: seq<u32>, slot: int, fuel: nat, ps: seq<u32>)
    requires ChainFrom(list, slot, fuel) == Some(ps)
    ensures |ps| < fuel
    decreases fuel
  {
    if list[slot] != LINK_CELL_TERMINATOR {
      ChainFromFuel(list, list[slot], fuel - 1, ps[1..]);
    }
  }

  /** The chain from a slot does not depend on how much fuel was allowed. */
  lemma {:induction false} ChainFromDeterministic(list: seq<u32>, s1: int, s2: int, f1: nat, f2: nat)
    requires ChainFrom(list, s1, f1).Some? && ChainFrom(list, s2, f2).Some?
    ensures s1 == s2 ==> ChainFrom(list, s1, f1) == ChainFrom(list, s2, f2)
    decreases f1
  {
    if s1 == s2 && list[s1] != LINK_CELL_TERMINATOR {
      ChainFromDeterministic(list, list[s1], list[s2], f1 - 1, f2 - 1);
    }
  }

  /** Following the chain from its `a`-th particle yields the rest of the chain. */
  lemma {:induction false} ChainFromSuffix(list: seq<u32>, slot: int, fuel: nat, ps: seq<u32>, a: nat)
    requires ChainFrom(list, slot, fuel) == Some(ps) && a < |ps|
    ensures a + 1 < fuel && ChainFrom(list, ps[a], fuel - 1 - a) == Some(ps[a + 1..])
    decreases a
  {
    ChainFromFuel(list, slot, fuel, ps);
    if a > 0 {
      ChainFromSuffix(list, list[slot], fuel - 1, ps[1..], a - 1);
      assert ps[1..][a - 1] == ps[a] && ps[1..][a..] == ps[a + 1..];
    }
  }

  /** Every particle a chain yields is a real particle index, never the terminator. */
  lemma {:induction false} ChainFromParticles(list: seq<u32>, np: nat, nc: nat, slot: int, fuel: nat, ps: seq<u32>)
    requires EntriesInRange(list, np, nc) && ChainFrom(list, slot, fuel) == Some(ps)
    ensures forall n :: 0 <= n < |ps| ==> ps[n] < np
    decreases fuel
  {
    if list[slot] != LINK_CELL_TERMINATOR {
      ChainFromParticles(list, np, nc, list[slot], fuel - 1, ps[1..]);
      assert ps == [list[slot]] + ps[1..];
    }
  }

  /** A chain that reaches the terminator visits each particle at most once. */
  lemma ChainFromDistinct(list: seq<u32>, slot: int, fuel: nat, ps: seq<u32>)
    requires ChainFrom(list, slot, fuel) == Some(ps)
    ensures forall a, b :: 0 <= a < b < |ps| ==> ps[a] != ps[b]
  {
    forall a, b | 0 <= a < b < |ps|
      ensures ps[a] != ps[b]
    {
      ChainFromSuffix(list, slot, fuel, ps, a);
      ChainFromSuffix(list, slot, fuel, ps, b);
      ChainFromDeterministic(list, ps[a], ps[b], fuel - 1 - a, fuel - 1 - b);
      assert |ps[a + 1..]| != |ps[b + 1..]|;
    }
  }

  /**
   * What a populated cell list promises of one cell: its chain holds distinct
   * particle indices, so at most `Np` of them.
   */
  lemma CellChainProperties(list: seq<u32>, np: nat, nc: nat, cell: nat)
    requires WellFormed(list, np, nc) && cell < nc
    ensures var ps := Chain(list, np, nc, cell);
      && |ps| <= np
      && (forall n :: 0 <= n < |ps| ==> ps[n] < np)
      && (forall a, b :: 0 <= a < b < |ps| ==> ps[a] != ps[b])
  {
    assert np <= np + cell < np + nc && ChainEnds(list, np, np + cell);
    var ps := Chain(list, np, nc, cell);
    ChainFromFuel(list, np + cell, np + 1, ps);
    ChainFromParticles(list, np, nc, np + cell, np + 1, ps);
    ChainFromDistinct(list, np + cell, np + 1, ps);
  }

  // ---------------------------------------------------------------------------
  // IteratorLinkCell
  // ---------------------------------------------------------------------------

  /** A cursor over one cell's chain; the array it walks is shared, never written. */
  class IteratorLinkCell {
    const cellList: array<u32>
    const np: u32
    const nc: u32
    var curIdx: u32

    ghost predicate Valid()
      reads this, cellList
    {
      && EntriesInRange(cellList[..], np, nc)
      && (curIdx == LINK_CELL_TERMINATOR || curIdx < np + nc)
    }

    /** Starts at the head slot of `cell`. */
    constructor (cellList: array<u32>, np: u32, nc: u32, cell: u32)
      requires cell < nc && np > 0 && nc > 0
      requires EntriesInRange(cellList[..], np, nc)
      ensures Valid()
      ensures this.cellList == cellList && this.np == np && this.nc == nc
      ensures curIdx == np + cell
    {
      this.cellList := cellList;
      this.np := np;
      this.nc := nc;
      curIdx := np + cell;
    }

    /** The iteration is complete; until then the cursor is a readable slot. */
    predicate AtEnd()
      requires Valid()
      reads this, cellList
      ensures !AtEnd() ==> curIdx < cellList.Length
    {
      curIdx == LINK_CELL_TERMINATOR
    }

    /** Moves to the link stored at the current slot and returns it (no end check). */
    method Next() returns (r: u32)
      requires Valid() && !AtEnd()
      modifies this
      ensures Valid() && unchanged(cellList)
      ensures curIdx == old(cellList[curIdx]) && r == curIdx
      ensures !AtEnd() ==> r < np
    {
      curIdx := cellList[curIdx];
      r := curIdx;
    }

    /**
     * The checked variant for Python: advances like Next, but reports the end
     * of the chain (StopIteration) instead of returning the terminator.
     */
    method NextPy() returns (r: Option<u32>)
      requires Valid() && !AtEnd()
      modifies this
      ensures Valid() && unchanged(cellList)
      ensures curIdx == old(cellList[curIdx])
      ensures r.None? <==> AtEnd()
      ensures r.Some? ==> r.value == curIdx && r.value < np
    {
      curIdx := cellList[curIdx];
      if AtEnd() {
        r := None;
      } else {
        r := Some(curIdx);
      }
    }
  }

  // ---------------------------------------------------------------------------
  // The cell indexer and point-to-cell mapping
  // ---------------------------------------------------------------------------

  /** Number of cells along x (W), y (H) and z (D). */
  datatype Index3D = Index3D(w: u32, h: u32, d: u32)

  /** A cell coordinate (i, j, k). */
  datatype Coord = Coord(x: u32, y: u32, z: u32)

  predicate ValidIndexer(idx: Index3D)
  {
    idx.w > 0 && idx.h > 0 && idx.d > 0
  }

  predicate InRange(idx: Index3D, c: Coord)
  {
    c.x < idx.w && c.y < idx.h && c.z < idx.d
  }

  /** LinkCell::getNumCells: the number of cells the indexer spans. */
  function NumCells(idx: Index3D): (n: nat)
    requires ValidIndexer(idx)
    ensures n >= idx.w && n >= idx.h && n >= idx.d
  {
    ProductBounds(idx.w, idx.h, idx.d);
    idx.w * idx.h * idx.d
  }

  lemma ProductBounds(w: nat, h: nat, d: nat)
    requires w > 0 && h > 0 && d > 0
    ensures w * h * d >= w && w * h * d >= h && w * h * d >= d
  {
    MulMono(1, h, w);
    MulMono(1, w, h);
    MulMono(1, d, w * h);
    MulMono(1, w * h, d);
  }

  /** The row-major layout keeps the lower two coordinates below one z-layer. */
  lemma LayerBound(w: nat, h: nat, i: nat, j: nat)
    requires i < w && j < h
    ensures j * w + i < w * h
  {
    MulMono(j, h - 1, w);
    assert (h - 1) * w == w * h - w;
  }

  lemma FlattenBound(w: nat, h: nat, d: nat, i: nat, j: nat, k: nat)
    requires i < w && j < h && k < d
    ensures 0 <= (k * h + j) * w + i < w * h * d
  {
    MulMono(0, k, h);
    MulMono(0, k * h + j, w);
    assert (k * h + j) * w + i == k * (w * h) + (j * w + i);
    LayerBound(w, h, i, j);
    MulMono(k, d - 1, w * h);
    assert (d - 1) * (w * h) == w * h * d - w * h;
  }

  /** Index3D's flat cell index, x fastest. */
  function Flatten(idx: Index3D, c: Coord): (n: nat)
    requires ValidIndexer(idx) && InRange(idx, c)
    ensures n < NumCells(idx)
  {
    FlattenBound(idx.w, idx.h, idx.d, c.x, c.y, c.z);
    (c.z * idx.h + c.y) * idx.w + c.x
  }

  lemma UnflattenBound(w: nat, h: nat, d: nat, n: nat)
    requires w > 0 && h > 0 && d > 0 && n < w * h * d
    ensures n / (w * h) < d
  {
    var q := n / (w * h);
    assert q * (w * h) <= n;
    MulMono(d, q, w * h);
    assert w * h * d == d * (w * h);
  }

  /** The coordinate of a flat cell index; the inverse of Flatten. */
  function Unflatten(idx: Index3D, n: nat): (c: Coord)
    requires ValidIndexer(idx) && n < NumCells(idx)
    ensures InRange(idx, c)
  {
    UnflattenBound(idx.w, idx.h, idx.d, n);
    Coord(n % idx.w, (n / idx.w) % idx.h, n / (idx.w * idx.h))
  }

  lemma UnflattenOf(w: nat, h: nat, i: nat, j: nat, k: nat)
    requires i < w && j < h
    ensures var n := (k * h + j) * w + i;
      n % w == i && (n / w) % h == j && n / (w * h) == k
  {
    var n := (k * h + j) * w + i;
    DivModOf(k * h + j, w, i);
    DivModOf(k, h, j);
    assert n == k * (w * h) + (j * w + i);
    LayerBound(w, h, i, j);
    DivModOf(k, w * h, j * w + i);
  }

  lemma FlattenOf(w: nat, h: nat, n: nat)
    requires w > 0 && h > 0
    ensures (n / (w * h) * h + (n / w) % h) * w + n % w == n
  {
    var m := n / w;
    assert n == m * w + n % w;
    assert m == (m / h) * h + m % h;
    LayerBound(w, h, n % w, m % h);
    DivModOf(m / h, w * h, (m % h) * w + n % w);
    assert n == (m / h) * (w * h) + ((m % h) * w + n % w);
  }

  /** Flattening loses nothing: distinct in-range cells get distinct flat indices. */
  lemma {:induction false} UnflattenFlatten(idx: Index3D, c: Coord)
    requires ValidIndexer(idx) && InRange(idx, c)
    ensures Unflatten(idx, Flatten(idx, c)) == c
  {
    UnflattenOf(idx.w, idx.h, c.x, c.y, c.z);
  }

  /** Every flat cell index is the flattening of exactly one coordinate. */
  lemma {:induction false} FlattenUnflatten(idx: Index3D, n: nat)
    requires ValidIndexer(idx) && n < NumCells(idx)
    ensures Flatten(idx, Unflatten(idx, n)) == n
  {
    FlattenOf(idx.w, idx.h, n);
  }

  /**
   * One component of getCellCoord: `floorf(a * n)` converted to unsigned (the
   * conversion is defined for 0 <= value < 2^32) and reduced modulo the extent.
   */
  predicate Scalable(a: real, n: u32)
  {
    0.0 <= a && a * (n as real) < 4294967296.0
  }

  lemma ScaledFloor(a: real, n: u32)
    requires n > 0 && Scalable(a, n)
    ensures 0 <= (a * n as real).Floor < 0x1_0000_0000
    ensures a < 1.0 ==> (a * n as real).Floor < n
    ensures a == 1.0 ==> (a * n as real).Floor == n
  {
    var x := n as real;
    assert x - a * x == (1.0 - a) * x;
    assert 0.0 <= a * x;
  }

  function CellComponent(a: real, n: u32): (c: u32)
    requires n > 0 && Scalable(a, n)
    ensures c < n
    ensures a < 1.0 ==> c == (a * n as real).Floor
    ensures a == 1.0 ==> c == 0
  {
    var f := (a * n as real).Floor;
    ScaledFloor(a, n);
    DivModOf(0, n, if 0 <= f < n then f else 0);
    DivModOf(1, n, 0);
    f % n
  }

  /**
   * LinkCell::getCellCoord for a point whose fractional coordinates within the
   * box (Box::makeunit) are `ax`, `ay`, `az`: each component is brought into
   * range of the indexer by `%`.
   */
  function GetCellCoord(idx: Index3D, ax: real, ay: real, az: real): (c: Coord)
    requires ValidIndexer(idx)
    requires Scalable(ax, idx.w) && Scalable(ay, idx.h) && Scalable(az, idx.d)
    ensures InRange(idx, c)
    ensures ax < 1.0 ==> c.x == (ax * idx.w as real).Floor
    ensures ay < 1.0 ==> c.y == (ay * idx.h as real).Floor
    ensures az < 1.0 ==> c.z == (az * idx.d as real).Floor
  {
    Coord(CellComponent(ax, idx.w), CellComponent(ay, idx.h), CellComponent(az, idx.d))
  }

  /** LinkCell::getCell: the flat index of the point's cell. */
  function GetCell(idx: Index3D, ax: real, ay: real, az: real): (n: nat)
    requires ValidIndexer(idx)
    requires Scalable(ax, idx.w) && Scalable(ay, idx.h) && Scalable(az, idx.d)
    ensures n < NumCells(idx)
    ensures Unflatten(idx, n) == GetCellCoord(idx, ax, ay, az)
  {
    UnflattenFlatten(idx, GetCellCoord(idx, ax, ay, az));
    Flatten(idx, GetCellCoord(idx, ax, ay, az))
  }

  // ---------------------------------------------------------------------------
  // LinkCell
  // ---------------------------------------------------------------------------

  /**
   * A LinkCell after computeCellList: its indexer, the particle count and the
   * populated cell list.
   */
  class LinkCell {
    const indexer: Index3D
    const np: u32
    const cellList: array<u32>

    ghost predicate Valid()
      reads this, cellList
    {
      ValidIndexer(indexer) && WellFormed(cellList[..], np, NumCells(indexer))
    }

    constructor (indexer: Index3D, np: u32, cellList: array<u32>)
      requires ValidIndexer(indexer) && WellFormed(cellList[..], np, NumCells(indexer))
      ensures Valid()
      ensures this.indexer == indexer && this.np == np && this.cellList == cellList
    {
      this.indexer := indexer;
      this.np := np;
      this.cellList := cellList;
    }

    /** An iterator over `cell`, sharing this cell list. */
    method Itercell(cell: u32) returns (it: IteratorLinkCell)
      requires Valid() && cell < NumCells(indexer) && np > 0
      ensures fresh(it) && it.Valid()
      ensures it.cellList == cellList && it.np == np && it.nc == NumCells(indexer)
      ensures it.curIdx == np + cell
    {
      it := new IteratorLinkCell(cellList, np, NumCells(indexer), cell);
    }
  }

  /** One step along a chain: the slot's link is either the end or the chain's next particle. */
  lemma ChainStep(list: seq<u32>, slot: int, fuel: nat, ps: seq<u32>)
    requires ChainFrom(list, slot, fuel) == Some(ps)
    ensures fuel > 0 && 0 <= slot < |list|
    ensures list[slot] == LINK_CELL_TERMINATOR <==> ps == []
    ensures list[slot] != LINK_CELL_TERMINATOR ==>
      ps[0] == list[slot] && ChainFrom(list, list[slot], fuel - 1) == Some(ps[1..])
  {
  }

  /**
   * The documented client loop `for (i = it.next(); !it.atEnd(); i = it.next())`
   * run from the cursor's current slot: it stops at the terminator, and the
   * particles it meets are exactly the chain that starts at that slot.
   */
  method Walk(it: IteratorLinkCell, ghost list: seq<u32>, ghost fuel: nat, ghost chain: seq<u32>)
    returns (ps: seq<u32>)
    requires it.Valid() && !it.AtEnd() && it.cellList[..] == list
    requires ChainFrom(list, it.curIdx, fuel) == Some(chain)
    modifies it
    ensures it.Valid() && it.AtEnd() && ps == chain
  {
    ps := [];
    ChainStep(list, it.curIdx, fuel, chain);
    var i := it.Next();
    ghost var rest := chain;
    ghost var left: nat := fuel - 1;
    while !it.AtEnd()
      invariant it.Valid() && it.cellList[..] == list
      invariant ps + rest == chain
      invariant it.AtEnd() <==> rest == []
      invariant !it.AtEnd() ==> rest[0] == it.curIdx == i
      invariant !it.AtEnd() ==> ChainFrom(list, it.curIdx, left) == Some(rest[1..])
      decreases |rest|
    {
      ChainStep(list, it.curIdx, left, rest[1..]);
      ps := ps + [i];
      i := it.Next();
      rest := rest[1..];
      left := left - 1;
    }
  }

  /**
   * Iterating one cell of a populated LinkCell (itercell, then the documented
   * loop) yields exactly that cell's chain: distinct particle indices, never
   * the terminator, with the shared cell list left as it was.
   */
  method CellParticles(lc: LinkCell, cell: u32) returns (ps: seq<u32>)
    requires lc.Valid() && cell < NumCells(lc.indexer) && lc.np > 0
    ensures ps == Chain(lc.cellList[..], lc.np, NumCells(lc.indexer), cell)
    ensures forall n :: 0 <= n < |ps| ==> ps[n] < lc.np
    ensures forall a, b :: 0 <= a < b < |ps| ==> ps[a] != ps[b]
  {
    ghost var list := lc.cellList[..];
    ghost var nc := NumCells(lc.indexer);
    assert ChainEnds(list, lc.np, lc.np + cell);
    CellChainProperties(list, lc.np, nc, cell);
    var it := lc.Itercell(cell);
    ps := Walk(it, list, lc.np + 1, Chain(list, lc.np, nc, cell));
  }
}
