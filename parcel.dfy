/** An Android `Parcel` as a sequence of typed cells with a read cursor.
    Only the calls the core makes are modelled: writeInt/Long/Double/String,
    writeStringList, the shared-memory handle, the matching reads, and
    dataSize()/dataAvail(). */
module Parcels {
  import opened Base

  /** One value written into a parcel. A shared-memory handle carries the
      segment's contents, so mapping it back yields those cells. */
  datatype Cell =
    | IntCell(i: Int32)
    | LongCell(l: Int64)
    | DoubleCell(d: Double)
    | StringCell(s: Option<string>)
    | SharedMemoryCell(segment: seq<Cell>)

  /** Bytes a cell occupies: int 4, long and double 8, a string its int
      length prefix plus UTF-16 code units and terminator padded to 4 (a null
      string only the prefix), a shared-memory handle a fixed 4. */
  function CellSize(c: Cell): (n: nat)
    ensures n >= 4
  {
    match c
    case IntCell(_) => 4
    case LongCell(_) => 8
    case DoubleCell(_) => 8
    case StringCell(None) => 4
    case StringCell(Some(s)) => 4 + ((2 * (|s| + 1) + 3) / 4) * 4
    case SharedMemoryCell(_) => 4
  }

  /** Bytes of a run of cells; `dataSize()` is Size of all cells. */
  function Size(cs: seq<Cell>): nat
  {
    if cs == [] then 0 else CellSize(cs[0]) + Size(cs[1..])
  }

  lemma {:induction false} SizeAppend(a: seq<Cell>, b: seq<Cell>)
    ensures Size(a + b) == Size(a) + Size(b)
  {
    if a != [] {
      assert (a + b)[0] == a[0] && (a + b)[1..] == a[1..] + b;
      SizeAppend(a[1..], b);
    } else {
      assert a + b == b;
    }
  }

  /** Reading cells p..q of cs consumes Size(cs[p..q]) of the bytes still available. */
  lemma SizeSplit(cs: seq<Cell>, p: nat, q: nat)
    requires p <= q <= |cs|
    ensures Size(cs[p..]) == Size(cs[p..q]) + Size(cs[q..])
  {
    assert cs[p..] == cs[p..q] + cs[q..];
    SizeAppend(cs[p..q], cs[q..]);
  }

  /** `enc` sits in `cs` starting at `p`. */
  ghost predicate At(cs: seq<Cell>, p: nat, enc: seq<Cell>)
  {
    p + |enc| <= |cs| && cs[p..p + |enc|] == enc
  }

  lemma AtSplit(cs: seq<Cell>, p: nat, a: seq<Cell>, b: seq<Cell>)
    requires At(cs, p, a + b)
    ensures At(cs, p, a) && At(cs, p + |a|, b)
  {
    assert cs[p..p + |a|] == (a + b)[..|a|];
    assert cs[p + |a|..p + |a| + |b|] == (a + b)[|a|..];
  }

  // ---- reading one cell ----

  function IntAt(cs: seq<Cell>, p: nat): Option<Int32>
  {
    if p < |cs| && cs[p].IntCell? then Some(cs[p].i) else None
  }

  function LongAt(cs: seq<Cell>, p: nat): Option<Int64>
  {
    if p < |cs| && cs[p].LongCell? then Some(cs[p].l) else None
  }

  function DoubleAt(cs: seq<Cell>, p: nat): Option<Double>
  {
    if p < |cs| && cs[p].DoubleCell? then Some(cs[p].d) else None
  }

  function StringAt(cs: seq<Cell>, p: nat): Option<Option<string>>
  {
    if p < |cs| && cs[p].StringCell? then Some(cs[p].s) else None
  }

  function SharedMemoryAt(cs: seq<Cell>, p: nat): Option<seq<Cell>>
  {
    if p < |cs| && cs[p].SharedMemoryCell? then Some(cs[p].segment) else None
  }

  // ---- string lists (writeStringList / createStringArrayList) ----

  function StringCells(xs: seq<string>): (r: seq<Cell>)
    ensures |r| == |xs|
    ensures forall k :: 0 <= k < |xs| ==> r[k] == StringCell(Some(xs[k]))
  {
    if xs == [] then [] else [StringCell(Some(xs[0]))] + StringCells(xs[1..])
  }

  /** writeStringList: the element count, then each string in order. */
  function EncodeStringList(xs: seq<string>): seq<Cell>
    requires |xs| < 0x8000_0000
  {
    [IntCell(|xs|)] + StringCells(xs)
  }

  predicate NonNullStrings(cs: seq<Cell>, lo: nat, hi: nat)
  {
    lo <= hi <= |cs| && forall k :: lo <= k < hi ==> cs[k].StringCell? && cs[k].s.Some?
  }

  function StringsIn(cs: seq<Cell>, lo: nat, hi: nat): (r: seq<string>)
    requires NonNullStrings(cs, lo, hi)
    ensures |r| == hi - lo
    ensures forall k :: 0 <= k < hi - lo ==> r[k] == cs[lo + k].s.value
  {
    seq(hi - lo, k requires 0 <= k < hi - lo => cs[lo + k].s.value)
  }

  /** createStringArrayList: a count n >= 0, then n non-null strings; the
      result and the cursor after them. A negative count (a null list) or a
      null element is not produced by any writer of this model and reads as
      Malformed. */
  function DecodeStringList(cs: seq<Cell>, p: nat): Result<(seq<string>, nat)>
  {
    match IntAt(cs, p)
    case None => Err(Malformed)
    case Some(n) =>
      if 0 <= n && NonNullStrings(cs, p + 1, p + 1 + n)
      then Ok((StringsIn(cs, p + 1, p + 1 + n), p + 1 + n))
      else Err(Malformed)
  }

  lemma StringListRoundTrip(cs: seq<Cell>, p: nat, xs: seq<string>)
    requires |xs| < 0x8000_0000
    requires At(cs, p, EncodeStringList(xs))
    ensures DecodeStringList(cs, p) == Ok((xs, p + |EncodeStringList(xs)|))
  {
    var enc := EncodeStringList(xs);
    assert cs[p] == enc[0];
    forall k | p + 1 <= k < p + 1 + |xs|
      ensures cs[k] == StringCell(Some(xs[k - p - 1]))
    {
      assert cs[k] == enc[k - p];
    }
    assert StringsIn(cs, p + 1, p + 1 + |xs|) == xs;
  }

  /** An Android Parcel: the cells written so far and the read position. */
  class Parcel {
    var cells: seq<Cell>
    var pos: nat

    ghost predicate Valid()
      reads this
    {
      pos <= |cells|
    }

    /** Parcel.obtain(): an empty parcel. */
    constructor Obtain()
      ensures Valid() && cells == [] && pos == 0
    {
      cells := [];
      pos := 0;
    }

    /** A parcel over the contents of a shared-memory segment. */
    constructor OfSegment(segment: seq<Cell>)
      ensures Valid() && cells == segment && pos == 0
    {
      cells := segment;
      pos := 0;
    }

    /** dataSize(): all bytes written, however many have been read. */
    function DataSize(): nat
      reads this
    {
      Size(cells)
    }

    /** dataAvail(): the bytes not yet read. */
    function DataAvail(): nat
      reads this
      requires Valid()
    {
      Size(cells[pos..])
    }

    method WriteInt(x: Int32)
      modifies this
      ensures cells == old(cells) + [IntCell(x)] && pos == old(pos)
    {
      cells := cells + [IntCell(x)];
    }

    method WriteLong(x: Int64)
      modifies this
      ensures cells == old(cells) + [LongCell(x)] && pos == old(pos)
    {
      cells := cells + [LongCell(x)];
    }

    method WriteDouble(x: Double)
      modifies this
      ensures cells == old(cells) + [DoubleCell(x)] && pos == old(pos)
    {
      cells := cells + [DoubleCell(x)];
    }

    method WriteString(s: Option<string>)
      modifies this
      ensures cells == old(cells) + [StringCell(s)] && pos == old(pos)
    {
      cells := cells + [StringCell(s)];
    }

    method WriteStringList(xs: seq<string>)
      requires |xs| < 0x8000_0000
      modifies this
      ensures cells == old(cells) + EncodeStringList(xs) && pos == old(pos)
    {
      cells := cells + EncodeStringList(xs);
    }

    /** SharedMemory.writeToParcel: the handle of a segment holding `segment`. */
    method WriteSharedMemory(segment: seq<Cell>)
      modifies this
      ensures cells == old(cells) + [SharedMemoryCell(segment)] && pos == old(pos)
    {
      cells := cells + [SharedMemoryCell(segment)];
    }

    method ReadInt() returns (r: Option<Int32>)
      requires Valid()
      modifies this`pos
      ensures Valid()
      ensures r == IntAt(cells, old(pos))
      ensures pos == if r.Some? then old(pos) + 1 else old(pos)
    {
      r := IntAt(cells, pos);
      if r.Some? { pos := pos + 1; }
    }

    method ReadLong() returns (r: Option<Int64>)
      requires Valid()
      modifies this`pos
      ensures Valid()
      ensures r == LongAt(cells, old(pos))
      ensures pos == if r.Some? then old(pos) + 1 else old(pos)
    {
      r := LongAt(cells, pos);
      if r.Some? { pos := pos + 1; }
    }

    method ReadDouble() returns (r: Option<Double>)
      requires Valid()
      modifies this`pos
      ensures Valid()
      ensures r == DoubleAt(cells, old(pos))
      ensures pos == if r.Some? then old(pos) + 1 else old(pos)
    {
      r := DoubleAt(cells, pos);
      if r.Some? { pos := pos + 1; }
    }

    method ReadString() returns (r: Option<Option<string>>)
      requires Valid()
      modifies this`pos
      ensures Valid()
      ensures r == StringAt(cells, old(pos))
      ensures pos == if r.Some? then old(pos) + 1 else old(pos)
    {
      r := StringAt(cells, pos);
      if r.Some? { pos := pos + 1; }
    }

    /** ParcelUtils.getParcelForSharedMemory's first half: take the handle. */
    method ReadSharedMemory() returns (r: Option<seq<Cell>>)
      requires Valid()
      modifies this`pos
      ensures Valid()
      ensures r == SharedMemoryAt(cells, old(pos))
      ensures pos == if r.Some? then old(pos) + 1 else old(pos)
    {
      r := SharedMemoryAt(cells, pos);
      if r.Some? { pos := pos + 1; }
    }

    method CreateStringArrayList() returns (r: Result<seq<string>>)
      requires Valid()
      modifies this`pos
      ensures Valid()
      ensures r.Ok? <==> DecodeStringList(cells, old(pos)).Ok?
      ensures r.Ok? ==> (r.value == DecodeStringList(cells, old(pos)).value.0
                         && pos == DecodeStringList(cells, old(pos)).value.1)
    {
      var d := DecodeStringList(cells, pos);
      if d.Ok? {
        r := Ok(d.value.0);
        pos := d.value.1;
      } else {
        r := Err(d.error);
      }
    }
  }
}
