/** The bipartite ring buffer as a value: its index arithmetic, its four operations, and what they
    mean for the queue of unread elements (src/io/bipartite_buf_impl.hpp). */
module Rings {
  import opened Common

  // ---------------------------------------------------------------- index arithmetic

  function CalcFree(size: nat, w: nat, r: nat): nat
    requires w < size && r < size
  {
    if r > w then r - w - 1 else size - (w - r) - 1
  }

  function LinearFree(size: nat, w: nat, r: nat): nat
    requires w < size && r < size
  {
    Min(CalcFree(size, w, r), size - w)
  }

  datatype Grant = Grant(offset: nat, wrapped: bool)

  /** The decision `write_acquire` takes from the two indices it has loaded. */
  function WriteGrant(size: nat, w: nat, r: nat, n: nat): Option<Grant>
    requires w < size && r < size
  {
    if n <= LinearFree(size, w, r) then Some(Grant(w, false))
    else if n <= CalcFree(size, w, r) - LinearFree(size, w, r) then Some(Grant(0, true))
    else None
  }

  datatype Indexes = Indexes(w: nat, i: nat)

  /** The write and invalidate indices that `write_release` stores. */
  function WriteIndexes(size: nat, w: nat, i: nat, wrapped: bool, written: nat): Indexes {
    var i0 := if wrapped then w else i;
    var w1 := (if wrapped then 0 else w) + written;
    Indexes(if w1 == size then 0 else w1, if w1 > i0 then w1 else i0)
  }

  /** The read index that `read_release` stores. */
  function ReadIndex(size: nat, r: nat, wrapped: bool, read: nat): nat {
    var r1 := (if wrapped then 0 else r) + read;
    if r1 == size then 0 else r1
  }

  /** The unread elements of an array with the given indices, oldest first. */
  function Unread<T>(data: seq<T>, r: nat, w: nat, i: nat): seq<T>
    requires r <= w <= |data| || w < r <= i <= |data|
  {
    if r <= w then data[r..w] else data[r..i] + data[..w]
  }

  // ---------------------------------------------------------------- the ring and its operations

  datatype Ring<T> = Ring(data: seq<T>, r: nat, w: nat, i: nat, writeWrapped: bool, readWrapped: bool) {

    /** The representation invariant. A pending write wrap means the reader is behind the writer and has
        left at least two cells; a pending read wrap means the reader stands at the invalidated tail. */
    predicate Valid() {
      && |data| > 2
      && r < |data| && w < |data|
      && w <= i <= |data|
      && (r <= w || r <= i)
      && (writeWrapped ==> 2 <= r <= w)
      && (readWrapped ==> w < r == i)
    }

    /** The queue this ring stands for. */
    function Contents(): seq<T>
      requires Valid()
    {
      Unread(data, r, w, i)
    }

    /** Cell `c` holds an element that has been written and not yet read. */
    predicate UnreadCell(c: nat) {
      if r <= w then r <= c < w else r <= c < i || c < w
    }

    /** The cell just before the read index, which is never handed out. */
    function GuardCell(): nat
      requires Valid()
    {
      if r == 0 then |data| - 1 else r - 1
    }

    /** Cell `c` is neither unread nor the guard. */
    predicate FreeCell(c: nat)
      requires Valid()
    {
      !UnreadCell(c) && c != GuardCell()
    }

    /** The `n` cells from `start` lie in the array and are free. */
    predicate RunFits(start: nat, n: nat)
      requires Valid()
    {
      start + n <= |data| && forall c: nat | start <= c < start + n :: FreeCell(c)
    }

    /** Where the next release will publish from. */
    function WriteOffset(): nat {
      if writeWrapped then 0 else w
    }

    /** A release of `n` elements is covered by a grant. */
    predicate Writable(n: nat)
      requires Valid()
    {
      if writeWrapped then n < r else n <= LinearFree(|data|, w, r)
    }

    /** A wrap left over from an unreleased grant contradicts the choice the next acquire of `n` makes. */
    predicate StaleWrap(n: nat)
      requires Valid()
    {
      writeWrapped && 1 <= n <= LinearFree(|data|, w, r)
    }

    /** A release of `n` elements is covered by what the reader has acquired. */
    predicate Readable(n: nat)
      requires Valid()
    {
      if readWrapped then n <= w else if r <= w then n <= w - r else n <= i - r
    }

    function AcquireWrite(n: nat): (Ring<T>, Option<nat>)
      requires Valid()
    {
      match WriteGrant(|data|, w, r, n)
      case None => (this, None)
      case Some(g) => (this.(writeWrapped := writeWrapped || g.wrapped), Some(g.offset))
    }

    /** What a producer does with a grant: it puts elements into the cells it was handed. */
    function Fill(offset: nat, elements: seq<T>): Ring<T>
      requires offset + |elements| <= |data|
    {
      this.(data := data[..offset] + elements + data[offset + |elements|..])
    }

    function ReleaseWrite(written: nat): Ring<T> {
      var next := WriteIndexes(|data|, w, i, writeWrapped, written);
      this.(w := next.w, i := next.i, writeWrapped := false)
    }

    function AcquireRead(): (Ring<T>, Option<Region>)
      requires Valid()
    {
      if r == w then (this, None)
      else if r < w then (this, Some(Region(r, w - r)))
      else if r == i then (this.(readWrapped := true), Some(Region(0, w)))
      else (this, Some(Region(r, i - r)))
    }

    function ReleaseRead(read: nat): Ring<T> {
      this.(r := ReadIndex(|data|, r, readWrapped, read), readWrapped := false)
    }

    /** What a reader with room for `room` elements does: it acquires, takes what it can, and releases that. */
    function Drain(room: nat): (Ring<T>, seq<T>)
      requires Valid()
    {
      var (g, region) := AcquireRead();
      if region.None? || region.value.length == 0 then (g, [])
      else
        var n := Min(room, region.value.length);
        (g.ReleaseRead(n), data[region.value.offset..region.value.offset + n])
    }
  }

  datatype Region = Region(offset: nat, length: nat)

  // ---------------------------------------------------------------- what a write does to the queue

  /** `write_acquire` refuses exactly when no run of `n` free cells starts at the write index or at cell 0
      with the guard cell left over, and it goes to cell 0 only when the run at the write index is short. */
  lemma GrantExactly<T>(g: Ring<T>, n: nat)
    requires g.Valid()
    ensures WriteGrant(|g.data|, g.w, g.r, n) ==
            (if g.RunFits(g.w, n) then Some(Grant(g.w, false))
             else if g.RunFits(0, n) then Some(Grant(0, true))
             else None)
  {
    RunAtWriteIndex(g, n);
    if n > LinearFree(|g.data|, g.w, g.r) {
      RunAtZero(g, n);
    }
  }

  lemma RunAtWriteIndex<T>(g: Ring<T>, n: nat)
    requires g.Valid()
    ensures g.RunFits(g.w, n) <==> n <= LinearFree(|g.data|, g.w, g.r)
  {
    if n <= LinearFree(|g.data|, g.w, g.r) {
      forall c: nat | g.w <= c < g.w + n
        ensures g.FreeCell(c)
      {
      }
    } else if g.w + n <= |g.data| {
      assert g.w <= g.GuardCell() < g.w + n && !g.FreeCell(g.GuardCell());
    }
  }

  lemma RunAtZero<T>(g: Ring<T>, n: nat)
    requires g.Valid() && n > LinearFree(|g.data|, g.w, g.r)
    ensures g.RunFits(0, n) <==> n <= CalcFree(|g.data|, g.w, g.r) - LinearFree(|g.data|, g.w, g.r)
  {
    if n <= CalcFree(|g.data|, g.w, g.r) - LinearFree(|g.data|, g.w, g.r) {
      forall c: nat | c < n
        ensures g.FreeCell(c)
      {
      }
    } else if n <= |g.data| {
      var c := if g.UnreadCell(0) then 0 else g.GuardCell();
      assert c < n && !g.FreeCell(c);
    }
  }

  /** Acquiring never changes the queue; unless a leftover wrap is stale for this size, the grant is exactly
      where the next release publishes from. */
  lemma AcquireWriteKeepsQueue<T>(g: Ring<T>, n: nat)
    requires g.Valid()
    ensures var (g', offset) := g.AcquireWrite(n);
            && g'.Valid() && g'.Contents() == g.Contents()
            && (offset.Some? ==> offset.value + n <= |g.data|)
            && (offset.Some? && n > 0 ==> g'.RunFits(offset.value, n))
            && (offset.Some? && !g.StaleWrap(n) && n > 0 ==> offset.value == g'.WriteOffset() && g'.Writable(n))
            && (offset.Some? && !g.writeWrapped ==> offset.value == g'.WriteOffset() && g'.Writable(n))
  {
    GrantExactly(g, n);
    RunAtWriteIndex(g, n);
  }

  /** A release appends the cells it covers to the queue and leaves the reader's side alone. */
  lemma ReleaseWritePublishes<T>(g: Ring<T>, n: nat)
    requires g.Valid() && g.Writable(n)
    ensures g.WriteOffset() + n <= |g.data|
    ensures var g' := g.ReleaseWrite(n);
            && g'.Valid()
            && g'.Contents() == g.Contents() + g.data[g.WriteOffset()..g.WriteOffset() + n]
  {
    hide Ring.ReleaseWrite, Ring.Contents, Ring.Writable;
    ReleasedIndexes(g, n);
    if g.writeWrapped {
      UnreadRun(g, g.r, g.w);
      UnreadTwo(g.ReleaseWrite(n), g.r, g.w, n);
    } else if g.w < g.r {
      PublishBehind(g, n);
    } else {
      PublishAhead(g, n);
    }
  }

  lemma PublishBehind<T>(g: Ring<T>, n: nat)
    requires g.Valid() && !g.writeWrapped && g.w + n < g.r
    ensures g.(w := g.w + n).Valid()
    ensures g.(w := g.w + n).Contents() == g.Contents() + g.data[g.w..g.w + n]
  {
    hide Ring.Contents;
    assert g.(w := g.w + n).Valid();
    hide Ring.Valid;
    UnreadTwo(g, g.r, g.i, g.w);
    UnreadTwo(g.(w := g.w + n), g.r, g.i, g.w + n);
    RunGrows(g.data, 0, g.w, n);
  }

  lemma PublishAhead<T>(g: Ring<T>, n: nat)
    requires g.Valid() && !g.writeWrapped && g.r <= g.w && g.w + n <= |g.data| && (g.w + n == |g.data| ==> 0 < g.r)
    ensures var g' := if g.w + n < |g.data| then g.(w := g.w + n, i := Max(g.w + n, g.i))
                      else g.(w := 0, i := |g.data|);
            g'.Valid() && g'.Contents() == g.Contents() + g.data[g.w..g.w + n]
  {
    hide Ring.Contents;
    UnreadRun(g, g.r, g.w);
    RunGrows(g.data, g.r, g.w, n);
    if g.w + n < |g.data| {
      UnreadRun(g.(w := g.w + n, i := Max(g.w + n, g.i)), g.r, g.w + n);
    } else {
      UnreadTwo(g.(w := 0, i := |g.data|), g.r, |g.data|, 0);
    }
  }

  /** Where a release leaves the indices: a wrap invalidates the tail it jumps over, and the end of the array
      counts as the start. */
  lemma ReleasedIndexes<T>(g: Ring<T>, n: nat)
    requires g.Valid() && g.Writable(n)
    ensures g.ReleaseWrite(n) ==
            if g.writeWrapped then g.(w := n, i := g.w, writeWrapped := false)
            else if g.w + n < |g.data| then g.(w := g.w + n, i := Max(g.w + n, g.i))
            else g.(w := 0, i := |g.data|)
    ensures g.WriteOffset() + n <= |g.data| && g.ReleaseWrite(n).Valid()
    ensures g.writeWrapped ==> n < g.r <= g.w
    ensures g.w < g.r && !g.writeWrapped ==> g.w + n < g.r
    ensures !g.writeWrapped && g.w + n == |g.data| ==> 0 < g.r <= g.w
  {
  }

  lemma UnreadRun<T>(g: Ring<T>, r: nat, w: nat)
    requires g.Valid() && r == g.r && w == g.w && r <= w
    ensures g.Contents() == g.data[r..w]
  {
  }

  lemma UnreadTwo<T>(g: Ring<T>, r: nat, i: nat, w: nat)
    requires g.Valid() && r == g.r && i == g.i && w == g.w && w < r
    ensures g.Contents() == g.data[r..i] + g.data[..w]
  {
  }

  lemma RunGrows<T>(data: seq<T>, a: nat, b: nat, n: nat)
    requires a <= b && b + n <= |data|
    ensures data[a..b + n] == data[a..b] + data[b..b + n]
  {
  }

  /** Storing into granted cells leaves the queue alone. */
  lemma FillKeepsQueue<T>(g: Ring<T>, elements: seq<T>)
    requires g.Valid() && g.Writable(|elements|)
    requires g.WriteOffset() + |elements| <= |g.data|
    ensures var f := g.Fill(g.WriteOffset(), elements);
            && f.Valid() && f.Contents() == g.Contents() && f.Writable(|elements|)
            && f.data[g.WriteOffset()..g.WriteOffset() + |elements|] == elements
  {
    hide Ring.Fill;
    FillSlices(g, g.WriteOffset(), elements);
    if g.r <= g.w {
      FillLeaves(g, g.WriteOffset(), elements, g.r, g.w);
    } else {
      FillLeaves(g, g.WriteOffset(), elements, g.r, g.i);
      FillLeaves(g, g.WriteOffset(), elements, 0, g.w);
    }
  }

  lemma FillSlices<T>(g: Ring<T>, offset: nat, elements: seq<T>)
    requires offset + |elements| <= |g.data|
    ensures var f := g.Fill(offset, elements);
            && f == g.(data := f.data) && |f.data| == |g.data|
            && f.data[offset..offset + |elements|] == elements
  {
  }

  lemma FillLeaves<T>(g: Ring<T>, offset: nat, elements: seq<T>, a: nat, b: nat)
    requires offset + |elements| <= |g.data| && a <= b <= |g.data|
    requires b <= offset || offset + |elements| <= a
    ensures |g.Fill(offset, elements).data| == |g.data|
    ensures g.Fill(offset, elements).data[a..b] == g.data[a..b]
  {
  }

  /** Writing `elements` into the granted cells and releasing them appends exactly them to the queue. */
  lemma FillReleaseAppends<T>(g: Ring<T>, elements: seq<T>)
    requires g.Valid() && g.Writable(|elements|)
    ensures g.WriteOffset() + |elements| <= |g.data|
    ensures var g' := g.Fill(g.WriteOffset(), elements).ReleaseWrite(|elements|);
            && g'.Valid() && g'.Contents() == g.Contents() + elements
            && g'.r == g.r && g'.readWrapped == g.readWrapped && |g'.data| == |g.data|
  {
    ReleaseWritePublishes(g, |elements|);
    FillKeepsQueue(g, elements);
    ReleaseWritePublishes(g.Fill(g.WriteOffset(), elements), |elements|);
  }

  /** A grant that was never released may be followed by any request size except one the current run can
      serve: the sizes after which acquire, fill and release append whatever is written are exactly the
      others. */
  lemma AbandonedGrantExactly<T>(g: Ring<T>, n: nat, x: T, y: T)
    requires g.Valid() && x != y
    requires g.AcquireWrite(n).1.Some?
    ensures g.StaleWrap(n) <==> exists elements: seq<T> :: |elements| <= n && !WriteAppends(g, n, elements)
  {
    AcquireWriteKeepsQueue(g, n);
    if g.StaleWrap(n) {
      var elements := if g.data[0] == x then [y] else [x];
      assert n <= |g.data| - g.w;
      var g1 := g.Fill(g.w, elements).ReleaseWrite(1);
      assert g1.Contents()[|g1.Contents()| - 1] == g.data[0];
      assert !WriteAppends(g, n, elements);
    } else {
      forall elements: seq<T> | |elements| <= n
        ensures WriteAppends(g, n, elements)
      {
        FillReleaseAppends(g.AcquireWrite(n).0, elements);
        if n == 0 {
          EmptyWriteAppends(g, elements);
        }
      }
    }
  }

  lemma EmptyWriteAppends<T>(g: Ring<T>, elements: seq<T>)
    requires g.Valid() && elements == []
    ensures WriteAppends(g, 0, elements)
  {
    assert g.AcquireWrite(0) == (g, Some(g.w));
    var g' := g.Fill(g.w, elements).ReleaseWrite(0);
    assert g.Fill(g.w, elements).data == g.data;
    if g.writeWrapped {
      assert g'.Contents() == g.data[g.r..g.w] + g.data[..0];
    }
    assert g'.Contents() == g.Contents();
  }

  /** Acquire `n`, write `elements` where the grant says, release them: the queue grew by `elements`. */
  predicate WriteAppends<T(==)>(g: Ring<T>, n: nat, elements: seq<T>)
    requires g.Valid()
  {
    var (g1, offset) := g.AcquireWrite(n);
    && offset.Some?
    && offset.value + |elements| <= |g.data|
    && var g2 := g1.Fill(offset.value, elements).ReleaseWrite(|elements|);
    && g2.Valid()
    && g2.Contents() == g.Contents() + elements
  }

  /** Such a state is reached from an empty ring by plain use: write six of eight cells, read four, drop a grant
      of three that had to wrap; the next single element goes to the end of the array, and what is published is
      the cell at its start. */
  lemma StaleWrapReached<T>(data: seq<T>, elements: seq<T>, x: T)
    requires |data| == 8 && |elements| == 6 && elements[0] != x
    ensures var g1 := Ring(data, 0, 0, 0, false, false).AcquireWrite(6).0.Fill(0, elements).ReleaseWrite(6);
            && g1.Valid() && var g2 := g1.Drain(4).0;
            && g2.Valid() && var g3 := g2.AcquireWrite(3).0;
            && g3.Valid() && g3.StaleWrap(1) && g3.AcquireWrite(1).1 == Some(6)
            && g3.Contents() == elements[4..] && !WriteAppends(g3, 1, [x])
  {
    var g1 := Ring(data, 0, 0, 0, false, false).AcquireWrite(6).0.Fill(0, elements).ReleaseWrite(6);
    assert g1.data[..6] == elements && g1 == Ring(g1.data, 0, 6, 6, false, false);
    var g3 := Ring(g1.data, 4, 6, 6, true, false);
    assert g1.Drain(4).0.AcquireWrite(3).0 == g3;
    assert g1.data[4..6] == elements[4..];
    var g4 := g3.Fill(6, [x]).ReleaseWrite(1);
    assert g4.Contents()[2] == elements[0] && (g3.Contents() + [x])[2] == x;
  }

  /** With a fixed request size an abandoned grant is harmless: the wrap it left is never stale for that size,
      however far the reader advances in the meantime. */
  lemma FixedSizeNeverStale<T>(g: Ring<T>, later: Ring<T>, n: nat)
    requires g.Valid() && !g.StaleWrap(n) && n > 0
    requires later.Valid() && |later.data| == |g.data| && later.w == g.w
    requires later.writeWrapped == g.AcquireWrite(n).0.writeWrapped
    ensures !later.StaleWrap(n)
  {
  }

  // ---------------------------------------------------------------- what a read does to the queue

  /** The region handed to the reader is a prefix of the queue, it is non-empty whenever the queue is, and it
      falls short of the whole queue only by the part that starts again at cell 0. */
  lemma AcquireReadOffersPrefix<T>(g: Ring<T>)
    requires g.Valid()
    ensures var (g', region) := g.AcquireRead();
            && g'.Valid() && g'.Contents() == g.Contents()
            && (g.Contents() == [] <==> region.None? || region.value.length == 0)
            && (g.w < g.r < g.i ==> g.Contents() != [])
            && (region.Some? ==>
                  && region.value.offset + region.value.length <= |g.data|
                  && g'.Readable(region.value.length)
                  && var offered := g.data[region.value.offset..region.value.offset + region.value.length];
                  && offered <= g.Contents()
                  && g.Contents()[|offered|..] ==
                     (if g.w < g.r < g.i then g.data[..g.w] else []))
  {
  }

  /** Releasing `n` elements removes exactly the `n` oldest ones. */
  lemma ReleaseReadDrops<T>(g: Ring<T>, n: nat)
    requires g.Valid() && g.Readable(n)
    ensures n <= |g.Contents()|
    ensures var g' := g.ReleaseRead(n);
            && g'.Valid() && g'.Contents() == g.Contents()[n..]
            && g'.w == g.w && g'.data == g.data && g'.writeWrapped == g.writeWrapped
  {
    var g' := g.ReleaseRead(n);
    if g.readWrapped {
      assert g.Contents() == g.data[..g.w];
    } else if g.r > g.w {
      assert (g.data[g.r..g.i] + g.data[..g.w])[n..] == g.data[g.r + n..g.i] + g.data[..g.w];
    }
  }

  /** Draining moves elements from the front of the queue, at least one if there is one and room for it. */
  lemma DrainTakesFront<T>(g: Ring<T>, room: nat)
    requires g.Valid()
    ensures var (g', taken) := g.Drain(room);
            && g'.Valid() && g'.w == g.w && g'.data == g.data && g'.writeWrapped == g.writeWrapped
            && g.Contents() == taken + g'.Contents() && |taken| <= room
            && (room > 0 && g.Contents() != [] ==> taken != [])
  {
    hide Unread, Ring.Contents, Ring.Readable, Ring.ReleaseRead, Ring.AcquireRead;
    var (ring, region) := g.AcquireRead();
    AcquireReadOffersPrefix(g);
    AcquireReadFrame(g);
    if region.Some? && region.value.length > 0 {
      var n, o, length := Min(room, region.value.length), region.value.offset, region.value.length;
      ReleaseReadDrops(ring, n);
      FrontTaken(g.data, g.Contents(), o, length, n);
    }
  }

  /** It takes less than there is room for only if the queue runs dry or what is left starts again at cell 0. */
  lemma DrainExhausts<T>(g: Ring<T>, room: nat)
    requires g.Valid() && |g.Drain(room).1| < room
    ensures g.Drain(room).0.Valid()
    ensures g.Drain(room).0.Contents() == if g.w < g.r < g.i then g.data[..g.w] else []
  {
  }

  /** Draining, spelled out on the region acquired. */
  lemma DrainIs<T>(g: Ring<T>, room: nat)
    requires g.Valid()
    ensures var (g', region) := g.AcquireRead();
            if region.None? || region.value.length == 0 then g.Drain(room) == (g', [])
            else
              var o, n := region.value.offset, Min(room, region.value.length);
              && o + n <= |g.data| && g'.Readable(n)
              && g.Drain(room) == (g'.ReleaseRead(n), g.data[o..o + n])
  {
  }

  lemma AcquireReadFrame<T>(g: Ring<T>)
    requires g.Valid()
    ensures var g' := g.AcquireRead().0; g'.w == g.w && g'.data == g.data && g'.writeWrapped == g.writeWrapped
  {
  }

  lemma FrontTaken<T>(data: seq<T>, contents: seq<T>, offset: nat, length: nat, n: nat)
    requires n <= length && offset + length <= |data| && data[offset..offset + length] <= contents
    ensures |data[offset..offset + n]| == n <= |contents| && contents == data[offset..offset + n] + contents[n..]
  {
    assert data[offset..offset + n] == data[offset..offset + length][..n];
  }
}
