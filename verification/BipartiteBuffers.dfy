/** The bipartite buffer as the class the program keeps and updates in place, used from one thread
    (src/io/bipartite_buf.hpp, src/io/bipartite_buf_impl.hpp). */
module BipartiteBuffers {
  import opened Common
  import opened Rings

  class BipartiteBuffer<T(0)> {
    const data: array<T>
    var writeWrapped: bool
    var readWrapped: bool
    var r: nat
    var w: nat
    var i: nat

    /** The fields as a ring value. */
    ghost function Value(): Ring<T>
      reads this, data
    {
      Ring(data[..], r, w, i, writeWrapped, readWrapped)
    }

    ghost predicate Valid()
      reads this, data
    {
      Value().Valid()
    }

    ghost function Contents(): seq<T>
      requires Valid()
      reads this, data
    {
      Value().Contents()
    }

    constructor (size: nat)
      requires size > 2
      ensures Valid() && fresh(data) && data.Length == size
      ensures Contents() == [] && r == w == i == 0 && !writeWrapped && !readWrapped
    {
      data := new T[size];
      writeWrapped, readWrapped := false, false;
      r, w, i := 0, 0, 0;
    }

    /** Null exactly when neither the run at the write index nor the run at cell 0 has room; the queue keeps
        its contents. */
    method WriteAcquire(freeRequired: nat) returns (offset: Option<nat>)
      requires Valid()
      modifies this`writeWrapped
      ensures Valid() && Contents() == old(Contents())
      ensures (Value(), offset) == old(Value()).AcquireWrite(freeRequired)
      ensures offset.None? <==> !Value().RunFits(w, freeRequired) && !Value().RunFits(0, freeRequired)
      ensures offset.Some? ==>
                offset.value == if Value().RunFits(w, freeRequired) then w else 0
      ensures offset.Some? && (!old(writeWrapped) || (freeRequired > 0 && !old(Value().StaleWrap(freeRequired)))) ==>
                offset.value == Value().WriteOffset() && Value().Writable(freeRequired)
    {
      hide Unread, Ring.UnreadCell;
      GrantExactly(Value(), freeRequired);
      AcquireWriteKeepsQueue(Value(), freeRequired);
      var free := if r > w then r - w - 1 else data.Length - (w - r) - 1;
      var linearSpace := data.Length - w;
      var linearFree := Min(free, linearSpace);
      if freeRequired <= linearFree {
        return Some(w);
      }
      if freeRequired <= free - linearFree {
        writeWrapped := true;
        return Some(0);
      }
      return None;
    }

    /** The producer stores elements into cells it was granted; the unread elements stay as they are. */
    method Fill(offset: nat, elements: seq<T>)
      requires Valid() && offset == Value().WriteOffset() && Value().Writable(|elements|)
      modifies data
      ensures offset + |elements| <= data.Length
      ensures Value() == old(Value()).Fill(offset, elements)
    {
      hide Ring.Valid, Ring.Contents, Ring.Writable, Ring.ReleaseWrite;
      ReleaseWritePublishes(Value(), |elements|);
      ghost var filled := Value().Fill(offset, elements).data;
      forall k | 0 <= k < |elements| {
        data[offset + k] := elements[k];
      }
      assert data[..] == filled;
    }

    /** Publishes the first `written` granted cells. */
    method WriteRelease(written: nat)
      requires Valid() && Value().Writable(written)
      modifies this`writeWrapped, this`w, this`i
      ensures Valid() && Value() == old(Value()).ReleaseWrite(written)
      ensures Contents() == old(Contents())
                            + old(Value().data[Value().WriteOffset()..Value().WriteOffset() + written])
    {
      hide Unread, LinearFree;
      ReleaseWritePublishes(Value(), written);
      var w1 := w;
      var i1;
      if writeWrapped {
        writeWrapped := false;
        i1 := w1;
        w1 := 0;
      } else {
        i1 := i;
      }
      w1 := w1 + written;
      if w1 > i1 {
        i1 := w1;
      }
      if w1 == data.Length {
        w1 := 0;
      }
      i := i1;
      w := w1;
    }

    /** Offers the longest contiguous run of the oldest unread elements. */
    method ReadAcquire() returns (region: Option<Region>)
      requires Valid()
      modifies this`readWrapped
      ensures Valid() && Contents() == old(Contents())
      ensures (Value(), region) == old(Value()).AcquireRead()
      ensures Contents() != [] ==> region.Some? && region.value.length > 0
      ensures region.Some? ==>
                && region.value.offset + region.value.length <= data.Length
                && Value().Readable(region.value.length)
                && Value().data[region.value.offset..region.value.offset + region.value.length] <= Contents()
    {
      hide Unread;
      AcquireReadOffersPrefix(Value());
      if r == w {
        return None;
      }
      if r < w {
        return Some(Region(r, w - r));
      }
      if r == i {
        readWrapped := true;
        return Some(Region(0, w));
      }
      return Some(Region(r, i - r));
    }

    /** Removes the `read` oldest elements. */
    method ReadRelease(read: nat)
      requires Valid() && Value().Readable(read)
      modifies this`readWrapped, this`r
      ensures Valid() && Value() == old(Value()).ReleaseRead(read)
      ensures read <= |old(Contents())| && Contents() == old(Contents())[read..]
    {
      hide Unread;
      ReleaseReadDrops(Value(), read);
      var r1;
      if readWrapped {
        readWrapped := false;
        r1 := 0;
      } else {
        r1 := r;
      }
      r1 := r1 + read;
      if r1 == data.Length {
        r1 := 0;
      }
      r := r1;
    }
  }
}
