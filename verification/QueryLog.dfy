/** The query log: messages are cut into pieces, queued with a separator after each message, and drained by
    the writer (src/psql_proxy/query_processor.hpp, src/psql_proxy/query_processor.cpp). */
module QueryLog {
  import opened Common
  import opened Rings
  import opened BipartiteBuffers

  const CHUNK_SZ: nat := 1024
  const BUFF_SZ: nat := 2 * CHUNK_SZ

  /** The pieces a message is queued in. A cut is made one past the chunk size, and the last piece may be as
      long as a chunk; an empty message is one empty piece. */
  function Pieces(message: seq<Byte>): seq<seq<Byte>>
    decreases |message|
  {
    if |message| <= CHUNK_SZ then [message]
    else if |message| == CHUNK_SZ + 1 then [message]
    else [message[..CHUNK_SZ + 1]] + Pieces(message[CHUNK_SZ + 1..])
  }

  /** Everything queued for one message. */
  function Entries(message: seq<Byte>, separator: Byte): seq<seq<Byte>> {
    Pieces(message) + [[separator]]
  }

  lemma {:induction false} PiecesPartition(message: seq<Byte>)
    ensures var pieces := Pieces(message);
            && Flatten(pieces) == message
            && pieces != []
            && (forall k :: 0 <= k < |pieces| ==> |pieces[k]| <= CHUNK_SZ + 1)
            && (forall k :: 0 <= k < |pieces| - 1 ==> |pieces[k]| == CHUNK_SZ + 1)
            && (message != [] ==> pieces[|pieces| - 1] != [])
    decreases |message|
  {
    var pieces := Pieces(message);
    if |message| > CHUNK_SZ + 1 {
      PiecesPartition(message[CHUNK_SZ + 1..]);
      assert pieces[1..] == Pieces(message[CHUNK_SZ + 1..]);
    } else {
      assert pieces[1..] == [];
    }
  }

  /** Queue one piece, whole or not at all. */
  function Store(g: Ring<Byte>, piece: seq<Byte>): (Ring<Byte>, bool)
    requires g.Valid()
  {
    var (g', offset) := g.AcquireWrite(|piece|);
    match offset
    case None => (g', false)
    case Some(at) => (g'.Fill(at, piece).ReleaseWrite(|piece|), true)
  }

  datatype Stored = Stored(ring: Ring<Byte>, accepted: seq<seq<Byte>>)

  /** No grant is left open. */
  predicate NoGrant(g: Ring<Byte>) {
    g.Valid() && !g.writeWrapped
  }

  /** The log's buffer between calls: no grant is left open, and the writer is at the start of the array ahead
      of the reader only because it has filled the array to its end. */
  predicate Closed(g: Ring<Byte>) {
    NoGrant(g) && (g.w == 0 < g.r ==> g.i == |g.data|)
  }

  lemma StoreAppends(g: Ring<Byte>, piece: seq<Byte>)
    requires NoGrant(g)
    ensures var (g', accepted) := Store(g, piece);
            && NoGrant(g') && (Closed(g) ==> Closed(g')) && g'.r == g.r && |g'.data| == |g.data|
            && g'.Contents() == g.Contents() + (if accepted then piece else [])
            && (accepted <==> g.RunFits(g.w, |piece|) || g.RunFits(0, |piece|))
  {
    hide Unread, Ring.UnreadCell;
    GrantExactly(g, |piece|);
    AcquireWriteKeepsQueue(g, |piece|);
    var (g', offset) := g.AcquireWrite(|piece|);
    if offset.Some? {
      FillReleaseAppends(g', piece);
    }
  }

  function StoreAll(g: Ring<Byte>, pieces: seq<seq<Byte>>): (stored: Stored)
    requires NoGrant(g)
    ensures NoGrant(stored.ring) && (Closed(g) ==> Closed(stored.ring)) && |stored.ring.data| == |g.data|
    decreases |pieces|
  {
    if pieces == [] then Stored(g, [])
    else
      StoreAppends(g, pieces[0]);
      var (g', accepted) := Store(g, pieces[0]);
      var rest := StoreAll(g', pieces[1..]);
      rest.(accepted := (if accepted then [pieces[0]] else []) + rest.accepted)
  }

  /** Queueing goes on with the next piece whether or not the first one found room. */
  lemma StoreAllFirst(g: Ring<Byte>, pieces: seq<seq<Byte>>)
    requires NoGrant(g) && pieces != []
    ensures var (g', accepted) := Store(g, pieces[0]);
            && NoGrant(g') && var rest := StoreAll(g', pieces[1..]);
            StoreAll(g, pieces) == rest.(accepted := (if accepted then [pieces[0]] else []) + rest.accepted)
  {
    hide Store;
    StoreAppends(g, pieces[0]);
  }

  /** What a run of queueing adds to the log is an in-order concatenation of whole pieces, leaving out those
      that found no room. */
  lemma {:induction false} StoreAllAppends(g: Ring<Byte>, pieces: seq<seq<Byte>>)
    requires NoGrant(g)
    ensures var stored := StoreAll(g, pieces);
            && NoGrant(stored.ring) && |stored.ring.data| == |g.data|
            && stored.ring.Contents() == g.Contents() + Flatten(stored.accepted)
            && IsSublist(stored.accepted, pieces)
    decreases |pieces|
  {
    hide Store, Unread, Ring.Contents, Ring.UnreadCell, Ring.RunFits;
    if pieces != [] {
      StoreAppends(g, pieces[0]);
      var (g', accepted) := Store(g, pieces[0]);
      StoreAllAppends(g', pieces[1..]);
      var rest := StoreAll(g', pieces[1..]).accepted;
      if accepted {
        assert ([pieces[0]] + rest)[1..] == rest;
        assert g.Contents() + pieces[0] + Flatten(rest) == g.Contents() + (pieces[0] + Flatten(rest));
      } else {
        assert [] + rest == rest;
      }
    } else {
      assert g.Contents() + [] == g.Contents();
    }
  }

  lemma {:induction false} StoreAllConcat(g: Ring<Byte>, a: seq<seq<Byte>>, b: seq<seq<Byte>>)
    requires NoGrant(g)
    ensures var first := StoreAll(g, a);
            var second := StoreAll(first.ring, b);
            StoreAll(g, a + b) == Stored(second.ring, first.accepted + second.accepted)
    decreases |a|
  {
    hide Store;
    if a == [] {
      assert a + b == b;
      assert [] + StoreAll(g, b).accepted == StoreAll(g, b).accepted;
    } else {
      assert (a + b)[1..] == a[1..] + b && (a + b)[0] == a[0];
      StoreAllFirst(g, a);
      StoreAllFirst(g, a + b);
      var (g', accepted) := Store(g, a[0]);
      StoreAllConcat(g', a[1..], b);
      var head, first := if accepted then [a[0]] else [], StoreAll(g', a[1..]);
      assert head + (first.accepted + StoreAll(first.ring, b).accepted)
          == head + first.accepted + StoreAll(first.ring, b).accepted;
    }
  }

  /** An empty log takes a piece of `n` bytes, up to the longest there is, exactly when it is at most a chunk or
      the indices do not stand in the middle of the buffer. */
  lemma EmptyLogTakes(g: Ring<Byte>, piece: seq<Byte>)
    requires Closed(g) && |g.data| == BUFF_SZ && g.Contents() == [] && |piece| <= CHUNK_SZ + 1
    ensures g.r == g.w
    ensures Store(g, piece).1 <==> |piece| <= CHUNK_SZ || (g.w != CHUNK_SZ && g.w != CHUNK_SZ + 1)
  {
  }

  /** So the log can drop a message even when it holds nothing at all: after a first one of 1023 bytes has been
      queued and written out, one of 1025 bytes leaves nothing but its separator. */
  lemma EmptyLogCanDrop(data: seq<Byte>, first: seq<Byte>, second: seq<Byte>, separator: Byte)
    requires |data| == BUFF_SZ && |first| == 1023 && |second| == 1025
    ensures var g0 := Ring(data, 0, 0, 0, false, false);
            && Closed(g0) && var g1 := StoreAll(g0, Entries(first, separator)).ring;
            && g1.Contents() == first + [separator] && var (g2, written) := g1.Drain(1024);
            && written == first + [separator] && Closed(g2) && g2.Contents() == []
            && StoreAll(g2, Entries(second, separator)).accepted == [[separator]]
  {
    hide Store, Unread, Ring.Contents, Ring.Drain;
    var g0 := Ring(data, 0, 0, 0, false, false);
    var g1 := StoreAll(g0, Entries(first, separator)).ring;
    FreshStores(g0, first, separator);
    FullDrain(g1, first + [separator]);
    var g2 := g1.Drain(1024).0;
    OneDropped(g2, second, separator);
  }

  lemma FreshStores(g0: Ring<Byte>, first: seq<Byte>, separator: Byte)
    requires g0 == Ring(g0.data, 0, 0, 0, false, false) && |g0.data| == BUFF_SZ && |first| == 1023
    ensures Closed(g0)
    ensures var g1 := StoreAll(g0, Entries(first, separator)).ring;
            && g1.Contents() == first + [separator]
            && |g1.data| == BUFF_SZ && g1 == Ring(g1.data, 0, 1024, 1024, false, false)
  {
    hide Unread, Ring.Contents, Ring.Fill, StoreAll;
    var half := Store(g0, first).0;
    StoreAppends(g0, first);
    StoreAppends(half, [separator]);
    FillSlices(g0, 0, first);
    FillSlices(half, 1023, [separator]);
    assert Entries(first, separator) == [first] + [[separator]];
    StoreAllConcat(g0, [first], [[separator]]);
    StoreOne(g0, first);
    StoreOne(half, [separator]);
    assert g0.Contents() == [] by {
      EmptyAtStart(g0);
    }
    assert [] + first == first;
  }

  lemma EmptyAtStart(g: Ring<Byte>)
    requires g.Valid() && g.r == g.w
    ensures g.Contents() == []
  {
  }

  lemma FullDrain(g: Ring<Byte>, contents: seq<Byte>)
    requires g == Ring(g.data, 0, 1024, 1024, false, false) && |g.data| == BUFF_SZ && g.Contents() == contents
    ensures var (g', written) := g.Drain(1024);
            written == contents && g' == g.(r := 1024) && Closed(g') && g'.Contents() == []
  {
  }

  /** With the indices in the middle a longest piece is dropped and its separator is not. */
  lemma OneDropped(g: Ring<Byte>, second: seq<Byte>, separator: Byte)
    requires Closed(g) && |g.data| == BUFF_SZ && g.r == g.w == 1024 && |second| == 1025
    ensures StoreAll(g, Entries(second, separator)).accepted == [[separator]]
  {
    hide Store, Unread, Ring.Contents;
    EmptyAtStart(g);
    EmptyLogTakes(g, second);
    RefusedLeaves(g, second);
    EmptyLogTakes(g, [separator]);
    StoreAppends(g, [separator]);
    var last: seq<seq<Byte>> := [[separator]];
    assert Entries(second, separator) == [second] + last;
    assert Entries(second, separator)[1..] == last && last[1..] == [];
    assert StoreAll(Store(g, [separator]).0, []).accepted == [];
    assert StoreAll(g, last).accepted == [[separator]] + [];
    assert StoreAll(g, Entries(second, separator)).accepted == [] + StoreAll(g, last).accepted;
  }

  lemma RefusedLeaves(g: Ring<Byte>, piece: seq<Byte>)
    requires g.Valid() && !Store(g, piece).1
    ensures Store(g, piece).0 == g
  {
  }

  // ---------------------------------------------------------------- the object, used from one thread

  class QueryProcessor {
    const buffer: BipartiteBuffer<Byte>
    const separator: Byte

    ghost predicate Valid()
      reads this, buffer, buffer.data
    {
      Closed(buffer.Value()) && buffer.data.Length == BUFF_SZ
    }

    constructor (separator: Byte)
      ensures Valid() && buffer.Contents() == [] && this.separator == separator
      ensures fresh(buffer) && fresh(buffer.data)
    {
      buffer := new BipartiteBuffer<Byte>(BUFF_SZ);
      this.separator := separator;
    }

    /** Queues the pieces of a message and a separator; each goes in whole or, without a word, not at all. */
    method AddMessage(message: seq<Byte>)
      requires Valid()
      modifies buffer, buffer.data
      ensures Valid()
      ensures var stored := StoreAll(old(buffer.Value()), Entries(message, separator));
              && buffer.Value() == stored.ring
              && buffer.Contents() == old(buffer.Contents()) + Flatten(stored.accepted)
              && IsSublist(stored.accepted, Entries(message, separator))
    {
      hide StoreAll, Store, Unread, Pieces, Ring.Contents;
      ghost var g0 := buffer.Value();
      StoreAllAppends(g0, Entries(message, separator));
      StoreAllConcat(g0, Pieces(message), [[separator]]);
      var pos, end := 0, |message|;
      var more := true;
      assert message[0..] == message;
      while more
        invariant pos <= end && Closed(buffer.Value()) && buffer.data.Length == BUFF_SZ
        invariant StoreAll(g0, Pieces(message)).ring ==
                  if more then StoreAll(buffer.Value(), Pieces(message[pos..])).ring else buffer.Value()
        invariant more ==> pos < end || pos == 0
        decreases end - pos, more
      {
        NextPiece(buffer.Value(), message[pos..]);
        var last := end;
        if CHUNK_SZ < end - pos {
          last := pos + CHUNK_SZ + 1;
        }
        assert message[pos..][..last - pos] == message[pos..last];
        assert message[pos..][last - pos..] == message[last..];
        StorePiece(message[pos..last]);
        pos := last;
        more := pos != end;
      }
      StoreOne(buffer.Value(), [separator]);
      StorePiece([separator]);
    }

    method StorePiece(piece: seq<Byte>)
      requires Valid()
      modifies buffer, buffer.data
      ensures Valid() && buffer.Value() == Store(old(buffer.Value()), piece).0
    {
      hide Unread, Ring.Contents, Ring.UnreadCell;
      StoreAppends(buffer.Value(), piece);
      var wbuf := buffer.WriteAcquire(|piece|);
      if wbuf.Some? {
        buffer.Fill(wbuf.value, piece);
        buffer.WriteRelease(|piece|);
      }
    }

    /** Hands the oldest contiguous bytes to the writer's callback, which reports how many it took: `room` or as
        many as there are. */
    method Process(room: nat) returns (written: seq<Byte>)
      requires Valid()
      modifies buffer, buffer.data
      ensures Valid() && (buffer.Value(), written) == old(buffer.Value()).Drain(room)
      ensures old(buffer.Contents()) == written + buffer.Contents()
    {
      hide Unread, Ring.Contents, Ring.AcquireRead, Ring.ReleaseRead, Ring.Readable, Ring.Drain;
      ghost var before := buffer.Value();
      DrainTakesFront(before, room);
      AcquireReadOffersPrefix(before);
      DrainIs(before, room);
      var region := buffer.ReadAcquire();
      if region.Some? && region.value.length > 0 {
        var n := Min(room, region.value.length);
        written := buffer.data[region.value.offset..region.value.offset + n];
        assert written == before.data[region.value.offset..region.value.offset + n];
        buffer.ReadRelease(n);
        return;
      }
      return [];
    }
  }

  /** One turn of the loop that cuts a message. */
  lemma NextPiece(g: Ring<Byte>, message: seq<Byte>)
    requires Closed(g)
    ensures var n := if CHUNK_SZ < |message| then CHUNK_SZ + 1 else |message|;
            && Closed(Store(g, message[..n]).0)
            && StoreAll(g, Pieces(message)).ring ==
               if n == |message| then Store(g, message[..n]).0
               else StoreAll(Store(g, message[..n]).0, Pieces(message[n..])).ring
  {
    hide Store;
    var n := if CHUNK_SZ < |message| then CHUNK_SZ + 1 else |message|;
    var pieces := Pieces(message);
    StoreAppends(g, message[..n]);
    if n == |message| {
      assert message[..n] == message;
      StoreOne(g, message);
    } else {
      assert pieces[1..] == Pieces(message[n..]);
    }
  }

  lemma StoreOne(g: Ring<Byte>, piece: seq<Byte>)
    requires Closed(g)
    ensures Closed(Store(g, piece).0) && StoreAll(g, [piece]).ring == Store(g, piece).0
  {
    hide Store;
    StoreAppends(g, piece);
    var one: seq<seq<Byte>> := [piece];
    assert one[1..] == [];
  }
}
