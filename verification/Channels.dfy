/** The byte pipe between two I/O objects (src/io/channel.hpp, src/io/channel.cpp): its two event handlers,
    and what any sequence of events does to the bytes. */
module Channels {
  import opened Common
  import opened Rings
  import opened BipartiteBuffers

  const CHUNK_SZ: nat := 64 * 1024 - 1
  const BUFF_SZ: nat := 2 * CHUNK_SZ

  /** The flags of an event: something to read, room to write, an error. */
  datatype Mask = Mask(input: bool, output: bool, error: bool)

  /** What an output object reports: an error, or how many bytes it took of those offered. */
  datatype WriteResult = WriteError | WriteOk(room: nat)

  /** Events a handler puts on the bus, all for the descriptor being handled. */
  datatype Queued = QueuedError | QueuedOut

  /** The channel's buffer together with the history of the pipe: what was read from the left object, what the
      right one accepted, and what each tap was shown. */
  datatype Chan = Chan(ring: Ring<Byte>, received: seq<Byte>, delivered: seq<Byte>, shown: seq<seq<Byte>>)

  datatype Outcome = Outcome(chan: Chan, queued: seq<Queued>, threw: bool)

  /** The bytes a read stores: at most a chunk of what the left object has to offer. */
  function Taken(bytes: seq<Byte>): seq<Byte> {
    bytes[..Min(|bytes|, CHUNK_SZ)]
  }

  /** In numbers: 65535 bytes at a time. */
  lemma ChunkBytes(bytes: seq<Byte>)
    ensures Taken(bytes) == if |bytes| <= 65535 then bytes else bytes[..65535]
    ensures BUFF_SZ == 131070
  {
  }

  /** Taps are called in order; if the one numbered `thrower` throws, those after it are not called. */
  function ShowTo(shown: seq<seq<Byte>>, bytes: seq<Byte>, thrower: nat): seq<seq<Byte>> {
    seq(|shown|, j requires 0 <= j < |shown| => if j <= thrower then shown[j] + bytes else shown[j])
  }

  /** An acquired chunk is filled from the left object, released, and shown to the taps. */
  function ReadSide(c: Chan, read: ReadResult, thrower: nat): Outcome
    requires c.ring.Valid()
  {
    var (ring, offset) := c.ring.AcquireWrite(CHUNK_SZ);
    match offset
    case None => Outcome(c.(ring := ring), [], false)
    case Some(at) =>
      match read
      case ReadError => Outcome(c.(ring := ring), [QueuedError], thrower < |c.shown|)
      case ReadOk(bytes) =>
        var data := Taken(bytes);
        Outcome(c.(ring := ring.Fill(at, data).ReleaseWrite(|data|),
                   received := c.received + data,
                   shown := ShowTo(c.shown, data, thrower)),
                [], thrower < |c.shown|)
  }

  /** The oldest contiguous bytes are offered to the right object; a partial write asks for another event. */
  function WriteSide(c: Chan, write: WriteResult): Outcome
    requires c.ring.Valid()
  {
    match write
    case WriteError => Outcome(c.(ring := c.ring.AcquireRead().0), [], false)
    case WriteOk(room) =>
      var region := c.ring.AcquireRead().1;
      var (ring, taken) := c.ring.Drain(room);
      Outcome(c.(ring := ring, delivered := c.delivered + taken),
              if region.Some? && room < region.value.length then [QueuedOut] else [], false)
  }

  function HandleLeft(c: Chan, mask: Mask, read: ReadResult, thrower: nat, write: WriteResult): Outcome
    requires Ok(c)
  {
    if !mask.input then Outcome(c, [], false)
    else
      ReadSideKeeps(c, read, thrower);
      var first := ReadSide(c, read, thrower);
      if first.threw then first
      else
        var second := WriteSide(first.chan, write);
        second.(queued := first.queued + second.queued)
  }

  function HandleRight(c: Chan, mask: Mask, write: WriteResult): Outcome
    requires Ok(c)
  {
    if mask.output then WriteSide(c, write) else Outcome(c, [], false)
  }

  // ---------------------------------------------------------------- what every event keeps

  /** Bytes delivered, followed by the bytes still buffered, are the bytes received. */
  predicate Conserved(c: Chan)
    requires c.ring.Valid()
  {
    c.received == c.delivered + c.ring.Contents()
  }

  /** A wrap pending from an abandoned grant can only be for a run too short for a chunk; and a write index
      sent back to the start by a wrap left the reader more than a chunk to go. */
  predicate Roomy(g: Ring<Byte>) {
    && |g.data| == BUFF_SZ
    && (g.writeWrapped ==> g.w > CHUNK_SZ)
    && (g.w == 0 < g.r ==> g.r > CHUNK_SZ || g.i == BUFF_SZ)
  }

  predicate Ok(c: Chan) {
    c.ring.Valid() && Roomy(c.ring) && Conserved(c)
  }

  lemma ReadSideKeeps(c: Chan, read: ReadResult, thrower: nat)
    requires Ok(c)
    ensures Ok(ReadSide(c, read, thrower).chan)
  {
    hide Unread, Ring.UnreadCell, Ring.RunFits, Ring.Contents;
    var (ring, offset) := c.ring.AcquireWrite(CHUNK_SZ);
    AcquireWriteKeepsQueue(c.ring, CHUNK_SZ);
    if offset.Some? && read.ReadOk? {
      FillReleaseAppends(ring, Taken(read.bytes));
    }
  }

  lemma WriteSideKeeps(c: Chan, write: WriteResult)
    requires Ok(c)
    ensures Ok(WriteSide(c, write).chan)
  {
    hide Unread, Roomy, Ring.Contents, Ring.AcquireRead, Ring.Drain;
    ReadersRoomy(c.ring);
    match write
    case WriteError => AcquireReadOffersPrefix(c.ring);
    case WriteOk(room) =>
      DrainTakesFront(c.ring, room);
      DrainRoomy(c.ring, room);
  }

  lemma ReadersRoomy(g: Ring<Byte>)
    requires g.Valid() && Roomy(g)
    ensures Roomy(g.AcquireRead().0)
  {
  }

  lemma DrainRoomy(g: Ring<Byte>, room: nat)
    requires g.Valid() && Roomy(g)
    ensures Roomy(g.Drain(room).0)
  {
  }

  // ---------------------------------------------------------------- any sequence of events

  datatype Event =
    | Left(mask: Mask, read: ReadResult, thrower: nat, write: WriteResult)
    | Right(mask: Mask, write: WriteResult)

  function Handle(c: Chan, e: Event): Outcome
    requires Ok(c)
  {
    match e
    case Left(mask, read, thrower, write) => HandleLeft(c, mask, read, thrower, write)
    case Right(mask, write) => HandleRight(c, mask, write)
  }

  lemma HandleKeeps(c: Chan, e: Event)
    requires Ok(c)
    ensures Ok(Handle(c, e).chan)
  {
    hide Roomy, Conserved, ReadSide, WriteSide;
    match e
    case Left(mask, read, thrower, write) =>
      ReadSideKeeps(c, read, thrower);
      WriteSideKeeps(ReadSide(c, read, thrower).chan, write);
    case Right(mask, write) =>
      WriteSideKeeps(c, write);
  }

  ghost function RunAll(c: Chan, events: seq<Event>): (end: Chan)
    requires Ok(c)
    ensures Ok(end)
    decreases |events|
  {
    if events == [] then c
    else
      HandleKeeps(c, events[0]);
      RunAll(Handle(c, events[0]).chan, events[1..])
  }

  /** A channel as it is made: indices at 0, whatever the array holds, and nothing transferred yet. */
  predicate Made(c: Chan) {
    && |c.ring.data| == BUFF_SZ && c.ring == Ring(c.ring.data, 0, 0, 0, false, false)
    && c.received == [] && c.delivered == [] && forall j :: 0 <= j < |c.shown| ==> c.shown[j] == []
  }

  lemma MadeOk(c: Chan)
    requires Made(c)
    ensures Ok(c)
  {
  }

  /** Over any sequence of events, with reads and writes that are partial, empty or failing, and taps that
      throw, the bytes the right object accepted followed by the bytes still buffered are the bytes read. */
  lemma BytesConserved(c: Chan, events: seq<Event>)
    requires Made(c)
    ensures Ok(c) && RunAll(c, events).ring.Valid()
    ensures var end := RunAll(c, events);
            end.received == end.delivered + end.ring.Contents() && |end.ring.Contents()| < BUFF_SZ
  {
    MadeOk(c);
  }

  /** In a run where only taps from number `j` on ever throw, tap `j` is shown exactly the bytes received. */
  lemma {:induction false} TapSeesStream(c: Chan, events: seq<Event>, j: nat)
    requires Ok(c) && j < |c.shown| && c.shown[j] == c.received
    requires forall k :: 0 <= k < |events| && events[k].Left? ==> events[k].thrower >= j
    ensures j < |RunAll(c, events).shown| && RunAll(c, events).shown[j] == RunAll(c, events).received
    decreases |events|
  {
    if events != [] {
      HandleKeeps(c, events[0]);
      TapSeesEvent(c, events[0], j);
      TapSeesStream(Handle(c, events[0]).chan, events[1..], j);
    }
  }

  lemma TapSeesEvent(c: Chan, e: Event, j: nat)
    requires Ok(c) && j < |c.shown| && c.shown[j] == c.received
    requires e.Left? ==> e.thrower >= j
    ensures var c' := Handle(c, e).chan; j < |c'.shown| && c'.shown[j] == c'.received
  {
    hide Ok;
  }

  lemma SameTaps(c: Chan, e: Event)
    requires Ok(c)
    ensures |Handle(c, e).chan.shown| == |c.shown|
  {
    hide Ok;
  }

  /** A read is attempted exactly when a chunk fits at the write index or at the start; then exactly the bytes
      read join the stream, and otherwise nothing changes. */
  lemma ReadExactly(c: Chan, bytes: seq<Byte>, thrower: nat)
    requires Ok(c)
    ensures var c' := ReadSide(c, ReadOk(bytes), thrower).chan;
            && Ok(c') && c'.delivered == c.delivered
            && if c.ring.RunFits(c.ring.w, CHUNK_SZ) || c.ring.RunFits(0, CHUNK_SZ) then
                 && c'.received == c.received + Taken(bytes)
                 && c'.ring.Contents() == c.ring.Contents() + Taken(bytes)
               else c'.ring.Contents() == c.ring.Contents() && c'.received == c.received && c'.shown == c.shown
  {
    hide Unread, Ring.UnreadCell, Roomy, Ring.ReleaseWrite, Ring.Fill;
    var (ring, offset) := c.ring.AcquireWrite(CHUNK_SZ);
    ReadSideKeeps(c, ReadOk(bytes), thrower);
    GrantExactly(c.ring, CHUNK_SZ);
    AcquireWriteKeepsQueue(c.ring, CHUNK_SZ);
    if offset.Some? {
      var c' := ReadSide(c, ReadOk(bytes), thrower).chan;
      assert c.delivered + c'.ring.Contents() == c.delivered + (c.ring.Contents() + Taken(bytes));
      SameTail(c.delivered, c'.ring.Contents(), c.ring.Contents() + Taken(bytes));
    }
  }

  lemma SameTail(c: seq<Byte>, a: seq<Byte>, b: seq<Byte>)
    requires c + a == c + b
    ensures a == b
  {
    assert a == (c + a)[|c|..];
    assert b == (c + b)[|c|..];
  }

  /** A write moves bytes from the front of the buffer to the right object: as many as it has room for, short
      of that only if the buffer runs dry or what is left starts again at cell 0. */
  lemma WriteExactly(c: Chan, room: nat)
    requires Ok(c)
    ensures var c' := WriteSide(c, WriteOk(room)).chan;
            && Ok(c') && c'.received == c.received && c'.shown == c.shown
            && c.delivered <= c'.delivered
            && var sent := c'.delivered[|c.delivered|..];
            && c.ring.Contents() == sent + c'.ring.Contents() && |sent| <= room
            && (room > 0 && c.ring.Contents() != [] ==> sent != [])
            && (|sent| < room ==>
                  c'.ring.Contents() == if c.ring.w < c.ring.r < c.ring.i then c.ring.data[..c.ring.w] else [])
  {
    hide Unread, Roomy, Ring.Contents, Ring.AcquireRead, Ring.Drain;
    WriteSideKeeps(c, WriteOk(room));
    DrainTakesFront(c.ring, room);
    if |c.ring.Drain(room).1| < room {
      DrainExhausts(c.ring, room);
    }
    assert WriteSide(c, WriteOk(room)).chan.delivered[|c.delivered|..] == c.ring.Drain(room).1;
  }

  /** How many of the oldest bytes lie in one piece. */
  function Front(g: Ring<Byte>): nat
    requires g.Valid()
  {
    if g.w < g.r < g.i then g.i - g.r else |g.Contents()|
  }

  /** Another event is queued exactly when the right object took fewer bytes than lie in one piece at the front;
      without one, only bytes that start again at cell 0 are left. */
  lemma RetryExactly(c: Chan, room: nat)
    requires Ok(c)
    ensures var after := WriteSide(c, WriteOk(room));
            && after.chan.ring.Valid() && |c.delivered| <= |after.chan.delivered|
            && (QueuedOut in after.queued <==> |after.chan.delivered| - |c.delivered| < Front(c.ring))
            && (QueuedOut !in after.queued ==>
                  after.chan.ring.Contents() == if c.ring.w < c.ring.r < c.ring.i then c.ring.data[..c.ring.w] else [])
  {
    hide Unread, Ring.Contents, Ring.Valid, Ring.AcquireRead, Ring.Drain, Roomy, Conserved, Front;
    OkValid(c);
    DrainTakesFront(c.ring, room);
    DrainLength(c.ring, room);
    RegionIsFront(c.ring);
    if Front(c.ring) <= room {
      DrainWhole(c.ring, room);
    }
  }

  lemma OkValid(c: Chan)
    requires Ok(c)
    ensures c.ring.Valid()
  {
  }

  lemma RegionIsFront(g: Ring<Byte>)
    requires g.Valid()
    ensures var region := g.AcquireRead().1; Front(g) == if region.None? then 0 else region.value.length
  {
  }

  lemma DrainLength(g: Ring<Byte>, room: nat)
    requires g.Valid()
    ensures |g.Drain(room).1| == Min(room, Front(g))
  {
    hide Ring.AcquireRead, Ring.Drain, Ring.Contents, Front;
    AcquireReadOffersPrefix(g);
    RegionIsFront(g);
    DrainIs(g, room);
  }

  lemma DrainWhole(g: Ring<Byte>, room: nat)
    requires g.Valid() && Front(g) <= room
    ensures g.Drain(room).0.Valid()
    ensures g.Drain(room).0.Contents() == if g.w < g.r < g.i then g.data[..g.w] else []
  {
  }

  /** A channel with no unread bytes can always take a chunk, whatever grants were abandoned or released empty
      before. */
  lemma EmptyAcceptsChunk(c: Chan, events: seq<Event>)
    requires Made(c)
    ensures Ok(c) && RunAll(c, events).ring.Valid()
    ensures RunAll(c, events).ring.Contents() == [] ==>
              RunAll(c, events).ring.AcquireWrite(CHUNK_SZ).1.Some?
  {
    MadeOk(c);
    if RunAll(c, events).ring.Contents() == [] {
      EmptyHasRoom(RunAll(c, events).ring);
    }
  }

  lemma EmptyHasRoom(g: Ring<Byte>)
    requires g.Valid() && Roomy(g) && g.Contents() == []
    ensures g.AcquireWrite(CHUNK_SZ).1.Some?
  {
  }

  // ---------------------------------------------------------------- dropped grants and regions

  /** The producer may have dropped a grant of a chunk and would be given it again. */
  predicate GrantOpen(g: Ring<Byte>) {
    && g.Valid() && Roomy(g)
    && var grant := WriteGrant(|g.data|, g.w, g.r, CHUNK_SZ);
    && grant.Some? && g.writeWrapped == grant.value.wrapped
  }

  lemma FailedReadOpens(c: Chan, thrower: nat)
    requires Ok(c) && c.ring.AcquireWrite(CHUNK_SZ).1.Some?
    ensures var failed := ReadSide(c, ReadError, thrower).chan;
            && GrantOpen(failed.ring) && failed.ring.AcquireWrite(CHUNK_SZ).1 == c.ring.AcquireWrite(CHUNK_SZ).1
            && (GrantOpen(c.ring) ==> failed == c)
  {
    ReadSideKeeps(c, ReadError, thrower);
  }

  /** What the reader does, its wrap included, leaves an open grant where it is. */
  lemma WriteSideLeavesGrant(c: Chan, write: WriteResult)
    requires Ok(c) && GrantOpen(c.ring)
    ensures var g := WriteSide(c, write).chan.ring;
            GrantOpen(g) && g.AcquireWrite(CHUNK_SZ).1 == c.ring.AcquireWrite(CHUNK_SZ).1
  {
    hide Unread, Ring.Contents, Ring.Drain, Ring.AcquireRead, Conserved, WriteGrant;
    WriteSideKeeps(c, write);
    var g, r := c.ring, WriteSide(c, write).chan.ring.r;
    ReaderAdvances(c, write);
    GrantOutlasts(|g.data|, g.w, g.r, r, g.writeWrapped);
  }

  /** The reader moves towards the writer, going through the start of the array if the writer has. */
  lemma ReaderAdvances(c: Chan, write: WriteResult)
    requires c.ring.Valid()
    ensures var g, g' := c.ring, WriteSide(c, write).chan.ring;
            && |g'.data| == |g.data| && g'.w == g.w && g'.writeWrapped == g.writeWrapped
            && g'.r < |g.data| && (if g.r <= g.w then g.r <= g'.r <= g.w else g.r <= g'.r || g'.r <= g.w)
  {
  }

  lemma GrantOutlasts(size: nat, w: nat, r: nat, r': nat, wrapped: bool)
    requires w < size == BUFF_SZ && r < size && r' < size
    requires if r <= w then r <= r' <= w else r <= r' || r' <= w
    requires var grant := WriteGrant(size, w, r, CHUNK_SZ); grant.Some? && grant.value.wrapped == wrapped
    requires wrapped ==> CHUNK_SZ < w && r <= w
    ensures WriteGrant(size, w, r', CHUNK_SZ) == WriteGrant(size, w, r, CHUNK_SZ)
  {
  }

  /** A grant dropped after a failed read is harmless: as long as no read succeeds, whatever the writes do in
      the meantime, the next acquire of a chunk is granted the same place, wrapped or not. */
  lemma AbandonedReadRepeats(c: Chan, thrower: nat, events: seq<Event>)
    requires Ok(c) && c.ring.AcquireWrite(CHUNK_SZ).1.Some?
    requires forall k :: 0 <= k < |events| && events[k].Left? ==> events[k].read.ReadError?
    ensures var failed := ReadSide(c, ReadError, thrower).chan;
            && Ok(failed) && failed.ring.Contents() == c.ring.Contents()
            && RunAll(failed, events).ring.Valid()
            && RunAll(failed, events).ring.AcquireWrite(CHUNK_SZ).1 == c.ring.AcquireWrite(CHUNK_SZ).1
  {
    hide Unread, Ring.UnreadCell, Ring.RunFits, Ring.Contents, Roomy;
    ReadSideKeeps(c, ReadError, thrower);
    AcquireWriteKeepsQueue(c.ring, CHUNK_SZ);
    FailedReadOpens(c, thrower);
    RunLeavesGrant(ReadSide(c, ReadError, thrower).chan, events);
  }

  lemma {:induction false} RunLeavesGrant(c: Chan, events: seq<Event>)
    requires Ok(c) && GrantOpen(c.ring)
    requires forall k :: 0 <= k < |events| && events[k].Left? ==> events[k].read.ReadError?
    ensures var g := RunAll(c, events).ring;
            GrantOpen(g) && g.AcquireWrite(CHUNK_SZ).1 == c.ring.AcquireWrite(CHUNK_SZ).1
    decreases |events|
  {
    hide Ok, GrantOpen, Ring.AcquireWrite, ReadSide, WriteSide;
    if events != [] {
      EventLeavesGrant(c, events[0]);
      HandleKeeps(c, events[0]);
      RunLeavesGrant(Handle(c, events[0]).chan, events[1..]);
    }
  }

  lemma EventLeavesGrant(c: Chan, e: Event)
    requires Ok(c) && GrantOpen(c.ring) && (e.Left? ==> e.read.ReadError?)
    ensures var g := Handle(c, e).chan.ring;
            GrantOpen(g) && g.AcquireWrite(CHUNK_SZ).1 == c.ring.AcquireWrite(CHUNK_SZ).1
  {
    hide Roomy, Conserved, ReadSide, WriteSide, Ring.Valid;
    match e
    case Left(_, _, thrower, write) =>
      OpenHasGrant(c.ring);
      FailedReadOpens(c, thrower);
      WriteSideLeavesGrant(c, write);
    case Right(_, write) =>
      WriteSideLeavesGrant(c, write);
  }

  lemma OpenHasGrant(g: Ring<Byte>)
    requires GrantOpen(g)
    ensures g.AcquireWrite(CHUNK_SZ).1.Some?
  {
  }

  /** `later` is offered from the same cell as `g`, and no less. */
  predicate OffersAgain(g: Ring<Byte>, later: Ring<Byte>)
    requires g.Valid() && later.Valid()
  {
    var region, again := g.AcquireRead().1, later.AcquireRead().1;
    region.Some? ==> again.Some? && again.value.offset == region.value.offset
                     && again.value.length >= region.value.length
  }

  /** A region dropped after a failed write is harmless too: as long as no write succeeds, whatever the reads
      do, the next acquire is offered the same bytes and perhaps more behind them. */
  lemma AbandonedWriteRepeats(c: Chan, events: seq<Event>)
    requires Ok(c)
    requires forall k :: 0 <= k < |events| ==> events[k].write.WriteError?
    ensures var failed := WriteSide(c, WriteError).chan;
            && Ok(failed) && failed.ring.Contents() == c.ring.Contents()
            && var end := RunAll(failed, events);
            end.ring.Valid() && OffersAgain(c.ring, end.ring) && c.ring.Contents() <= end.ring.Contents()
  {
    hide Unread, Ring.Contents, Roomy, OffersAgain;
    WriteSideKeeps(c, WriteError);
    AcquireReadOffersPrefix(c.ring);
    FailedWriteOffers(c);
    var failed := WriteSide(c, WriteError).chan;
    RunOffersAgain(failed, events);
    OffersTransitive(c.ring, failed.ring, RunAll(failed, events).ring);
  }

  lemma {:induction false} RunOffersAgain(c: Chan, events: seq<Event>)
    requires Ok(c)
    requires forall k :: 0 <= k < |events| ==> events[k].write.WriteError?
    ensures var end := RunAll(c, events);
            end.ring.Valid() && OffersAgain(c.ring, end.ring) && c.ring.Contents() <= end.ring.Contents()
    decreases |events|
  {
    hide OffersAgain, Handle, Ring.Contents, Roomy, Ring.Valid;
    if events == [] {
      OffersSame(c.ring);
    } else {
      var c' := Handle(c, events[0]).chan;
      HandleKeeps(c, events[0]);
      EventOffersAgain(c, events[0]);
      RunOffersAgain(c', events[1..]);
      OffersTransitive(c.ring, c'.ring, RunAll(c', events[1..]).ring);
    }
  }

  lemma EventOffersAgain(c: Chan, e: Event)
    requires Ok(c) && e.write.WriteError?
    ensures var c' := Handle(c, e).chan;
            c'.ring.Valid() && OffersAgain(c.ring, c'.ring) && c.ring.Contents() <= c'.ring.Contents()
  {
    hide Ok, OffersAgain, ReadSide, Ring.AcquireRead, Ring.Contents, Ring.Valid;
    HandleKeeps(c, e);
    OkValid(c);
    OffersSame(c.ring);
    match e
    case Left(mask, read, thrower, write) =>
      if mask.input {
        ReadOffersAgain(c, read, thrower);
        var first := ReadSide(c, read, thrower).chan;
        ReadSideKeeps(c, read, thrower);
        OkValid(first);
        FailedWriteOffers(first);
        OffersTransitive(c.ring, first.ring, first.ring.AcquireRead().0);
      }
    case Right(mask, write) =>
      FailedWriteOffers(c);
  }

  lemma OffersSame(g: Ring<Byte>)
    requires g.Valid()
    ensures OffersAgain(g, g) && g.Contents() <= g.Contents()
  {
  }

  lemma OffersTransitive(a: Ring<Byte>, b: Ring<Byte>, c: Ring<Byte>)
    requires a.Valid() && b.Valid() && c.Valid() && OffersAgain(a, b) && OffersAgain(b, c)
    requires a.Contents() <= b.Contents() <= c.Contents()
    ensures OffersAgain(a, c) && a.Contents() <= c.Contents()
  {
    hide Ring.AcquireRead, Ring.Contents, Ring.Valid;
  }

  lemma FailedWriteOffers(c: Chan)
    requires c.ring.Valid()
    ensures var g := c.ring.AcquireRead().0;
            g.Valid() && OffersAgain(c.ring, g) && c.ring.Contents() <= g.Contents()
    ensures WriteSide(c, WriteError).chan.ring == c.ring.AcquireRead().0
  {
  }

  lemma ReadOffersAgain(c: Chan, read: ReadResult, thrower: nat)
    requires Ok(c)
    ensures var g := ReadSide(c, read, thrower).chan.ring;
            g.Valid() && OffersAgain(c.ring, g) && c.ring.Contents() <= g.Contents()
  {
    hide Unread, Ring.UnreadCell, Ring.RunFits, Ring.Contents, Roomy, Conserved, OffersAgain;
    var (ring, offset) := c.ring.AcquireWrite(CHUNK_SZ);
    ReadSideKeeps(c, read, thrower);
    AcquireWriteKeepsQueue(c.ring, CHUNK_SZ);
    AcquireOffers(c.ring);
    if offset.Some? && read.ReadOk? {
      FreshOrRepeated(c);
      var data := Taken(read.bytes);
      FillReleaseAppends(ring, data);
      ReleaseOffers(ring, data);
      OffersTransitive(c.ring, ring, ring.Fill(offset.value, data).ReleaseWrite(|data|));
    }
  }

  lemma AcquireOffers(g: Ring<Byte>)
    requires g.Valid() && g.AcquireWrite(CHUNK_SZ).0.Valid()
    ensures OffersAgain(g, g.AcquireWrite(CHUNK_SZ).0)
  {
  }

  /** A channel's grant is always where the next release publishes from. */
  lemma FreshOrRepeated(c: Chan)
    requires Ok(c) && c.ring.AcquireWrite(CHUNK_SZ).1.Some?
    ensures var (ring, offset) := c.ring.AcquireWrite(CHUNK_SZ);
            ring.Valid() && offset == Some(ring.WriteOffset()) && ring.Writable(CHUNK_SZ)
  {
    hide Unread, Ring.UnreadCell, Ring.RunFits, Ring.Contents;
    AcquireWriteKeepsQueue(c.ring, CHUNK_SZ);
  }

  lemma ReleaseOffers(g: Ring<Byte>, elements: seq<Byte>)
    requires g.Valid() && g.Writable(|elements|) && g.WriteOffset() + |elements| <= |g.data|
    requires g.Fill(g.WriteOffset(), elements).ReleaseWrite(|elements|).Valid()
    ensures OffersAgain(g, g.Fill(g.WriteOffset(), elements).ReleaseWrite(|elements|))
  {
  }

  /** A channel with nothing buffered passes what it reads straight on to a right object with room for it. */
  lemma PassesStraightThrough(c: Chan, mask: Mask, bytes: seq<Byte>, thrower: nat, room: nat)
    requires Ok(c) && c.ring.Contents() == [] && mask.input && thrower >= |c.shown| && room >= CHUNK_SZ
    ensures var after := HandleLeft(c, mask, ReadOk(bytes), thrower, WriteOk(room));
            && after.chan.received == c.received + Taken(bytes) && after.chan.delivered == c.delivered + Taken(bytes)
            && after.chan.ring.Valid() && after.chan.ring.Contents() == [] && after.queued == [] && !after.threw
  {
    hide Unread, Roomy, Ring.UnreadCell, Ring.RunFits, Ring.Drain, Ring.Fill, Ring.ReleaseWrite;
    EmptyHasRoom(c.ring);
    GrantExactly(c.ring, CHUNK_SZ);
    ReadExactly(c, bytes, thrower);
    var first := ReadSide(c, ReadOk(bytes), thrower).chan;
    EmptyReadsContiguous(c, bytes, thrower);
    DrainTakesFront(first.ring, room);
    WholeRegion(first.ring, room);
  }

  /** What an empty channel reads lies in one piece. */
  lemma EmptyReadsContiguous(c: Chan, bytes: seq<Byte>, thrower: nat)
    requires Ok(c) && c.ring.Contents() == []
    ensures var g := ReadSide(c, ReadOk(bytes), thrower).chan.ring; g.Valid() && (0 < g.w < g.r ==> g.r == g.i)
  {
    ReadSideKeeps(c, ReadOk(bytes), thrower);
  }

  lemma WholeRegion(g: Ring<Byte>, room: nat)
    requires g.Valid() && (0 < g.w < g.r ==> g.r == g.i) && room >= |g.Contents()|
    ensures g.Drain(room).0.Valid() && g.Drain(room).0.Contents() == [] && g.Drain(room).1 == g.Contents()
    ensures g.AcquireRead().1.Some? ==> g.AcquireRead().1.value.length <= room
  {
    hide Ring.Contents, Ring.AcquireRead, Ring.Drain, Front;
    FrontIsAll(g);
    RegionIsFront(g);
    DrainTakesFront(g, room);
    DrainWhole(g, room);
  }

  lemma FrontIsAll(g: Ring<Byte>)
    requires g.Valid() && (0 < g.w < g.r ==> g.r == g.i)
    ensures Front(g) == |g.Contents()|
  {
  }

  /** An event does nothing without its flag; a failed read, and nothing else, puts an error event on the bus. */
  lemma EventsActOnFlags(c: Chan, e: Event)
    requires Ok(c)
    ensures (if e.Right? then !e.mask.output else !e.mask.input) ==> Handle(c, e) == Outcome(c, [], false)
    ensures QueuedError in Handle(c, e).queued <==>
              && e.Left? && e.mask.input && e.read.ReadError?
              && (c.ring.RunFits(c.ring.w, CHUNK_SZ) || c.ring.RunFits(0, CHUNK_SZ))
  {
    hide Unread, Ring.UnreadCell, Roomy;
    GrantExactly(c.ring, CHUNK_SZ);
  }

  /** A right event with its flag moves bytes from the front of the buffer to the right object, as many as lie in
      one piece and it has room for, and asks for another event if it took fewer; the other direction, the taps
      and a failed write see nothing of it. */
  lemma RightEventExactly(c: Chan, mask: Mask, write: WriteResult)
    requires Ok(c)
    ensures var after := Handle(c, Right(mask, write));
            var front := Front(c.ring);
            var n := if mask.output && write.WriteOk? then Min(write.room, front) else 0;
            && n <= |c.ring.Contents()| && after.chan.ring.Valid() && !after.threw
            && after.chan.delivered == c.delivered + c.ring.Contents()[..n]
            && after.chan.ring.Contents() == c.ring.Contents()[n..]
            && after.chan.received == c.received && after.chan.shown == c.shown
            && after.queued == if mask.output && write.WriteOk? && n < front then [QueuedOut] else []
  {
    hide Unread, Ring.Contents, Ring.Valid, Ring.AcquireRead, Ring.Drain, Roomy, Conserved, Front;
    OkValid(c);
    AcquireReadOffersPrefix(c.ring);
    RegionIsFront(c.ring);
    assert c.delivered + c.ring.Contents()[..0] == c.delivered;
    if mask.output && write.WriteOk? {
      DrainTakesFront(c.ring, write.room);
      DrainLength(c.ring, write.room);
    }
  }

  /** The bytes a left event takes in: a chunk of what there is to read, if it has the flag and a chunk fits. */
  function Intake(c: Chan, mask: Mask, read: ReadResult): seq<Byte>
    requires c.ring.Valid()
  {
    if Acquires(c, mask) && read.ReadOk? then Taken(read.bytes) else []
  }

  predicate Acquires(c: Chan, mask: Mask)
    requires c.ring.Valid()
  {
    mask.input && (c.ring.RunFits(c.ring.w, CHUNK_SZ) || c.ring.RunFits(0, CHUNK_SZ))
  }

  /** A left event with its flag reads a chunk if one fits and lets the taps see it up to the first that throws. */
  lemma LeftEventReads(c: Chan, mask: Mask, read: ReadResult, thrower: nat, write: WriteResult)
    requires Ok(c)
    ensures var after := Handle(c, Left(mask, read, thrower, write));
            && (after.threw <==> Acquires(c, mask) && thrower < |c.shown|)
            && after.chan.received == c.received + Intake(c, mask, read)
            && |after.chan.shown| == |c.shown|
            && (forall j :: 0 <= j < |c.shown| ==>
                  after.chan.shown[j] == if j <= thrower then c.shown[j] + Intake(c, mask, read) else c.shown[j])
            && (QueuedError in after.queued <==> Acquires(c, mask) && read.ReadError?)
  {
    hide Ring.Contents, Ring.Valid, Ring.RunFits, Roomy, Conserved, ReadSide, WriteSide;
    if mask.input {
      ReadSideExactly(c, read, thrower);
      ReadSideKeeps(c, read, thrower);
      var first := ReadSide(c, read, thrower);
      if !first.threw {
        OfferExactly(first.chan, write);
      }
    }
  }

  /** Unless a tap throws, it then offers the front of all that is buffered to the right object, and asks for another
      event if bytes are left that the right object did not take although they lie in one piece. */
  lemma LeftEventWrites(c: Chan, mask: Mask, read: ReadResult, thrower: nat, write: WriteResult)
    requires Ok(c)
    ensures var after := Handle(c, Left(mask, read, thrower, write));
            var offers := mask.input && !after.threw && write.WriteOk?;
            var buffered, g := c.ring.Contents() + Intake(c, mask, read), after.chan.ring;
            && Ok(after.chan) && c.delivered <= after.chan.delivered
            && var sent := after.chan.delivered[|c.delivered|..];
            && buffered == sent + g.Contents()
            && |sent| <= (if offers then write.room else 0)
            && (QueuedOut in after.queued ==> offers && |sent| == write.room && g.Contents() != [])
            && (offers && QueuedOut !in after.queued ==> g.Contents() == [] || g.Contents() == g.data[..g.w])
            && (offers && write.room > 0 && buffered != [] ==> sent != [])
  {
    hide Unread, Ring.Contents, Ring.Valid, Ring.RunFits, Roomy, Conserved, ReadSide, WriteSide;
    OkValid(c);
    if mask.input {
      ReadSideExactly(c, read, thrower);
      ReadSideKeeps(c, read, thrower);
      var first := ReadSide(c, read, thrower);
      if first.threw {
        NothingSent(c.delivered, first.chan.ring.Contents());
      } else {
        OfferExactly(first.chan, write);
      }
    } else {
      NothingSent(c.delivered, c.ring.Contents());
    }
  }

  lemma NothingSent(delivered: seq<Byte>, contents: seq<Byte>)
    ensures delivered[|delivered|..] == [] && [] + contents == contents + [] == contents
  {
  }

  lemma ReadSideExactly(c: Chan, read: ReadResult, thrower: nat)
    requires Ok(c)
    ensures var first := ReadSide(c, read, thrower);
            var acquires := c.ring.RunFits(c.ring.w, CHUNK_SZ) || c.ring.RunFits(0, CHUNK_SZ);
            var data := if acquires && read.ReadOk? then Taken(read.bytes) else [];
            && Ok(first.chan) && (first.threw <==> acquires && thrower < |c.shown|)
            && first.chan.received == c.received + data && first.chan.delivered == c.delivered
            && first.chan.ring.Contents() == c.ring.Contents() + data
            && |first.chan.shown| == |c.shown|
            && (forall j :: 0 <= j < |c.shown| ==>
                  first.chan.shown[j] == if j <= thrower then c.shown[j] + data else c.shown[j])
            && first.queued == if acquires && read.ReadError? then [QueuedError] else []
  {
    hide Unread, Ring.UnreadCell, Ring.RunFits, Ring.Contents, Ring.ReleaseWrite, Ring.Fill, Ring.Valid, Roomy;
    OkValid(c);
    ReadSideKeeps(c, read, thrower);
    OkValid(ReadSide(c, read, thrower).chan);
    GrantExactly(c.ring, CHUNK_SZ);
    AcquireWriteKeepsQueue(c.ring, CHUNK_SZ);
    if read.ReadOk? {
      ReadExactly(c, read.bytes, thrower);
    }
  }

  lemma OfferExactly(c: Chan, write: WriteResult)
    requires Ok(c)
    ensures var after := WriteSide(c, write);
            var g := after.chan.ring;
            && Ok(after.chan) && !after.threw && after.chan.received == c.received && after.chan.shown == c.shown
            && c.delivered <= after.chan.delivered
            && var sent := after.chan.delivered[|c.delivered|..];
            && c.ring.Contents() == sent + g.Contents()
            && |sent| <= (if write.WriteOk? then write.room else 0)
            && (after.queued == [] || after.queued == [QueuedOut])
            && (after.queued == [QueuedOut] ==> write.WriteOk? && |sent| == write.room && g.Contents() != [])
            && (write.WriteOk? && after.queued == [] ==> g.Contents() == [] || g.Contents() == g.data[..g.w])
            && (write.WriteOk? && write.room > 0 && c.ring.Contents() != [] ==> sent != [])
  {
    hide Unread, Ring.Contents, Ring.Valid, Ring.AcquireRead, Ring.Drain, Roomy, Conserved, Front;
    OkValid(c);
    WriteSideKeeps(c, write);
    match write
    case WriteError =>
      AcquireReadOffersPrefix(c.ring);
      assert c.delivered[|c.delivered|..] == [];
    case WriteOk(room) =>
      WriteExactly(c, room);
      RetryExactly(c, room);
      DrainTakesFront(c.ring, room);
      DrainLength(c.ring, room);
      FrontWithin(c.ring);
      RegionIsFront(c.ring);
      assert WriteSide(c, write).chan.delivered[|c.delivered|..] == c.ring.Drain(room).1;
  }

  lemma FrontNotEmpty(g: Ring<Byte>)
    requires g.Valid() && g.Contents() != []
    ensures 0 < Front(g)
  {
  }

  lemma FrontWithin(g: Ring<Byte>)
    requires g.Valid()
    ensures Front(g) <= |g.Contents()|
  {
  }

  lemma LessIsWritable(g: Ring<Byte>, n: nat, m: nat)
    requires g.Valid() && g.Writable(n) && m <= n
    ensures g.Writable(m) && g.WriteOffset() + m <= |g.data|
    ensures forall elements: seq<Byte> | |elements| == m ::
              var f := g.Fill(g.WriteOffset(), elements); f.Valid() && f.Writable(m)
  {
  }

  // ---------------------------------------------------------------- the object

  /** The channel as the class that owns a buffer and calls its taps. */
  class Channel {
    const buffer: BipartiteBuffer<Byte>
    const taps: nat
    ghost var received: seq<Byte>
    ghost var delivered: seq<Byte>
    ghost var shown: seq<seq<Byte>>

    ghost function Value(): Chan
      reads this, buffer, buffer.data
    {
      Chan(buffer.Value(), received, delivered, shown)
    }

    ghost predicate Valid()
      reads this, buffer, buffer.data
    {
      Ok(Value()) && |shown| == taps
    }

    constructor (taps: nat)
      ensures Valid() && Made(Value()) && this.taps == taps && fresh(buffer) && fresh(buffer.data)
    {
      buffer := new BipartiteBuffer<Byte>(BUFF_SZ);
      this.taps := taps;
      received, delivered, shown := [], [], seq(taps, _ => []);
      new;
      MadeOk(Value());
    }

    /** Something to read on the left: pass a chunk on to the buffer and the taps, then offer what is buffered
        to the right object. `thrower` is the tap that throws during this call, if it is one of the taps. */
    method HandleLeftIoEvent(mask: Mask, read: ReadResult, thrower: nat, write: WriteResult)
      returns (queued: seq<Queued>, threw: bool)
      requires Valid()
      modifies this, buffer, buffer.data
      ensures Valid() && Outcome(Value(), queued, threw) == HandleLeft(old(Value()), mask, read, thrower, write)
    {
      queued, threw := [], false;
      ghost var before := Value();
      HandleKeeps(before, Left(mask, read, thrower, write));
      if mask.input {
        hide Ok, ReadSide, WriteSide;
        queued, threw := FillFromLeft(read, thrower);
        if threw {
          return;
        }
        var more := DrainToRight(write);
        queued := queued + more;
      }
    }

    method HandleRightIoEvent(mask: Mask, write: WriteResult) returns (queued: seq<Queued>)
      requires Valid()
      modifies this, buffer, buffer.data
      ensures Valid() && Outcome(Value(), queued, false) == HandleRight(old(Value()), mask, write)
    {
      hide Ok, WriteSide;
      queued := [];
      if mask.output {
        queued := DrainToRight(write);
      }
    }

    method FillFromLeft(read: ReadResult, thrower: nat) returns (queued: seq<Queued>, threw: bool)
      requires Valid()
      modifies this, buffer, buffer.data
      ensures Valid() && Outcome(Value(), queued, threw) == ReadSide(old(Value()), read, thrower)
    {
      hide Ring.RunFits, Ring.Contents, Ring.ReleaseWrite, Ring.Fill, Ring.Valid, Ring.Writable, Roomy, Conserved;
      queued, threw := [], false;
      ReadSideKeeps(Value(), read, thrower);
      if buffer.Value().AcquireWrite(CHUNK_SZ).1.Some? {
        FreshOrRepeated(Value());
      }
      var offset := buffer.WriteAcquire(CHUNK_SZ);
      if offset.Some? {
        match read {
          case ReadError =>
            queued := [QueuedError];
            threw := thrower < taps;
          case ReadOk(bytes) =>
            var data := bytes[..Min(|bytes|, CHUNK_SZ)];
            LessIsWritable(buffer.Value(), CHUNK_SZ, |data|);
            buffer.Fill(offset.value, data);
            buffer.WriteRelease(|data|);
            received := received + data;
            threw := ShowTaps(data, thrower);
        }
      }
    }

    /** The loop over the taps; a tap that throws ends it. */
    method ShowTaps(data: seq<Byte>, thrower: nat) returns (threw: bool)
      requires |shown| == taps
      modifies this`shown
      ensures shown == ShowTo(old(shown), data, thrower) && threw == (thrower < taps)
    {
      var t := 0;
      while t < taps
        invariant t <= taps && t <= thrower && |shown| == taps
        invariant forall j :: 0 <= j < taps ==> shown[j] == if j < t then old(shown[j]) + data else old(shown[j])
      {
        shown := shown[t := shown[t] + data];
        if t == thrower {
          return true;
        }
        t := t + 1;
      }
      return false;
    }

    method DrainToRight(write: WriteResult) returns (queued: seq<Queued>)
      requires Valid()
      modifies this, buffer, buffer.data
      ensures Valid() && Outcome(Value(), queued, false) == WriteSide(old(Value()), write)
    {
      hide Unread, Ring.Contents, Ring.ReleaseRead, Ring.Readable, Ring.AcquireRead, Ring.Drain, Roomy, Conserved;
      hide WriteSide;
      queued := [];
      ghost var before := Value();
      WriteSideKeeps(before, write);
      WriteSideIs(before, write);
      AcquireReadOffersPrefix(before.ring);
      var region := buffer.ReadAcquire();
      if region.Some? && region.value.length > 0 && write.WriteOk? {
        var n := Min(write.room, region.value.length);
        delivered := delivered + before.ring.data[region.value.offset..region.value.offset + n];
        buffer.ReadRelease(n);
        if n < region.value.length {
          queued := [QueuedOut];
        }
      }
    }
  }

  /** The write side, spelled out on the region acquired. */
  lemma WriteSideIs(c: Chan, write: WriteResult)
    requires c.ring.Valid()
    ensures var (g, region) := c.ring.AcquireRead();
            if write.WriteError? || region.None? || region.value.length == 0 then
              WriteSide(c, write) == Outcome(c.(ring := g), [], false)
            else
              var o, n := region.value.offset, Min(write.room, region.value.length);
              && o + n <= |c.ring.data| && g.Readable(n)
              && WriteSide(c, write) ==
                 Outcome(c.(ring := g.ReleaseRead(n), delivered := c.delivered + c.ring.data[o..o + n]),
                         if n < region.value.length then [QueuedOut] else [], false)
  {
    hide Ring.AcquireRead, Ring.ReleaseRead, Ring.Readable, Ring.Drain;
    if write.WriteOk? {
      DrainIs(c.ring, write.room);
      assert c.delivered + [] == c.delivered;
    }
  }
}
