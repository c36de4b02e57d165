/** A session's client side from socket to log file: the channel reads from the client, its tap parses the
    bytes into queries, the log queues them, and the writer thread drains the log, interleaving with the I/O
    thread at the grain of single memory accesses (src/psql_proxy/session.cpp, src/psql_proxy/main.cpp). */
module EndToEnd {
  import opened Common
  import opened Endianness
  import opened Messages
  import opened Frames
  import opened Handlers
  import Channels
  import QueryLog
  import Spsc
  import opened ConcurrentLogs

  /** The separator the program gives to the log: a line feed. */
  const SEPARATOR: Byte := 10

  datatype System = System(chan: Channels.Chan, handler: HandlerState, log: Log)

  /** One event of the I/O thread as far as the channel is concerned; who throws is decided by the handler. */
  datatype IoEvent =
    | Left(mask: Channels.Mask, read: ReadResult, write: Channels.WriteResult)
    | Right(mask: Channels.Mask, write: Channels.WriteResult)

  datatype Act = Io(event: IoEvent) | Memory(step: Spsc.Step<Byte>)

  /** The pieces queued for one call the handler makes. */
  function EntriesOf(effect: Effect): seq<seq<Byte>> {
    match effect
    case AddMessage(query) => QueryLog.Entries(query, SEPARATOR)
    case EnqueueError => []
  }

  /** The pieces its calls to the logger queue, in order. */
  function LogEntries(effects: seq<Effect>): seq<seq<Byte>> {
    if effects == [] then [] else EntriesOf(effects[0]) + LogEntries(effects[1..])
  }

  /** What a log without refusals reads: every query followed by a separator. */
  function LogText(effects: seq<Effect>): seq<Byte> {
    if effects == [] then []
    else
      (match effects[0]
       case AddMessage(query) => query + [SEPARATOR]
       case EnqueueError => [])
      + LogText(effects[1..])
  }

  /** The event is a read for which the channel had room. */
  predicate Reads(s: System, e: IoEvent)
    requires Channels.Ok(s.chan)
  {
    e.Left? && e.mask.input && e.read.ReadOk? && s.chan.ring.AcquireWrite(Channels.CHUNK_SZ).1.Some?
  }

  /** What the tap makes of an event: it is called when a read stored bytes. */
  function Tap(s: System, e: IoEvent): Handled
    requires Channels.Ok(s.chan)
  {
    if Reads(s, e)
    then HandleChunk(s.handler, Channels.Taken(e.read.bytes))
    else Handled(s.handler, [], false)
  }

  function ChannelEvent(e: IoEvent, threw: bool): Channels.Event {
    match e
    case Left(mask, read, write) => Channels.Left(mask, read, if threw then 0 else 1, write)
    case Right(mask, write) => Channels.Right(mask, write)
  }

  /** The I/O thread takes an event only when it is not inside add_message. */
  predicate CanAct(s: System, a: Act) {
    && Channels.Ok(s.chan)
    && match a
       case Io(_) => Idle(s.log)
       case Memory(step) => CanStep(s.log, step)
  }

  function Step(s: System, a: Act): System
    requires CanAct(s, a)
  {
    match a
    case Io(e) =>
      var tap := Tap(s, e);
      System(Channels.Handle(s.chan, ChannelEvent(e, tap.threw)).chan, tap.state,
             Offer(s.log, LogEntries(tap.effects)))
    case Memory(step) => s.(log := LogStep(s.log, step))
  }

  /** A fresh session with one tap over a fresh log. */
  predicate Start(s: System) {
    && Channels.Made(s.chan) && |s.chan.shown| == 1 && s.handler == FRESH
    && |s.log.ring.data| == QueryLog.BUFF_SZ && s.log == InitLog(s.log.ring.data)
  }

  ghost predicate Run(s: System, acts: seq<Act>, end: System)
    decreases |acts|
  {
    if acts == [] then s == end else CanAct(s, acts[0]) && Run(Step(s, acts[0]), acts[1..], end)
  }

  // ---------------------------------------------------------------- the invariant

  /** The handler has been called on `chunks`, which make up the bytes received, and its calls have put `offered`
      to the log. */
  predicate CalledOn(received: seq<Byte>, handler: HandlerState, offered: seq<seq<Byte>>, chunks: seq<seq<Byte>>) {
    var h := HandleAll(FRESH, chunks);
    Flatten(chunks) == received && handler == h.state && offered == LogEntries(h.effects)
  }

  /** The handler and the log are where the calls made so far have put them. */
  ghost predicate InStep(received: seq<Byte>, handler: HandlerState, offered: seq<seq<Byte>>) {
    exists chunks :: CalledOn(received, handler, offered, chunks)
  }

  ghost predicate SystemInv(s: System) {
    && Channels.Ok(s.chan) && |s.chan.shown| == 1 && s.chan.shown[0] == s.chan.received
    && LogInv(s.log) && InStep(s.chan.received, s.handler, s.log.offered)
  }

  lemma {:induction false} LogEntriesConcat(a: seq<Effect>, b: seq<Effect>)
    ensures LogEntries(a + b) == LogEntries(a) + LogEntries(b)
  {
    hide EntriesOf;
    if a == [] {
      assert a + b == b && [] + LogEntries(b) == LogEntries(b);
    } else {
      assert (a + b)[1..] == a[1..] + b;
      LogEntriesConcat(a[1..], b);
      var head := EntriesOf(a[0]);
      assert head + LogEntries(a[1..]) + LogEntries(b) == head + (LogEntries(a[1..]) + LogEntries(b));
    }
  }

  lemma {:induction false} EntriesAreText(effects: seq<Effect>)
    ensures Flatten(LogEntries(effects)) == LogText(effects)
  {
    if effects != [] {
      EntriesAreText(effects[1..]);
      if effects[0].AddMessage? {
        var query := effects[0].query;
        FlattenConcat(QueryLog.Entries(query, SEPARATOR), LogEntries(effects[1..]));
        FlattenSnoc(QueryLog.Pieces(query), [SEPARATOR]);
        QueryLog.PiecesPartition(query);
      } else {
        assert [] + LogEntries(effects[1..]) == LogEntries(effects[1..]);
        assert [] + LogText(effects[1..]) == LogText(effects[1..]);
      }
    }
  }

  /** Handing the next bytes of the stream to the handler keeps it in step. */
  lemma ChunkKeepsStep(received: seq<Byte>, handler: HandlerState, offered: seq<seq<Byte>>, data: seq<Byte>)
    requires InStep(received, handler, offered)
    ensures var h := HandleChunk(handler, data);
            InStep(received + data, h.state, offered + LogEntries(h.effects))
  {
    hide HandleChunk, HandleAll;
    var chunks :| CalledOn(received, handler, offered, chunks);
    HandleAllSnoc(FRESH, chunks, data);
    FlattenSnoc(chunks, data);
    LogEntriesConcat(HandleAll(FRESH, chunks).effects, HandleChunk(handler, data).effects);
    assert CalledOn(received + data, HandleChunk(handler, data).state,
                    offered + LogEntries(HandleChunk(handler, data).effects), chunks + [data]);
  }

  /** The bytes the channel takes in are the ones the tap is called with. */
  lemma TapSeesWhatIsReceived(s: System, e: IoEvent)
    requires Channels.Ok(s.chan)
    ensures var tap := Tap(s, e);
            var received := Channels.Handle(s.chan, ChannelEvent(e, tap.threw)).chan.received;
            if Reads(s, e)
            then received == s.chan.received + Channels.Taken(e.read.bytes)
                 && tap == HandleChunk(s.handler, Channels.Taken(e.read.bytes))
            else received == s.chan.received && tap == Handled(s.handler, [], false)
  {
    hide HandleChunk, Channels.Roomy, Channels.Conserved;
  }

  lemma IoKeeps(s: System, e: IoEvent)
    requires SystemInv(s) && CanAct(s, Io(e))
    ensures SystemInv(Step(s, Io(e)))
  {
    hide Channels.Handle, Tap, HandleChunk, InStep, LogInv, Channels.Ok;
    var tap := Tap(s, e);
    Channels.HandleKeeps(s.chan, ChannelEvent(e, tap.threw));
    Channels.TapSeesEvent(s.chan, ChannelEvent(e, tap.threw), 0);
    Channels.SameTaps(s.chan, ChannelEvent(e, tap.threw));
    OfferKeeps(s.log, LogEntries(tap.effects));
    TapSeesWhatIsReceived(s, e);
    if Reads(s, e) {
      ChunkKeepsStep(s.chan.received, s.handler, s.log.offered, Channels.Taken(e.read.bytes));
    } else {
      assert s.log.offered + LogEntries([]) == s.log.offered;
    }
  }

  lemma OfferedStays(l: Log, step: Spsc.Step<Byte>)
    requires CanStep(l, step)
    ensures LogStep(l, step).offered == l.offered
  {
  }

  lemma StepKeepsSystem(s: System, a: Act)
    requires SystemInv(s) && CanAct(s, a)
    ensures SystemInv(Step(s, a))
  {
    hide LogInv, Channels.Ok, Channels.Handle, Tap, HandleChunk, Follows, ConcurrentLogs.LogStep;
    match a
    case Io(e) => IoKeeps(s, e);
    case Memory(step) =>
      LogStepKeeps(s.log, step);
      OfferedStays(s.log, step);
  }

  lemma {:induction false} RunKeepsSystem(s: System, acts: seq<Act>, end: System)
    requires SystemInv(s) && Run(s, acts, end)
    ensures SystemInv(end)
    decreases |acts|
  {
    if acts != [] {
      StepKeepsSystem(s, acts[0]);
      RunKeepsSystem(Step(s, acts[0]), acts[1..], end);
    }
  }

  lemma StartInv(s: System)
    requires Start(s)
    ensures SystemInv(s)
  {
    Channels.MadeOk(s.chan);
    InitLogInv(s.log.ring.data);
    assert CalledOn([], FRESH, [], []);
  }

  // ---------------------------------------------------------------- what reaches the log

  /** In every run, whatever the sizes of reads and writes, the errors, the frames that make a constructor throw,
      and the interleaving with the writer: what has reached the log and what is still to be queued is an in-order
      selection of whole pieces of the queries, and of separators, that the handler reports when it is called on
      the bytes received in some chunks; and without a refusal it spells out all of those queries, each with its
      separator. Each refusal costs one piece. */
  lemma CallsReachLog(s: System, acts: seq<Act>, end: System) returns (chunks: seq<seq<Byte>>)
    requires Start(s) && Run(s, acts, end)
    ensures end.log.ring.Shaped() && Flatten(chunks) == end.chan.received
    ensures var log, effects := end.log, HandleAll(FRESH, chunks).effects;
            && log.ring.consumed + Spsc.Queue(log.ring) == Flatten(log.accepted)
            && IsSublist(log.accepted + log.todo, LogEntries(effects))
            && |log.accepted| + log.refused + |log.todo| == |LogEntries(effects)|
            && (log.refused == 0 ==>
                  log.ring.consumed + Spsc.Queue(log.ring) + Flatten(log.todo) == LogText(effects))
  {
    hide Channels.Ok, HandleAll, HandleChunk, IsSublist, LogInv, LogEntries, LogText, Run;
    StartInv(s);
    RunKeepsSystem(s, acts, end);
    chunks :| CalledOn(end.chan.received, end.handler, end.log.offered, chunks);
    LogIsPieces(end.log);
    AcceptedAndTodo(end.log);
    RefusalCostsOnePiece(end.log);
    LogIsShaped(end.log);
    if end.log.refused == 0 {
      NothingRefusedNothingLost(end.log);
      EntriesAreText(HandleAll(FRESH, chunks).effects);
    }
  }

  lemma LogIsShaped(l: Log)
    requires LogInv(l)
    ensures l.ring.Shaped()
  {
  }

  /** Bytes that parse without a throw mean the same in whatever chunks they come. */
  lemma ChunksParse(received: seq<Byte>, chunks: seq<seq<Byte>>)
    requires Flatten(chunks) == received && !Parse(false, received).threw
    ensures HandleAll(FRESH, chunks).effects == Parse(false, received).effects
  {
    hide Parse;
    ScannedLength(false, []);
    assert [] + Flatten(chunks) == received;
    HandleAllParses(FRESH, chunks);
  }

  /** So as long as the bytes received parse without a throw and no piece was refused, what the writer has taken,
      what it has yet to take and what is still to be queued spell out the queries framed in those bytes. */
  lemma QueriesReachLog(s: System, acts: seq<Act>, end: System)
    requires Start(s) && Run(s, acts, end)
    requires !Parse(false, end.chan.received).threw && end.log.refused == 0
    ensures end.log.ring.Shaped()
    ensures end.log.ring.consumed + Spsc.Queue(end.log.ring) + Flatten(end.log.todo)
         == LogText(Parse(false, end.chan.received).effects)
  {
    hide Parse, HandleAll, Run, Start, LogText;
    var chunks := CallsReachLog(s, acts, end);
    ChunksParse(end.chan.received, chunks);
  }

  /** With refusals, what reaches the writer is still made of whole pieces of those queries, in order. */
  lemma LogIsOrderedPieces(s: System, acts: seq<Act>, end: System)
    requires Start(s) && Run(s, acts, end)
    requires !Parse(false, end.chan.received).threw && Idle(end.log)
    ensures end.log.ring.Shaped()
    ensures end.log.ring.consumed + Spsc.Queue(end.log.ring) == Flatten(end.log.accepted)
    ensures IsSublist(end.log.accepted, LogEntries(Parse(false, end.chan.received).effects))
  {
    hide Parse, HandleAll, Run, Start, LogEntries, LogText, IsSublist;
    var chunks := CallsReachLog(s, acts, end);
    ChunksParse(end.chan.received, chunks);
    assert end.log.accepted + end.log.todo == end.log.accepted;
  }

  /** Meanwhile the client's bytes pass through to the server untouched, parsed or not. */
  lemma StreamPassesThrough(s: System, acts: seq<Act>, end: System)
    requires Start(s) && Run(s, acts, end)
    ensures end.chan.ring.Valid()
    ensures end.chan.received == end.chan.delivered + end.chan.ring.Contents()
  {
    StartInv(s);
    RunKeepsSystem(s, acts, end);
  }

  /** A client that sends a start-up frame and any recoverable frames after it: once the writer has caught up,
      the log holds its queries, one after the other. */
  lemma ClientIsLogged(s: System, acts: seq<Act>, end: System, startup: Wire, ws: seq<Wire>)
    requires Start(s) && Run(s, acts, end)
    requires startup.code == STARTUP_CODE && Recoverable(startup) && AllRecoverable(ws)
    requires end.chan.received == Print(startup, false) + PrintAll(ws)
    requires end.log.refused == 0 && Idle(end.log)
    ensures end.log.ring.Shaped()
    ensures end.log.ring.consumed + Spsc.Queue(end.log.ring) == LogText(Carried(ws))
  {
    hide Print, Parse, Recoverable;
    PrintParse(startup, ws);
    QueriesReachLog(s, acts, end);
    assert Flatten<Byte>([]) == [];
  }

  /** In bytes: a client that starts up with version 3.0 and sends one query, in whatever chunks it arrives, leaves
      the query and a line feed in the log. */
  lemma OneQueryIsLogged(s: System, acts: seq<Act>, end: System, text: seq<Byte>)
    requires Start(s) && Run(s, acts, end) && |text| + 5 < 0x1_0000
    requires end.chan.received == [0, 0, 0, 8, 0, 3, 0, 0] + ClientFrame('Q' as int, text + [0])
    requires end.log.refused == 0 && Idle(end.log)
    ensures end.log.ring.Shaped()
    ensures end.log.ring.consumed + Spsc.Queue(end.log.ring) == text + [10]
  {
    hide Print, Recoverable, Run, Start, Parse, ClientFrame;
    var startup, query := Wire(0, [0, 3, 0, 0], BE), Wire('Q' as int, text + [0], BE);
    var ws: seq<Wire> := [query];
    StartupBytes();
    ShortSurvives(|text| + 5);
    ShortFramesRecoverable(query);
    ClientFrameIsPrinted('Q' as int, text + [0]);
    assert ws[1..] == [] && PrintAll(ws) == Print(query, true) + [] == Print(query, true);
    ClientIsLogged(s, acts, end, startup, ws);
    assert (text + [0])[..|text|] == text;
    assert Carried(ws) == [AddMessage(text)] + [] == [AddMessage(text)];
    var one: seq<Effect> := [AddMessage(text)];
    assert one[1..] == [] && LogText(one) == text + [10] + [];
  }

  lemma StartupBytes()
    ensures Recoverable(Wire(0, [0, 3, 0, 0], BE))
    ensures Print(Wire(0, [0, 3, 0, 0], BE), false) == [0, 0, 0, 8, 0, 3, 0, 0]
  {
  }

  /** Nothing but the I/O thread's own work on the log keeps an event waiting, and an event moves bytes on: one that
      finds something buffered or reads something, and a right object with room, delivers some of it. */
  lemma EventsMoveBytes(s: System, e: IoEvent)
    requires SystemInv(s) && Idle(s.log)
    ensures CanAct(s, Io(e))
    ensures var s' := Step(s, Io(e));
            && s.chan.ring.Valid() && s'.chan.ring.Valid() && s.chan.delivered <= s'.chan.delivered
            && (e.write.WriteOk? && e.write.room > 0 && (if e.Left? then e.mask.input else e.mask.output)
                && !Tap(s, e).threw && s'.chan.received != s.chan.delivered ==>
                  |s.chan.delivered| < |s'.chan.delivered|)
  {
    hide HandleChunk, Channels.Roomy, Channels.WriteSide, Channels.ReadSide, InStep, LogInv, Channels.Front;
    var tap := Tap(s, e);
    TapThrowsExactly(s, e);
    match e
    case Left(mask, read, write) =>
      Channels.LeftEventReads(s.chan, mask, read, if tap.threw then 0 else 1, write);
      Channels.LeftEventWrites(s.chan, mask, read, if tap.threw then 0 else 1, write);
    case Right(mask, write) =>
      Channels.RightEventExactly(s.chan, mask, write);
      if s.chan.ring.Contents() != [] {
        Channels.FrontNotEmpty(s.chan.ring);
      }
  }

  /** A tap that throws is the only reason for an event to end early. */
  lemma TapThrowsExactly(s: System, e: IoEvent)
    requires Channels.Ok(s.chan) && |s.chan.shown| == 1
    ensures Channels.Handle(s.chan, ChannelEvent(e, Tap(s, e).threw)).threw <==> Tap(s, e).threw
  {
    hide HandleChunk, Channels.Roomy, Channels.Conserved;
  }
}
