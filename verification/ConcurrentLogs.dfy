/** The query log with its two threads: the I/O thread queues pieces of messages while the writer thread
    drains them, both at the grain of single loads, copies and stores
    (src/psql_proxy/query_processor.cpp over src/io/bipartite_buf_impl.hpp with `thread_safety_atomic`). */
module ConcurrentLogs {
  import opened Common
  import opened Rings
  import opened Spsc
  import QueryLog

  /** `todo` lists the pieces the I/O thread still has to queue, the current one first. `offered` and
      `accepted` list every piece it was given and every piece that went in; `refused` counts the others. */
  datatype Log = Log(ring: State<Byte>, todo: seq<seq<Byte>>,
                     offered: seq<seq<Byte>>, accepted: seq<seq<Byte>>, refused: nat)

  function InitLog(data: seq<Byte>): Log {
    Log(Init(data), [], [], [], 0)
  }

  /** The I/O thread queues the current piece and nothing else; the writer thread is free. */
  predicate Follows(l: Log, step: Step<Byte>)
    requires l.ring.Shaped() && Enabled(l.ring, step)
  {
    IsProducerStep(step) ==>
      && l.todo != []
      && match step
         case LoadR(n, _) => n == |l.todo[0]|
         case CopyIn(x) => |l.ring.producer.pending| < |l.todo[0]| && x == l.todo[0][|l.ring.producer.pending|]
         case StoreI(m) => m == |l.todo[0]|
         case StoreW => true
         case _ => false
  }

  predicate CanStep(l: Log, step: Step<Byte>) {
    l.ring.Shaped() && Enabled(l.ring, step) && Follows(l, step)
  }

  function LogStep(l: Log, step: Step<Byte>): Log
    requires CanStep(l, step)
  {
    var l' := l.(ring := Apply(l.ring, step));
    match step
    case LoadR(_, _) =>
      if l'.ring.producer.PIdle? then l'.(todo := l.todo[1..], refused := l.refused + 1) else l'
    case StoreW => l'.(todo := l.todo[1..], accepted := l.accepted + [l.todo[0]])
    case _ => l'
  }

  /** The I/O thread is between two calls of add_message. */
  predicate Idle(l: Log) {
    l.todo == [] && l.ring.producer.PIdle?
  }

  function Offer(l: Log, pieces: seq<seq<Byte>>): Log {
    l.(todo := pieces, offered := l.offered + pieces)
  }

  // ---------------------------------------------------------------- the invariant

  ghost predicate OnPiece(l: Log) {
    match l.ring.producer
    case PIdle => !l.ring.writeWrapped
    case PHold(_, granted, pending) => l.todo != [] && granted == |l.todo[0]| && pending <= l.todo[0]
    case PStoring(_, elements, _) => l.todo != [] && elements == l.todo[0]
  }

  /** What went in is an in-order selection of what was offered; without a refusal it is all of it, and each
      refusal costs one piece. */
  ghost predicate InOrder(l: Log) {
    && |l.todo| <= |l.offered| && l.todo == l.offered[|l.offered| - |l.todo|..]
    && IsSublist(l.accepted, l.offered[..|l.offered| - |l.todo|])
    && (l.refused == 0 ==> l.accepted == l.offered[..|l.offered| - |l.todo|])
    && |l.accepted| + l.refused + |l.todo| == |l.offered|
  }

  ghost predicate LogInv(l: Log) {
    && Inv(l.ring) && OnPiece(l) && InOrder(l)
    && l.ring.published == Flatten(l.accepted)
  }

  lemma InitLogInv(data: seq<Byte>)
    requires |data| > 2
    ensures LogInv(InitLog(data))
  {
    InitInv(data);
  }

  lemma OfferKeeps(l: Log, pieces: seq<seq<Byte>>)
    requires LogInv(l) && Idle(l)
    ensures LogInv(Offer(l, pieces))
  {
    var l' := Offer(l, pieces);
    assert l'.offered[|l.offered|..] == pieces && l'.offered[..|l.offered|] == l.offered;
    assert l.offered[..|l.offered| - 0] == l.offered;
  }

  lemma {:induction false} SublistConcat(sub: seq<seq<Byte>>, all: seq<seq<Byte>>, tail: seq<seq<Byte>>)
    requires IsSublist(sub, all)
    ensures IsSublist(sub + tail, all + tail)
    decreases all
  {
    if all == [] {
      assert all + tail == tail && sub + tail == tail;
      SublistItself(tail);
    } else {
      assert (all + tail)[1..] == all[1..] + tail;
      if sub != [] && sub[0] == all[0] && IsSublist(sub[1..], all[1..]) {
        assert (sub + tail)[1..] == sub[1..] + tail;
        SublistConcat(sub[1..], all[1..], tail);
      } else {
        SublistConcat(sub, all[1..], tail);
      }
    }
  }

  lemma {:induction false} SublistItself(all: seq<seq<Byte>>)
    ensures IsSublist(all, all)
    decreases all
  {
    if all != [] {
      SublistItself(all[1..]);
    }
  }

  lemma {:induction false} SublistSkip(sub: seq<seq<Byte>>, all: seq<seq<Byte>>, x: seq<Byte>)
    requires IsSublist(sub, all)
    ensures IsSublist(sub, all + [x])
    decreases all
  {
    if all == [] {
      assert [x][1..] == [] && all + [x] == [x];
    } else {
      assert (all + [x])[1..] == all[1..] + [x];
      if sub != [] && sub[0] == all[0] && IsSublist(sub[1..], all[1..]) {
        SublistSkip(sub[1..], all[1..], x);
      } else {
        SublistSkip(sub, all[1..], x);
      }
    }
  }

  /** Moving past the current piece, taken or left. */
  lemma PieceDone(l: Log, l': Log, taken: bool)
    requires InOrder(l) && l.todo != [] && l'.todo == l.todo[1..] && l'.offered == l.offered
    requires l'.accepted == l.accepted + (if taken then [l.todo[0]] else [])
    requires l'.refused == l.refused + (if taken then 0 else 1)
    ensures InOrder(l')
  {
    var k := |l.offered| - |l.todo|;
    assert l.offered[..k + 1] == l.offered[..k] + [l.todo[0]];
    SublistConcat(l.accepted, l.offered[..k], [l.todo[0]]);
    SublistSkip(l.accepted, l.offered[..k], l.todo[0]);
    assert l.accepted + [] == l.accepted;
  }

  lemma LogStepKeeps(l: Log, step: Step<Byte>)
    requires LogInv(l) && CanStep(l, step)
    ensures LogInv(LogStep(l, step))
  {
    hide Inv, Apply, Released;
    var l' := LogStep(l, step);
    StepKeepsInv(l.ring, step);
    StepKeepsPiece(l, step);
    HistoryChange(l.ring, step);
    ReleasedPiece(l, step);
    if step.LoadR? && l'.ring.producer.PIdle? {
      PieceDone(l, l', false);
    } else if step.StoreW? {
      PieceDone(l, l', true);
      FlattenSnoc(l.accepted, l.todo[0]);
    }
  }

  lemma ReleasedPiece(l: Log, step: Step<Byte>)
    requires LogInv(l) && CanStep(l, step)
    ensures Released(l.ring, step) == if step.StoreW? then l.todo[0] else []
  {
    hide Inv;
  }

  lemma StepKeepsPiece(l: Log, step: Step<Byte>)
    requires LogInv(l) && CanStep(l, step)
    ensures OnPiece(LogStep(l, step))
  {
    hide Inv, LogStep, CanStep;
    if !IsProducerStep(step) {
      WriterKeepsPiece(l, step);
    } else {
      if l.ring.producer.PStoring? {
        StoringClearsWrap(l.ring);
      }
      QueueingKeepsPiece(l, step);
    }
  }

  lemma WriterKeepsPiece(l: Log, step: Step<Byte>)
    requires CanStep(l, step) && !IsProducerStep(step)
    ensures var l' := LogStep(l, step);
            && l'.todo == l.todo && l'.ring.producer == l.ring.producer
            && l'.ring.writeWrapped == l.ring.writeWrapped
  {
  }

  lemma QueueingKeepsPiece(l: Log, step: Step<Byte>)
    requires OnPiece(l) && CanStep(l, step) && IsProducerStep(step)
    requires l.ring.producer.PStoring? ==> !l.ring.writeWrapped
    ensures OnPiece(LogStep(l, step))
  {
    hide NextW, LapsAfter;
  }

  lemma StoringClearsWrap(s: State<Byte>)
    requires Inv(s) && s.producer.PStoring?
    ensures !s.writeWrapped
  {
  }

  // ---------------------------------------------------------------- what reaches the writer

  /** In any interleaving, what the writer has taken followed by what it has yet to take is the concatenation
      of the pieces that went in, each whole; by InOrder they are a selection of those offered, in order. */
  lemma LogIsPieces(l: Log)
    requires LogInv(l)
    ensures l.ring.consumed + Queue(l.ring) == Flatten(l.accepted)
  {
    QueueIsRest(l.ring);
  }

  /** What went in and what is still to be queued is an in-order selection of what was offered. */
  lemma AcceptedAndTodo(l: Log)
    requires LogInv(l)
    ensures IsSublist(l.accepted + l.todo, l.offered)
  {
    hide Inv, OnPiece, IsSublist;
    var k := |l.offered| - |l.todo|;
    SublistConcat(l.accepted, l.offered[..k], l.todo);
    assert l.offered[..k] + l.todo == l.offered;
  }

  /** If no piece was refused, that is everything offered but what is still to be queued. */
  lemma NothingRefusedNothingLost(l: Log)
    requires LogInv(l) && l.refused == 0
    ensures l.ring.consumed + Queue(l.ring) + Flatten(l.todo) == Flatten(l.offered)
  {
    QueueIsRest(l.ring);
    FlattenConcat(l.accepted, l.todo);
    assert l.accepted + l.todo == l.offered;
  }

  /** The I/O thread is never held up by the writer: as long as it has a piece to queue it has a step to take. */
  lemma NeverStuck(l: Log)
    requires LogInv(l) && l.todo != []
    ensures exists step :: IsProducerStep(step) && CanStep(l, step)
  {
    CopiesInBounds(l.ring);
    var piece := l.todo[0];
    var step := match l.ring.producer
                case PIdle => LoadR(|piece|, |l.ring.rs| - 1)
                case PHold(_, granted, pending) =>
                  if |pending| < granted then CopyIn(piece[|pending|]) else StoreI(|piece|)
                case PStoring(_, _, _) => StoreW;
    assert IsProducerStep(step) && CanStep(l, step);
  }

  /** Nor is the writer held up by the I/O thread. */
  lemma WriterNeverStuck(l: Log)
    requires LogInv(l)
    ensures exists step :: !IsProducerStep(step) && CanStep(l, step)
  {
    hide Inv;
    InvShaped(l.ring);
    CopiesInBounds(l.ring);
    TailsStored(l.ring);
    var step := match l.ring.consumer
                case CIdle => LoadW(|l.ring.ws| - 1)
                case CSawW(_) => LoadI(|l.ring.invs| - 1)
                case CHold(_, length, taken) => if |taken| < length then CopyOut else StoreR(|taken|);
    assert !IsProducerStep(step) && CanStep(l, step);
  }

  /** The I/O thread may go by any read index it may load, and the writer may take any step at all. */
  lemma StepsAreFree(l: Log, k: nat, step: Step<Byte>)
    requires LogInv(l) && l.ring.Shaped()
    ensures l.todo != [] && l.ring.producer.PIdle? && l.ring.rSeen <= k < |l.ring.rs| ==>
              CanStep(l, LoadR(|l.todo[0]|, k))
    ensures !IsProducerStep(step) && Enabled(l.ring, step) ==> CanStep(l, step)
  {
    hide Inv;
  }

  lemma TailsStored(s: State<Byte>)
    requires Inv(s)
    ensures |s.ws| <= |s.invs|
  {
  }

  function Weight(pieces: seq<seq<Byte>>): nat {
    if pieces == [] then 0 else |pieces[0]| + 4 + Weight(pieces[1..])
  }

  /** How many steps the I/O thread still has to take at most to queue what it was given. */
  function StepsLeft(l: Log): int {
    Weight(l.todo) - (match l.ring.producer
                      case PIdle => 0
                      case PHold(_, _, pending) => 1 + |pending|
                      case PStoring(_, elements, _) => 2 + |elements|)
  }

  /** Queueing is wait-free: each step of the I/O thread brings it nearer to the end, and no step of the writer
      takes it further away. */
  lemma QueueingIsWaitFree(l: Log, step: Step<Byte>)
    requires LogInv(l) && CanStep(l, step)
    ensures 0 <= StepsLeft(LogStep(l, step))
    ensures if IsProducerStep(step) then StepsLeft(LogStep(l, step)) < StepsLeft(l)
            else StepsLeft(LogStep(l, step)) == StepsLeft(l)
  {
    hide Inv, Apply, LogStep;
    LogStepKeeps(l, step);
    if IsProducerStep(step) {
      StepBringsNearer(l, step);
    } else {
      WriterLeavesAlone(l, step);
    }
  }

  lemma StepBringsNearer(l: Log, step: Step<Byte>)
    requires OnPiece(l) && CanStep(l, step) && IsProducerStep(step)
    ensures StepsLeft(LogStep(l, step)) < StepsLeft(l)
  {
  }

  lemma WriterLeavesAlone(l: Log, step: Step<Byte>)
    requires CanStep(l, step) && !IsProducerStep(step)
    ensures StepsLeft(LogStep(l, step)) == StepsLeft(l)
  {
  }

  /** Every piece offered is queued, refused or still waiting: a refusal costs the piece that found no room and no
      other. */
  lemma RefusalCostsOnePiece(l: Log)
    requires LogInv(l)
    ensures |l.accepted| + l.refused + |l.todo| == |l.offered|
  {
  }

  // ---------------------------------------------------------------- queueing undisturbed

  /** A step of the I/O thread that loads the current read index if it loads one. */
  predicate Undisturbed(l: Log, step: Step<Byte>) {
    CanStep(l, step) && IsProducerStep(step) && (step.LoadR? ==> step.k == |l.ring.rs| - 1)
  }

  /** The ring as it is once the current piece, if one is under way, has been published. */
  function PieceThrough(l: Log): Ring<Byte>
    requires l.ring.Shaped()
  {
    var g := View(l.ring);
    match l.ring.producer
    case PIdle => g
    case PHold(offset, granted, _) =>
      if l.todo == [] || offset + |l.todo[0]| > |g.data| then g
      else g.Fill(offset, l.todo[0]).ReleaseWrite(|l.todo[0]|)
    case PStoring(next, _, _) => g.(w := next.off)
  }

  /** The pieces accepted by then, and those left. */
  function AcceptedThrough(l: Log): seq<seq<Byte>> {
    if l.ring.producer.PIdle? || l.todo == [] then l.accepted else l.accepted + [l.todo[0]]
  }

  function LeftThrough(l: Log): seq<seq<Byte>> {
    if l.ring.producer.PIdle? || l.todo == [] then l.todo else l.todo[1..]
  }

  /** Where queueing ends up if it is not disturbed. */
  function Destined(l: Log): QueryLog.Stored
    requires l.ring.Shaped() && QueryLog.NoGrant(PieceThrough(l))
  {
    var stored := QueryLog.StoreAll(PieceThrough(l), LeftThrough(l));
    stored.(accepted := AcceptedThrough(l) + stored.accepted)
  }

  lemma LoadKeepsDestiny(l: Log, step: Step<Byte>)
    requires LogInv(l) && Undisturbed(l, step) && step.LoadR?
    ensures LogStep(l, step).ring.Shaped() && QueryLog.NoGrant(PieceThrough(l))
    ensures QueryLog.NoGrant(PieceThrough(LogStep(l, step)))
    ensures Destined(LogStep(l, step)) == Destined(l)
  {
    hide Inv, QueryLog.Store, QueryLog.StoreAll, Ring.Valid, Ring.Contents, Ring.Fill, Ring.ReleaseWrite, InOrder;
    hide Ring.AcquireWrite, AfterLoadR, Flatten;
    var g, piece, l' := View(l.ring), l.todo[0], LogStep(l, step);
    ViewIsRing(l.ring);
    StepKeepsInv(l.ring, step);
    InvShaped(l'.ring);
    LoadIsAcquire(l.ring, |piece|);
    QueryLog.StoreAllFirst(g, l.todo);
    StoredByAcquire(g, piece);
    if l'.ring.producer.PIdle? {
      assert [] + QueryLog.StoreAll(g, l.todo[1..]).accepted == QueryLog.StoreAll(g, l.todo[1..]).accepted;
    } else {
      var rest := QueryLog.StoreAll(QueryLog.Store(g, piece).0, l.todo[1..]).accepted;
      assert l.accepted + [piece] + rest == l.accepted + ([piece] + rest);
    }
  }

  lemma StoredByAcquire(g: Ring<Byte>, piece: seq<Byte>)
    requires g.Valid()
    ensures var (g', offset) := g.AcquireWrite(|piece|);
            && (if offset.Some? then offset.value + |piece| <= |g.data| else g' == g)
            && QueryLog.Store(g, piece) ==
               if offset.None? then (g, false)
               else (g'.Fill(offset.value, piece).ReleaseWrite(|piece|), true)
  {
    hide Ring.Fill, Ring.ReleaseWrite;
  }

  lemma LoadIsAcquire(s: State<Byte>, n: nat)
    requires s.Shaped() && CanLoadR(s, n, |s.rs| - 1) && View(s).Valid()
    ensures var s' := AfterLoadR(s, n, |s.rs| - 1);
            && s'.Shaped() && |s'.data| == |s.data|
            && (View(s'), if s'.producer.PHold? then Some(s'.producer.offset) else None) == View(s).AcquireWrite(n)
            && (s'.producer.PHold? || s'.producer.PIdle?)
  {
    hide WriteGrant, Ring.Contents, Ring.Valid;
  }

  lemma CopyKeepsDestiny(l: Log, step: Step<Byte>)
    requires LogInv(l) && Undisturbed(l, step) && (step.CopyIn? || step.StoreI? || step.StoreW?)
    ensures LogStep(l, step).ring.Shaped() && PieceThrough(LogStep(l, step)) == PieceThrough(l)
    ensures AcceptedThrough(LogStep(l, step)) == AcceptedThrough(l)
    ensures LeftThrough(LogStep(l, step)) == LeftThrough(l)
  {
    hide Inv, LapsAfter, NextW, IsSublist, Flatten, WriteIndexes;
    var p, piece := l.ring.producer, l.todo[0];
    match step
    case CopyIn(x) =>
      FillOverwrites(l.ring, piece);
    case StoreI(m) =>
      StoreIIsRelease(l.ring, piece);
    case StoreW =>
      StoreWShows(l.ring);
  }

  lemma FillOverwrites(s: State<Byte>, piece: seq<Byte>)
    requires Inv(s) && CanCopyIn(s) && |piece| == s.producer.granted
    ensures var o, j := s.producer.offset, |s.producer.pending|;
            var s' := AfterCopyIn(s, piece[j]);
            && s'.Shaped() && |s'.data| == |s.data| && o + |piece| <= |s.data|
            && View(s').Fill(o, piece) == View(s).Fill(o, piece)
  {
    hide Memory, Tails, Ordered, Before, ConsumerOk, Accounts, Flatten, Histories;
    var o, j := s.producer.offset, |s.producer.pending|;
    GrantAvoidsUnread(s, o + |piece| - 1);
    UpdateInside(s.data, o, |piece|, o + j, piece[j]);
  }

  lemma UpdateInside(data: seq<Byte>, o: nat, n: nat, at: nat, x: Byte)
    requires o <= at < o + n <= |data|
    ensures data[at := x][..o] == data[..o] && data[at := x][o + n..] == data[o + n..]
  {
  }

  lemma StoreIIsRelease(s: State<Byte>, piece: seq<Byte>)
    requires Inv(s) && s.producer.PHold? && s.producer.pending == piece && s.producer.granted == |piece|
    ensures s.Shaped() && CanStoreI(s, |piece|) && s.producer.offset + |piece| <= |s.data|
    ensures var s' := AfterStoreI(s, |piece|);
            && s'.Shaped() && s'.producer.PStoring?
            && View(s').(w := s'.producer.next.off) == View(s).Fill(s.producer.offset, piece).ReleaseWrite(|piece|)
  {
    hide Memory, Tails, Ordered, Before, ConsumerOk, Accounts, Flatten, Histories;
    var o := s.producer.offset;
    assert o + |piece| <= |s.data| && s.data[o..o + |piece|] == piece;
    FillWithItself(s.data, o, piece);
  }

  lemma FillWithItself(data: seq<Byte>, o: nat, piece: seq<Byte>)
    requires o + |piece| <= |data| && data[o..o + |piece|] == piece
    ensures data[..o] + piece + data[o + |piece|..] == data
  {
  }

  lemma StoreWShows(s: State<Byte>)
    requires Inv(s) && s.producer.PStoring?
    ensures s.Shaped() && AfterStoreW(s).Shaped()
    ensures View(AfterStoreW(s)) == View(s).(w := s.producer.next.off)
  {
    hide LapsAfter;
    StoreWKeeps(s);
  }

  ghost predicate UndisturbedRun(l: Log, steps: seq<Step<Byte>>, end: Log)
    decreases |steps|
  {
    if steps == [] then l == end
    else Undisturbed(l, steps[0]) && UndisturbedRun(LogStep(l, steps[0]), steps[1..], end)
  }

  lemma {:induction false} RunKeepsDestiny(l: Log, steps: seq<Step<Byte>>, end: Log)
    requires LogInv(l) && QueryLog.NoGrant(PieceThrough(l)) && UndisturbedRun(l, steps, end)
    ensures LogInv(end) && QueryLog.NoGrant(PieceThrough(end)) && Destined(end) == Destined(l)
    decreases |steps|
  {
    hide Inv, OnPiece, InOrder, Follows, LogStep, Destined, PieceThrough, QueryLog.NoGrant;
    if steps != [] {
      LogStepKeeps(l, steps[0]);
      StepKeepsDestiny(l, steps[0]);
      RunKeepsDestiny(LogStep(l, steps[0]), steps[1..], end);
    }
  }

  lemma StepKeepsDestiny(l: Log, step: Step<Byte>)
    requires LogInv(l) && Undisturbed(l, step) && QueryLog.NoGrant(PieceThrough(l))
    ensures LogStep(l, step).ring.Shaped() && QueryLog.NoGrant(PieceThrough(LogStep(l, step)))
    ensures Destined(LogStep(l, step)) == Destined(l)
  {
    hide Inv, OnPiece, InOrder, LogStep, PieceThrough, QueryLog.NoGrant, QueryLog.StoreAll;
    if step.LoadR? {
      LoadKeepsDestiny(l, step);
    } else {
      CopyKeepsDestiny(l, step);
    }
  }

  /** If the writer does not interfere, queueing messages step by step does what queueing them one after the other
      does: the same pieces go in, a refused one costs itself and nothing else, and the ring ends up the same. */
  lemma UndisturbedIsSequential(l: Log, steps: seq<Step<Byte>>, end: Log)
    requires LogInv(l) && l.ring.producer.PIdle? && UndisturbedRun(l, steps, end) && Idle(end)
    ensures QueryLog.NoGrant(View(l.ring)) && end.ring.Shaped()
    ensures var stored := QueryLog.StoreAll(View(l.ring), l.todo);
            && View(end.ring) == stored.ring
            && end.accepted == l.accepted + stored.accepted
            && end.refused == l.refused + |l.todo| - |stored.accepted|
  {
    hide Inv, InOrder, QueryLog.Store, IsSublist, Flatten, LogStep;
    ViewIsRing(l.ring);
    RunKeepsDestiny(l, steps, end);
    InvShaped(l.ring);
    InvShaped(end.ring);
    assert end.accepted + [] == end.accepted;
    RefusalCostsOnePiece(l);
    RefusalCostsOnePiece(end);
    SameOffered(l, steps, end);
  }

  lemma {:induction false} SameOffered(l: Log, steps: seq<Step<Byte>>, end: Log)
    requires UndisturbedRun(l, steps, end)
    ensures end.offered == l.offered
    decreases |steps|
  {
    if steps != [] {
      SameOffered(LogStep(l, steps[0]), steps[1..], end);
    }
  }
}
