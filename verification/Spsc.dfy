/** The bipartite buffer shared by one producer and one consumer thread. Every load and store of a shared
    index and every copy of an element is a step of its own, and the steps of the two threads interleave
    freely. A load of an index owned by the other thread may return any value that thread has stored since
    the one the loader saw last, so loaded indices may be stale on arrival as well as later
    (src/io/bipartite_buf.hpp:79-96, src/io/bipartite_buf_impl.hpp:60-185). */
module Spsc {
  import opened Common
  import opened Rings

  /** An index together with the number of times it has returned to the start of the array. The program
      stores and compares `off` only; `lap` is bookkeeping that no step consults. */
  datatype Pos = Pos(lap: nat, off: nat)

  predicate Le(a: Pos, b: Pos) {
    a.lap < b.lap || (a.lap == b.lap && a.off <= b.off)
  }

  datatype Producer<T> =
    | PIdle
    | PHold(offset: nat, granted: nat, pending: seq<T>)
    | PStoring(next: Pos, elements: seq<T>, wrapped: bool)

  datatype Consumer<T> =
    | CIdle
    | CSawW(w: nat)
    | CHold(offset: nat, length: int, taken: seq<T>)

  /** Shared memory, the two threads, and the history of the run.
      `rs`, `ws`, `invs` list every value stored to the read, write and invalidate index, newest last;
      `rSeen`, `wSeen` mark the newest read index the producer and write index the consumer have loaded.
      `laps`, `published` and `consumed` record what was written in each pass over the array, what was
      released by the producer, and what the consumer copied out and released. */
  datatype State<T> = State(
    data: seq<T>,
    rs: seq<Pos>, ws: seq<Pos>, invs: seq<nat>,
    rSeen: nat, wSeen: nat,
    writeWrapped: bool, readWrapped: bool,
    producer: Producer<T>, consumer: Consumer<T>,
    laps: seq<seq<T>>, published: seq<T>, consumed: seq<T>)
  {
    predicate Shaped() {
      && |data| > 2 && rs != [] && ws != [] && invs != [] && laps != []
      && rSeen < |rs| && wSeen < |ws|
      && (forall k :: 0 <= k < |rs| ==> rs[k].off < |data|)
      && (forall k :: 0 <= k < |ws| ==> ws[k].off < |data|)
    }

    /** The current read index, write index and invalidate index. */
    function R(): Pos requires Shaped() { Last(rs) }
    function W(): Pos requires Shaped() { Last(ws) }
    function I(): nat requires Shaped() { Last(invs) }
    /** The oldest read index the producer, and write index the consumer, may still load. */
    function R0(): Pos requires Shaped() { rs[rSeen] }
    function W0(): Pos requires Shaped() { ws[wSeen] }
  }

  function Init<T>(data: seq<T>): State<T> {
    State(data, [Pos(0, 0)], [Pos(0, 0)], [0], 0, 0, false, false, PIdle, CIdle, [[]], [], [])
  }

  datatype Step<T> =
    | LoadR(n: nat, k: nat)      // write_acquire(n), its load of the read index returning rs[k]
    | CopyIn(x: T)               // the producer stores one element into the next granted cell
    | AbandonWrite               // the producer drops its grant without a release
    | StoreI(m: nat)             // write_release(m) up to its store of the invalidate index
    | StoreW                     // the store of the write index that ends write_release
    | LoadW(k: nat)              // read_acquire, its load of the write index returning ws[k]
    | LoadI(k: nat)              // the load of the invalidate index in read_acquire, returning invs[k]
    | CopyOut                    // the consumer copies the next element of its region
    | AbandonRead                // the consumer drops its region without a release
    | StoreR(m: nat)             // read_release(m)

  predicate IsProducerStep<T>(step: Step<T>) {
    step.LoadR? || step.CopyIn? || step.AbandonWrite? || step.StoreI? || step.StoreW?
  }

  /** When each step may be taken. A producer that left a wrapped grant unreleased asks again only for nothing or
      for a size the run at the write index cannot hold, as every caller with a fixed size does. The load of the
      invalidate index is relaxed; it returns nothing older than what came with the loaded write index. */
  predicate CanLoadR<T>(s: State<T>, n: nat, k: nat)
    requires s.Shaped()
  {
    && s.producer.PIdle? && s.rSeen <= k < |s.rs|
    && (s.writeWrapped ==> n == 0 || n > |s.data| - s.W().off)
  }

  predicate CanCopyIn<T>(s: State<T>) {
    && s.producer.PHold? && |s.producer.pending| < s.producer.granted
    && s.producer.offset + |s.producer.pending| < |s.data|
  }

  predicate CanStoreI<T>(s: State<T>, m: nat) {
    s.producer.PHold? && m <= |s.producer.pending|
  }

  predicate CanLoadW<T>(s: State<T>, k: nat) {
    s.consumer.CIdle? && s.wSeen <= k < |s.ws|
  }

  predicate CanLoadI<T>(s: State<T>, k: nat) {
    s.consumer.CSawW? && s.wSeen <= k < |s.invs|
  }

  predicate CanCopyOut<T>(s: State<T>) {
    && s.consumer.CHold? && |s.consumer.taken| < s.consumer.length
    && s.consumer.offset + |s.consumer.taken| < |s.data|
  }

  predicate CanStoreR<T>(s: State<T>, m: nat) {
    s.consumer.CHold? && m <= |s.consumer.taken|
  }

  predicate Enabled<T>(s: State<T>, step: Step<T>)
    requires s.Shaped()
  {
    match step
    case LoadR(n, k) => CanLoadR(s, n, k)
    case CopyIn(_) => CanCopyIn(s)
    case AbandonWrite => s.producer.PHold?
    case StoreI(m) => CanStoreI(s, m)
    case StoreW => s.producer.PStoring?
    case LoadW(k) => CanLoadW(s, k)
    case LoadI(k) => CanLoadI(s, k)
    case CopyOut => CanCopyOut(s)
    case AbandonRead => s.consumer.CHold?
    case StoreR(m) => CanStoreR(s, m)
  }

  function NextW(size: nat, w: Pos, wrapped: bool, m: nat): Pos {
    var off := WriteIndexes(size, w.off, 0, wrapped, m).w;
    Pos(if wrapped || w.off + m == size then w.lap + 1 else w.lap, off)
  }

  function NextR(size: nat, r: Pos, wrapped: bool, m: nat): Pos {
    Pos(if wrapped || r.off + m == size then r.lap + 1 else r.lap, ReadIndex(size, r.off, wrapped, m))
  }

  /** The record of the passes over the array once `elements` are published. */
  function LapsAfter<T>(laps: seq<seq<T>>, size: nat, elements: seq<T>, wrapped: bool): seq<seq<T>>
    requires laps != []
  {
    if wrapped then laps + [elements]
    else
      var grown := laps[|laps| - 1 := Last(laps) + elements];
      if |Last(grown)| == size then grown + [[]] else grown
  }

  function AfterLoadR<T>(s: State<T>, n: nat, k: nat): State<T>
    requires s.Shaped() && CanLoadR(s, n, k)
  {
    match WriteGrant(|s.data|, s.W().off, s.rs[k].off, n)
    case None => s.(rSeen := k)
    case Some(g) => s.(rSeen := k, producer := PHold(g.offset, n, []), writeWrapped := s.writeWrapped || g.wrapped)
  }

  function AfterCopyIn<T>(s: State<T>, x: T): State<T>
    requires CanCopyIn(s)
  {
    var p := s.producer;
    s.(data := s.data[p.offset + |p.pending| := x], producer := p.(pending := p.pending + [x]))
  }

  function AfterStoreI<T>(s: State<T>, m: nat): State<T>
    requires s.Shaped() && CanStoreI(s, m)
  {
    s.(invs := s.invs + [WriteIndexes(|s.data|, s.W().off, s.I(), s.writeWrapped, m).i],
       producer := PStoring(NextW(|s.data|, s.W(), s.writeWrapped, m), s.producer.pending[..m], s.writeWrapped),
       writeWrapped := false)
  }

  function AfterStoreW<T>(s: State<T>): State<T>
    requires s.Shaped() && s.producer.PStoring?
  {
    var p := s.producer;
    s.(ws := s.ws + [p.next], producer := PIdle,
       laps := LapsAfter(s.laps, |s.data|, p.elements, p.wrapped),
       published := s.published + p.elements)
  }

  function AfterLoadW<T>(s: State<T>, k: nat): State<T>
    requires s.Shaped() && CanLoadW(s, k)
  {
    var r, w := s.R().off, s.ws[k].off;
    if r == w then s.(wSeen := k)
    else if r < w then s.(wSeen := k, consumer := CHold(r, w - r, []))
    else s.(wSeen := k, consumer := CSawW(w))
  }

  function AfterLoadI<T>(s: State<T>, k: nat): State<T>
    requires s.Shaped() && CanLoadI(s, k)
  {
    var r, i := s.R().off, s.invs[k];
    if r == i then s.(readWrapped := true, consumer := CHold(0, s.consumer.w, []))
    else s.(consumer := CHold(r, i - r, []))
  }

  function AfterCopyOut<T>(s: State<T>): State<T>
    requires CanCopyOut(s)
  {
    var c := s.consumer;
    s.(consumer := c.(taken := c.taken + [s.data[c.offset + |c.taken|]]))
  }

  function AfterStoreR<T>(s: State<T>, m: nat): State<T>
    requires s.Shaped() && CanStoreR(s, m)
  {
    s.(rs := s.rs + [NextR(|s.data|, s.R(), s.readWrapped, m)], readWrapped := false,
       consumer := CIdle, consumed := s.consumed + s.consumer.taken[..m])
  }

  function Apply<T>(s: State<T>, step: Step<T>): State<T>
    requires s.Shaped() && Enabled(s, step)
  {
    match step
    case LoadR(n, k) => AfterLoadR(s, n, k)
    case CopyIn(x) => AfterCopyIn(s, x)
    case AbandonWrite => s.(producer := PIdle)
    case StoreI(m) => AfterStoreI(s, m)
    case StoreW => AfterStoreW(s)
    case LoadW(k) => AfterLoadW(s, k)
    case LoadI(k) => AfterLoadI(s, k)
    case CopyOut => AfterCopyOut(s)
    case AbandonRead => s.(consumer := CIdle)
    case StoreR(m) => AfterStoreR(s, m)
  }

  // ---------------------------------------------------------------- the invariant

  ghost predicate Sorted(ps: seq<Pos>) {
    forall a, b :: 0 <= a <= b < |ps| ==> Le(ps[a], ps[b])
  }

  /** A writer at `w` is less than one pass ahead of a reader at `r`. */
  predicate Within(r: Pos, w: Pos) {
    Le(r, w) && (w.lap == r.lap || (w.lap == r.lap + 1 && w.off < r.off))
  }

  predicate OnLap<T>(laps: seq<seq<T>>, p: Pos) {
    p.lap < |laps| && p.off <= |laps[p.lap]|
  }

  ghost predicate OnLaps<T>(laps: seq<seq<T>>, ps: seq<Pos>) {
    forall k :: 0 <= k < |ps| ==> OnLap(laps, ps[k])
  }

  ghost predicate LapsFit<T>(laps: seq<seq<T>>, size: nat) {
    forall l :: 0 <= l < |laps| ==> |laps[l]| <= size
  }

  /** The write index is the end of the last lap. */
  predicate IsEnd<T>(laps: seq<seq<T>>, p: Pos) {
    |laps| == p.lap + 1 && p.off == |laps[p.lap]|
  }

  function PrevEnd<T>(laps: seq<seq<T>>, lap: nat): nat {
    if 0 < lap <= |laps| then |laps[lap - 1]| else 0
  }

  /** The elements at positions before `p`, in the order they were written. */
  function Before<T>(laps: seq<seq<T>>, p: Pos): seq<T>
    requires OnLap(laps, p)
  {
    Flatten(laps[..p.lap]) + laps[p.lap][..p.off]
  }

  ghost predicate Histories<T>(s: State<T>)
    requires s.Shaped()
  {
    && Sorted(s.rs) && Sorted(s.ws)
    && OnLaps(s.laps, s.rs) && OnLaps(s.laps, s.ws)
    && LapsFit(s.laps, |s.data|)
  }

  /** oldest read index in play <= read index <= oldest write index in play <= write index, less than a pass apart. */
  ghost predicate Ordered(r0: Pos, r: Pos, w0: Pos, w: Pos) {
    Le(r0, r) && Le(r, w0) && Le(w0, w) && Within(r0, w)
  }

  /** Every cell the producer must not touch still holds what was published there. */
  ghost predicate Memory<T>(data: seq<T>, laps: seq<seq<T>>, r0: Pos, w: Pos) {
    && OnLap(laps, r0) && OnLap(laps, w)
    && |laps[r0.lap]| <= |data| && |laps[w.lap]| <= |data|
    && (forall k :: r0.off <= k < |laps[r0.lap]| ==> data[k] == laps[r0.lap][k])
    && (w.lap != r0.lap ==> forall k :: 0 <= k < w.off ==> data[k] == laps[w.lap][k])
  }

  /** The invalidate index stored with a write index is the end of the previous lap unless the current lap
      has already outgrown it. */
  predicate TailAt<T>(laps: seq<seq<T>>, w: Pos, i: nat) {
    i == Max(PrevEnd(laps, w.lap), w.off)
  }

  ghost predicate Tails<T>(laps: seq<seq<T>>, ws: seq<Pos>, invs: seq<nat>) {
    |ws| <= |invs| && forall k :: 0 <= k < |ws| ==> TailAt(laps, ws[k], invs[k])
  }

  /** `n` cells from where the next release publishes are free whatever read index the producer goes by. */
  predicate CanPublish(size: nat, r0: Pos, w: Pos, wrapped: bool, n: nat) {
    if wrapped then r0.lap == w.lap && n < r0.off <= w.off
    else r0.off < size && w.off < size && n <= LinearFree(size, w.off, r0.off)
  }

  function PublishOffset(w: Pos, wrapped: bool): nat {
    if wrapped then 0 else w.off
  }

  ghost predicate Holds<T>(data: seq<T>, offset: nat, elements: seq<T>) {
    offset + |elements| <= |data| && data[offset..offset + |elements|] == elements
  }

  ghost predicate ProducerOk<T>(data: seq<T>, r0: Pos, w: Pos, invs: seq<nat>, stores: nat, writeWrapped: bool,
                                p: Producer<T>)
  {
    match p
    case PIdle => |invs| == stores
    case PHold(offset, granted, pending) =>
      && |invs| == stores
      && CanPublish(|data|, r0, w, writeWrapped, granted)
      && (granted > 0 ==> offset == PublishOffset(w, writeWrapped)) && offset <= |data|
      && |pending| <= granted && Holds(data, offset, pending)
    case PStoring(next, elements, wrapped) =>
      && |invs| == stores + 1 && stores > 0 && !writeWrapped
      && CanPublish(|data|, r0, w, wrapped, |elements|) && Holds(data, PublishOffset(w, wrapped), elements)
      && next == NextW(|data|, w, wrapped, |elements|)
      && invs[stores] == WriteIndexes(|data|, w.off, invs[stores - 1], wrapped, |elements|).i
  }

  /** The position the consumer's next release starts from. */
  function ReadStart(r: Pos, readWrapped: bool): Pos {
    if readWrapped then Pos(r.lap + 1, 0) else r
  }

  ghost predicate ConsumerOk<T>(laps: seq<seq<T>>, r: Pos, w0: Pos, readWrapped: bool, c: Consumer<T>) {
    && (readWrapped ==> w0.lap == r.lap + 1 && r.lap < |laps| && r.off == |laps[r.lap]|)
    && match c
       case CIdle => true
       case CSawW(w) => w == w0.off && w0.lap == r.lap + 1
       case CHold(offset, length, taken) =>
         var start := ReadStart(r, readWrapped);
         && offset == start.off && |taken| <= length
         && Le(Pos(start.lap, offset + length), w0)
         && OnLap(laps, Pos(start.lap, offset + length))
         && taken == laps[start.lap][offset..offset + |taken|]
  }

  ghost predicate Accounts<T>(laps: seq<seq<T>>, r: Pos, published: seq<T>, consumed: seq<T>) {
    OnLap(laps, r) && published == Flatten(laps) && consumed == Before(laps, r)
  }

  ghost predicate Inv<T>(s: State<T>) {
    && s.Shaped() && Histories(s) && IsEnd(s.laps, s.W()) && Ordered(s.R0(), s.R(), s.W0(), s.W())
    && Memory(s.data, s.laps, s.R0(), s.W())
    && Tails(s.laps, s.ws, s.invs)
    && ProducerOk(s.data, s.R0(), s.W(), s.invs, |s.ws|, s.writeWrapped, s.producer)
    && (s.writeWrapped ==> s.R0().lap == s.W().lap && 2 <= s.R0().off)
    && ConsumerOk(s.laps, s.R(), s.W0(), s.readWrapped, s.consumer)
    && Accounts(s.laps, s.R(), s.published, s.consumed)
  }

  lemma InitInv<T>(data: seq<T>)
    requires |data| > 2
    ensures Inv(Init(data))
  {
    hide LinearFree, Within;
    var s := Init(data);
    assert s.Shaped() && Histories(s) && IsEnd(s.laps, s.W());
    assert Ordered(s.R0(), s.R(), s.W0(), s.W()) by {
      WithinItself(s.W());
    }
    assert Memory(s.data, s.laps, s.R0(), s.W());
    assert Tails(s.laps, s.ws, s.invs);
    assert ProducerOk(s.data, s.R0(), s.W(), s.invs, |s.ws|, s.writeWrapped, s.producer);
    assert ConsumerOk(s.laps, s.R(), s.W0(), s.readWrapped, s.consumer);
    assert Flatten<T>([[]]) == [] && Before(s.laps, s.R()) == [];
  }

  lemma WithinItself(p: Pos)
    ensures Within(p, p)
  {
  }

  // ---------------------------------------------------------------- each step keeps the invariant

  /** An index that a thread may load lies between the oldest and the newest one in play. */
  lemma Loadable(ps: seq<Pos>, seen: nat, k: nat)
    requires Sorted(ps) && seen <= k < |ps|
    ensures Le(ps[seen], ps[k]) && Le(ps[k], ps[|ps| - 1])
  {
  }

  lemma FresherView<T>(data: seq<T>, laps: seq<seq<T>>, r0: Pos, r1: Pos, r: Pos, w0: Pos, w: Pos)
    requires Ordered(r0, r, w0, w) && Le(r0, r1) && Le(r1, r) && OnLap(laps, r1)
    requires Memory(data, laps, r0, w) && IsEnd(laps, w)
    ensures Ordered(r1, r, w0, w) && Memory(data, laps, r1, w)
  {
  }

  lemma GrantPublishes(size: nat, r: Pos, w: Pos, n: nat)
    requires r.off < size && w.off < size && Within(r, w)
    ensures match WriteGrant(size, w.off, r.off, n)
            case None => true
            case Some(g) => && CanPublish(size, r, w, g.wrapped, n) && g.offset == PublishOffset(w, g.wrapped)
                            && (g.wrapped ==> 2 <= r.off && r.lap == w.lap)
  {
  }

  lemma LoadRKeeps<T>(s: State<T>, n: nat, k: nat)
    requires Inv(s) && CanLoadR(s, n, k)
    ensures Inv(AfterLoadR(s, n, k))
  {
    hide Memory, TailAt, Before, ConsumerOk, Sorted, LapsFit;
    Loadable(s.rs, s.rSeen, k);
    assert OnLap(s.laps, s.rs[k]);
    FresherView(s.data, s.laps, s.R0(), s.rs[k], s.R(), s.W0(), s.W());
    GrantPublishes(|s.data|, s.rs[k], s.W(), n);
  }

  /** A producer that drops a wrapped grant may ask again for the same size whenever it likes: the wrap is
      remembered only with a size the run at the write index cannot hold, and that run stays as it is. */
  lemma SameSizeMayRetry<T>(s: State<T>, n: nat, k: nat)
    requires Inv(s) && CanLoadR(s, n, k)
    ensures AfterLoadR(s, n, k).writeWrapped ==> n == 0 || n > |s.data| - s.W().off
  {
    Loadable(s.rs, s.rSeen, k);
  }

  lemma CopyInKeeps<T>(s: State<T>, x: T)
    requires Inv(s) && CanCopyIn(s)
    ensures Inv(AfterCopyIn(s, x))
  {
    hide TailAt, Before, ConsumerOk, Sorted, OnLaps, LapsFit, Holds;
    StoreNext(s.data, s.producer.offset, s.producer.pending, x);
  }

  lemma StoreNext<T>(data: seq<T>, offset: nat, pending: seq<T>, x: T)
    requires Holds(data, offset, pending) && offset + |pending| < |data|
    ensures Holds(data[offset + |pending| := x], offset, pending + [x])
  {
    var data' := data[offset + |pending| := x];
    assert data'[offset..offset + |pending|] == data[offset..offset + |pending|];
    assert data'[offset..offset + |pending| + 1] == data'[offset..offset + |pending|] + [x];
  }

  lemma StoreIKeeps<T>(s: State<T>, m: nat)
    requires Inv(s) && CanStoreI(s, m)
    ensures Inv(AfterStoreI(s, m))
  {
    hide Memory, TailAt, Ordered, Before, ConsumerOk, Sorted, OnLaps, LapsFit, WriteIndexes;
    var s', p := AfterStoreI(s, m), s.producer;
    assert s.data[p.offset..p.offset + m] == s.data[p.offset..p.offset + |p.pending|][..m];
  }

  lemma LoadWKeeps<T>(s: State<T>, k: nat)
    requires Inv(s) && CanLoadW(s, k)
    ensures Inv(AfterLoadW(s, k))
  {
    hide Memory, TailAt, Before, ProducerOk, Ordered, ConsumerOk;
    Loadable(s.ws, s.wSeen, k);
    FresherWriteView(s.laps, s.R0(), s.R(), s.W0(), s.ws[k], s.W(), s.readWrapped);
  }

  /** What the consumer concludes from comparing offsets alone is right about the positions. */
  lemma FresherWriteView<T>(laps: seq<seq<T>>, r0: Pos, r: Pos, w0: Pos, w1: Pos, w: Pos, readWrapped: bool)
    requires Ordered(r0, r, w0, w) && Le(w0, w1) && Le(w1, w)
    requires OnLap(laps, r) && OnLap(laps, w1)
    requires ConsumerOk(laps, r, w0, readWrapped, CIdle)
    ensures Ordered(r0, r, w1, w)
    ensures ConsumerOk(laps, r, w1, readWrapped,
                       if r.off == w1.off then CIdle
                       else if r.off < w1.off then CHold(r.off, w1.off - r.off, [])
                       else CSawW(w1.off))
  {
  }

  lemma LoadIKeeps<T>(s: State<T>, k: nat)
    requires Inv(s) && CanLoadI(s, k)
    ensures Inv(AfterLoadI(s, k))
  {
    hide Memory, TailAt, Sorted, OnLaps, LapsFit, Before, ProducerOk;
    TailIsFixed(s, s.wSeen, k);
  }

  /** Once a write index one pass ahead of the reader is out, every invalidate index stored with it or later
      is the true end of the lap being read, including one stored for a write index still to come. */
  lemma TailIsFixed<T>(s: State<T>, j: nat, k: nat)
    requires Inv(s) && j < |s.ws| && j <= k < |s.invs| && s.ws[j].lap == s.R().lap + 1
    ensures s.R().lap < |s.laps| && s.invs[k] == |s.laps[s.R().lap]|
  {
    var last := |s.ws| - 1;
    Loadable(s.ws, j, last);
    assert OnLap(s.laps, s.R());
    if k <= last {
      Loadable(s.ws, j, k);
      assert TailAt(s.laps, s.ws[k], s.invs[k]);
    } else {
      assert TailAt(s.laps, s.ws[last], s.invs[last]);
    }
  }

  lemma CopyOutKeeps<T>(s: State<T>)
    requires Inv(s) && CanCopyOut(s)
    ensures Inv(AfterCopyOut(s))
  {
    hide Memory, TailAt, Ordered, Sorted, OnLaps, LapsFit, Before, ProducerOk;
    var c, s' := s.consumer, AfterCopyOut(s);
    var l := s.laps[ReadStart(s.R(), s.readWrapped).lap];
    RegionIsPublished(s, c.offset + |c.taken|);
    assert s'.consumer.taken == l[c.offset..c.offset + |c.taken| + 1];
  }

  /** A cell of the consumer's region holds what was published there. */
  lemma RegionIsPublished<T>(s: State<T>, cell: nat)
    requires Inv(s) && s.consumer.CHold?
    requires s.consumer.offset <= cell < s.consumer.offset + s.consumer.length
    ensures ReadStart(s.R(), s.readWrapped).lap < |s.laps|
    ensures cell < |s.data| && cell < |s.laps[ReadStart(s.R(), s.readWrapped).lap]|
    ensures s.data[cell] == s.laps[ReadStart(s.R(), s.readWrapped).lap][cell]
  {
  }

  lemma StoreRKeeps<T>(s: State<T>, m: nat)
    requires Inv(s) && CanStoreR(s, m)
    ensures Inv(AfterStoreR(s, m))
  {
    hide Memory, TailAt, Sorted, OnLap, ProducerOk;
    var c, next := s.consumer, NextR(|s.data|, s.R(), s.readWrapped, m);
    ReleasedStart(s, m);
    Snoc(s.laps, s.rs, next);
  }

  lemma Snoc<T>(laps: seq<seq<T>>, ps: seq<Pos>, p: Pos)
    requires Sorted(ps) && OnLaps(laps, ps) && ps != [] && Le(Last(ps), p) && OnLap(laps, p)
    ensures Sorted(ps + [p]) && OnLaps(laps, ps + [p])
  {
  }

  lemma ReleasedStart<T>(s: State<T>, m: nat)
    requires Inv(s) && CanStoreR(s, m)
    ensures var next := NextR(|s.data|, s.R(), s.readWrapped, m);
            && next.off < |s.data| && OnLap(s.laps, next)
            && Ordered(s.R0(), next, s.W0(), s.W())
            && Before(s.laps, next) == Before(s.laps, s.R()) + s.consumer.taken[..m]
  {
    hide Memory, Tails, ProducerOk, Sorted, Before;
    var start := ReadStart(s.R(), s.readWrapped);
    BeforeStart(s.laps, s.R(), s.readWrapped);
    BeforeGrows(s.laps, start, s.consumer.taken, m);
    if start.off + m == |s.data| {
      BeforeStart(s.laps, Pos(start.lap, start.off + m), true);
    }
  }

  lemma BeforeGrows<T>(laps: seq<seq<T>>, start: Pos, taken: seq<T>, m: nat)
    requires m <= |taken| && OnLap(laps, Pos(start.lap, start.off + |taken|))
    requires taken == laps[start.lap][start.off..start.off + |taken|]
    ensures Before(laps, Pos(start.lap, start.off + m)) == Before(laps, start) + taken[..m]
  {
    var l := laps[start.lap];
    assert l[..start.off + m] == l[..start.off] + taken[..m];
  }

  /** Standing at the end of a lap and standing at the start of the next is the same place in the stream. */
  lemma BeforeStart<T>(laps: seq<seq<T>>, r: Pos, wrapped: bool)
    requires OnLap(laps, r)
    requires wrapped ==> r.lap + 1 < |laps| && r.off == |laps[r.lap]|
    ensures OnLap(laps, ReadStart(r, wrapped)) && Before(laps, ReadStart(r, wrapped)) == Before(laps, r)
  {
    if wrapped {
      assert laps[..r.lap + 1] == laps[..r.lap] + [laps[r.lap]];
      FlattenSnoc(laps[..r.lap], laps[r.lap]);
    }
  }

  // The store of the write index: `laps` grows to `more` at its end.

  ghost predicate Extends<T>(laps: seq<seq<T>>, more: seq<seq<T>>) {
    && laps != [] && |laps| <= |more| <= |laps| + 1
    && laps[..|laps| - 1] == more[..|laps| - 1]
    && Last(laps) <= more[|laps| - 1]
  }

  lemma LapsAfterExtends<T>(laps: seq<seq<T>>, size: nat, w: Pos, elements: seq<T>, wrapped: bool)
    requires IsEnd(laps, w)
    requires wrapped ==> |elements| < size
    ensures var more := LapsAfter(laps, size, elements, wrapped);
            && Extends(laps, more)
            && IsEnd(more, NextW(size, w, wrapped, |elements|))
            && Flatten(more) == Flatten(laps) + elements
  {
    var more := LapsAfter(laps, size, elements, wrapped);
    if wrapped {
      FlattenSnoc(laps, elements);
    } else {
      var done, grown := laps[..w.lap], laps[w.lap] + elements;
      assert laps == done + [laps[w.lap]];
      assert laps[w.lap := grown] == done + [grown];
      FlattenSnoc(done, laps[w.lap]);
      FlattenSnoc(done, grown);
      FlattenSnoc(done + [grown], []);
    }
  }

  lemma ExtendsKeepsPosition<T>(laps: seq<seq<T>>, more: seq<seq<T>>, p: Pos)
    requires Extends(laps, more) && OnLap(laps, p)
    ensures OnLap(more, p) && Before(more, p) == Before(laps, p)
    ensures PrevEnd(more, p.lap) == PrevEnd(laps, p.lap)
  {
    assert more[..p.lap] == laps[..p.lap] by {
      assert more[..p.lap] == more[..|laps| - 1][..p.lap];
      assert laps[..p.lap] == laps[..|laps| - 1][..p.lap];
    }
    assert p.lap < |laps| - 1 ==> more[p.lap] == more[..|laps| - 1][p.lap] == laps[p.lap];
    if 0 < p.lap {
      assert more[p.lap - 1] == more[..p.lap][p.lap - 1] == laps[p.lap - 1];
    }
  }

  lemma PublishedMemory<T>(data: seq<T>, laps: seq<seq<T>>, r0: Pos, w: Pos, elements: seq<T>, wrapped: bool)
    requires |data| > 2 && IsEnd(laps, w) && Within(r0, w) && Memory(data, laps, r0, w)
    requires CanPublish(|data|, r0, w, wrapped, |elements|) && Holds(data, PublishOffset(w, wrapped), elements)
    requires LapsFit(laps, |data|)
    ensures var more, next := LapsAfter(laps, |data|, elements, wrapped), NextW(|data|, w, wrapped, |elements|);
            && LapsFit(more, |data|)
            && next.off < |data| && Le(w, next) && Within(r0, next) && Memory(data, more, r0, next)
  {
    hide Memory;
    PublishedPosition(|data|, r0, w, wrapped, |elements|);
    if wrapped {
      NextLapMemory(data, laps, r0, w, elements);
    } else {
      var end, grown := Pos(w.lap, w.off + |elements|), laps[w.lap := laps[w.lap] + elements];
      GrownMemory(data, laps, r0, w, elements);
      if end.off == |data| {
        assert Holds(data, 0, []);
        NextLapMemory(data, grown, r0, end, []);
      }
    }
  }

  lemma PublishedPosition(size: nat, r0: Pos, w: Pos, wrapped: bool, n: nat)
    requires size > 2 && Within(r0, w) && CanPublish(size, r0, w, wrapped, n) && w.off <= size
    ensures var next := NextW(size, w, wrapped, n);
            && next.off < size && Le(w, next) && Within(r0, next)
            && next == if wrapped then Pos(w.lap + 1, n)
                       else if w.off + n == size then Pos(w.lap + 1, 0)
                       else Pos(w.lap, w.off + n)
    ensures !wrapped ==> w.off + n <= size
    ensures wrapped || w.off + n == size ==> r0.lap == w.lap
  {
  }

  /** What was stored behind the write index extends the current lap. */
  lemma GrownMemory<T>(data: seq<T>, laps: seq<seq<T>>, r0: Pos, w: Pos, elements: seq<T>)
    requires IsEnd(laps, w) && Within(r0, w) && Memory(data, laps, r0, w) && Holds(data, w.off, elements)
    ensures Memory(data, laps[w.lap := laps[w.lap] + elements], r0, Pos(w.lap, w.off + |elements|))
  {
    forall k | w.off <= k < w.off + |elements|
      ensures data[k] == elements[k - w.off]
    {
      assert data[w.off..w.off + |elements|][k - w.off] == data[k];
    }
  }

  /** What was stored at the start of the array begins the next one. */
  lemma NextLapMemory<T>(data: seq<T>, laps: seq<seq<T>>, r0: Pos, w: Pos, elements: seq<T>)
    requires IsEnd(laps, w) && r0.lap == w.lap && Memory(data, laps, r0, w) && Holds(data, 0, elements)
    ensures Memory(data, laps + [elements], r0, Pos(w.lap + 1, |elements|))
  {
    forall k | 0 <= k < |elements|
      ensures data[k] == elements[k]
    {
      assert data[0..|elements|][k] == data[k];
    }
  }

  lemma PublishedTails<T>(laps: seq<seq<T>>, size: nat, ws: seq<Pos>, invs: seq<nat>, elements: seq<T>, wrapped: bool)
    requires ws != [] && |invs| == |ws| + 1 && Tails(laps, ws, invs) && OnLaps(laps, ws) && IsEnd(laps, Last(ws))
    requires wrapped ==> |elements| < size && |elements| <= Last(ws).off
    requires invs[|ws|] == WriteIndexes(size, Last(ws).off, invs[|ws| - 1], wrapped, |elements|).i
    requires LapsFit(laps, size)
    ensures Tails(LapsAfter(laps, size, elements, wrapped), ws + [NextW(size, Last(ws), wrapped, |elements|)], invs)
  {
    hide TailAt, WriteIndexes, NextW, LapsAfter, Extends, OnLap, LapsFit;
    var more, w := LapsAfter(laps, size, elements, wrapped), Last(ws);
    LapsAfterExtends(laps, size, w, elements, wrapped);
    forall k | 0 <= k < |ws|
      ensures TailAt(more, ws[k], invs[k])
    {
      assert OnLap(laps, ws[k]) && TailAt(laps, ws[k], invs[k]);
      EarlierTail(laps, more, ws[k], invs[k]);
    }
    assert TailAt(laps, w, invs[|ws| - 1]) && OnLap(laps, ws[|ws| - 1]);
    NewTail(laps, size, w, invs[|ws| - 1], elements, wrapped);
  }

  lemma EarlierTail<T>(laps: seq<seq<T>>, more: seq<seq<T>>, w: Pos, i: nat)
    requires Extends(laps, more) && OnLap(laps, w) && TailAt(laps, w, i)
    ensures TailAt(more, w, i)
  {
    ExtendsKeepsPosition(laps, more, w);
  }

  lemma NewTail<T>(laps: seq<seq<T>>, size: nat, w: Pos, i: nat, elements: seq<T>, wrapped: bool)
    requires IsEnd(laps, w) && TailAt(laps, w, i) && LapsFit(laps, size) && OnLap(laps, w)
    requires wrapped ==> |elements| < size && |elements| <= w.off
    ensures TailAt(LapsAfter(laps, size, elements, wrapped), NextW(size, w, wrapped, |elements|),
                   WriteIndexes(size, w.off, i, wrapped, |elements|).i)
  {
    hide Flatten;
    var more := LapsAfter(laps, size, elements, wrapped);
    LapsAfterExtends(laps, size, w, elements, wrapped);
    ExtendsKeepsPosition(laps, more, w);
    assert PrevEnd(laps, w.lap) <= size;
  }

  lemma PublishedRegion<T>(laps: seq<seq<T>>, more: seq<seq<T>>, r: Pos, w0: Pos, readWrapped: bool, c: Consumer<T>)
    requires Extends(laps, more) && OnLap(laps, r) && OnLap(laps, w0) && ConsumerOk(laps, r, w0, readWrapped, c)
    ensures ConsumerOk(more, r, w0, readWrapped, c)
  {
    assert readWrapped ==> more[r.lap] == more[..|laps| - 1][r.lap] == laps[r.lap];
    if c.CHold? {
      var start := ReadStart(r, readWrapped);
      ExtendsKeepsPosition(laps, more, Pos(start.lap, c.offset + c.length));
      assert start.lap < |laps| - 1 ==> more[start.lap] == more[..|laps| - 1][start.lap] == laps[start.lap];
      assert laps[start.lap][c.offset..c.offset + |c.taken|] == more[start.lap][c.offset..c.offset + |c.taken|];
    }
  }

  lemma StoreWKeeps<T>(s: State<T>)
    requires Inv(s) && s.producer.PStoring?
    ensures Inv(AfterStoreW(s))
  {
    hide Memory, TailAt, ConsumerOk, Before, LapsAfter, Extends, Sorted, OnLap, WriteIndexes;
    var s', p := AfterStoreW(s), s.producer;
    PublishedMemory(s.data, s.laps, s.R0(), s.W(), p.elements, p.wrapped);
    LapsAfterExtends(s.laps, |s.data|, s.W(), p.elements, p.wrapped);
    PublishedTails(s.laps, |s.data|, s.ws, s.invs, p.elements, p.wrapped);
    PublishedRegion(s.laps, s'.laps, s.R(), s.W0(), s.readWrapped, s.consumer);
    ExtendsKeepsPosition(s.laps, s'.laps, s.R());
    StillOnLaps(s.laps, s'.laps, s.rs);
    StillOnLaps(s.laps, s'.laps, s.ws);
    Snoc(s'.laps, s.ws, p.next);
  }

  lemma StillOnLaps<T>(laps: seq<seq<T>>, more: seq<seq<T>>, ps: seq<Pos>)
    requires Extends(laps, more) && OnLaps(laps, ps)
    ensures OnLaps(more, ps)
  {
    forall k | 0 <= k < |ps|
      ensures OnLap(more, ps[k])
    {
      ExtendsKeepsPosition(laps, more, ps[k]);
    }
  }

  // ---------------------------------------------------------------- every run

  lemma StepKeepsInv<T>(s: State<T>, step: Step<T>)
    requires Inv(s) && Enabled(s, step)
    ensures Inv(Apply(s, step))
  {
    hide Memory, Tails, Before, Ordered, Sorted, OnLaps, LapsFit;
    hide AfterLoadR, AfterCopyIn, AfterStoreI, AfterStoreW, AfterLoadW, AfterLoadI, AfterStoreR, AfterCopyOut;
    match step
    case LoadR(n, k) => LoadRKeeps(s, n, k);
    case CopyIn(x) => CopyInKeeps(s, x);
    case AbandonWrite =>
    case StoreI(m) => StoreIKeeps(s, m);
    case StoreW => StoreWKeeps(s);
    case LoadW(k) => LoadWKeeps(s, k);
    case LoadI(k) => LoadIKeeps(s, k);
    case CopyOut => CopyOutKeeps(s);
    case AbandonRead =>
    case StoreR(m) => StoreRKeeps(s, m);
  }

  /** Taking `steps` one after the other leads from `s` to `end`. */
  ghost predicate Run<T>(s: State<T>, steps: seq<Step<T>>, end: State<T>)
    decreases |steps|
  {
    if steps == [] then s == end
    else s.Shaped() && Enabled(s, steps[0]) && Run(Apply(s, steps[0]), steps[1..], end)
  }

  lemma {:induction false} RunKeepsInv<T>(s: State<T>, steps: seq<Step<T>>, end: State<T>)
    requires Inv(s) && Run(s, steps, end)
    ensures Inv(end)
    decreases |steps|
  {
    if steps != [] {
      StepKeepsInv(s, steps[0]);
      RunKeepsInv(Apply(s, steps[0]), steps[1..], end);
    }
  }

  /** `s` is reached from an empty buffer by some interleaving. */
  ghost predicate Reachable<T(!new)>(s: State<T>) {
    s.Shaped() && exists data, steps :: |data| > 2 && Run(Init(data), steps, s)
  }

  lemma ReachableInv<T(!new)>(s: State<T>)
    requires Reachable(s)
    ensures s.Shaped() && Inv(s) && |s.ws| <= |s.invs|
  {
    var data, steps :| |data| > 2 && Run(Init(data), steps, s);
    InitInv(data);
    RunKeepsInv(Init(data), steps, s);
  }

  lemma InvShaped<T>(s: State<T>)
    requires Inv(s)
    ensures s.Shaped()
  {
  }

  // ---------------------------------------------------------------- the queue

  /** The shared memory and the private flags as a ring value. */
  function View<T>(s: State<T>): Ring<T>
    requires s.Shaped()
  {
    Ring(s.data, s.R().off, s.W().off, s.I(), s.writeWrapped, s.readWrapped)
  }

  predicate IndexesOk<T>(s: State<T>)
    requires s.Shaped()
  {
    s.R().off <= s.W().off || s.R().off <= s.I() <= |s.data|
  }

  /** The unread elements, read straight off the shared memory. */
  function Queue<T>(s: State<T>): seq<T>
    requires s.Shaped()
  {
    if IndexesOk(s) then Unread(s.data, s.R().off, s.W().off, s.I()) else []
  }

  lemma RestOfLaps<T>(laps: seq<seq<T>>, r: Pos)
    requires OnLap(laps, r)
    ensures Flatten(laps) == Before(laps, r) + (laps[r.lap][r.off..] + Flatten(laps[r.lap + 1..]))
  {
    var l := laps[r.lap];
    assert laps == laps[..r.lap] + laps[r.lap..];
    FlattenConcat(laps[..r.lap], laps[r.lap..]);
    assert laps[r.lap..][1..] == laps[r.lap + 1..];
    assert l == l[..r.off] + l[r.off..];
  }

  lemma QueueIsRest<T>(s: State<T>)
    requires Inv(s)
    ensures IndexesOk(s) && s.published == s.consumed + Queue(s) && |Queue(s)| < |s.data|
  {
    RestOfLaps(s.laps, s.R());
    QueueIsOnLaps(s);
  }

  lemma QueueIsOnLaps<T>(s: State<T>)
    requires Inv(s)
    ensures IndexesOk(s) && |Queue(s)| < |s.data| && OnLap(s.laps, s.R())
    ensures Queue(s) == s.laps[s.R().lap][s.R().off..] + Flatten(s.laps[s.R().lap + 1..])
  {
    hide Before, ConsumerOk, ProducerOk, TailAt, Sorted, OnLaps, LapsFit, Flatten, Memory, Unread;
    var r, w := s.R(), s.W();
    RIsOnLap(s);
    MemoryAhead(s.data, s.laps, s.R0(), r, w);
    if r.lap == w.lap {
      NoLapAfter(s.laps, r.lap);
      UnreadOnLap(s.data, s.laps, r, w, s.I());
    } else {
      TailIsFixed(s, |s.ws| - 1, |s.invs| - 1);
      OneLapAfter(s.laps, r.lap);
      UnreadOnTwoLaps(s.data, s.laps, r, w, s.I());
    }
  }

  lemma UnreadOnLap<T>(data: seq<T>, laps: seq<seq<T>>, r: Pos, w: Pos, i: nat)
    requires IsEnd(laps, w) && r.lap == w.lap && r.off <= w.off <= |data|
    requires data[r.off..w.off] == laps[r.lap][r.off..]
    ensures Unread(data, r.off, w.off, i) == laps[r.lap][r.off..]
  {
  }

  lemma UnreadOnTwoLaps<T>(data: seq<T>, laps: seq<seq<T>>, r: Pos, w: Pos, i: nat)
    requires IsEnd(laps, w) && w.lap == r.lap + 1 && w.off < r.off <= i <= |data| && i == |laps[r.lap]|
    requires data[r.off..i] == laps[r.lap][r.off..] && data[..w.off] == laps[w.lap]
    ensures Unread(data, r.off, w.off, i) == laps[r.lap][r.off..] + laps[w.lap]
    ensures |Unread(data, r.off, w.off, i)| < |data|
  {
  }

  /** What memory holds from the reader's position up to the writer's. */
  lemma MemoryAhead<T>(data: seq<T>, laps: seq<seq<T>>, r0: Pos, r: Pos, w: Pos)
    requires Memory(data, laps, r0, w) && IsEnd(laps, w) && OnLap(laps, r)
    requires Le(r0, r) && Le(r, w) && Within(r0, w)
    ensures |laps[r.lap]| <= |data| && data[r.off..|laps[r.lap]|] == laps[r.lap][r.off..]
    ensures w.lap != r.lap ==> w.off <= |data| && data[..w.off] == laps[w.lap]
  {
  }

  lemma RIsOnLap<T>(s: State<T>)
    requires Inv(s)
    ensures OnLap(s.laps, s.R())
  {
  }

  lemma NoLapAfter<T>(laps: seq<seq<T>>, l: nat)
    requires |laps| == l + 1
    ensures Flatten(laps[l + 1..]) == []
  {
  }

  lemma OneLapAfter<T>(laps: seq<seq<T>>, l: nat)
    requires |laps| == l + 2
    ensures Flatten(laps[l + 1..]) == laps[l + 1]
  {
    var rest := laps[l + 1..];
    assert rest[1..] == [];
  }

  /** In every interleaving the elements consumed, followed by the ones still unread in memory, are the
      elements published: nothing is lost, repeated or reordered, and one cell always stays free. */
  lemma NothingLost<T(!new)>(s: State<T>)
    requires Reachable(s)
    ensures IndexesOk(s) && s.published == s.consumed + Queue(s) && |Queue(s)| < |s.data|
  {
    ReachableInv(s);
    QueueIsRest(s);
  }

  /** What a step releases into the queue, and what it takes out. */
  function Released<T>(s: State<T>, step: Step<T>): seq<T>
    requires s.Shaped() && Enabled(s, step)
  {
    if step.StoreW? then s.producer.elements else []
  }

  function Removed<T>(s: State<T>, step: Step<T>): seq<T>
    requires s.Shaped() && Enabled(s, step)
  {
    if step.StoreR? then s.consumer.taken[..step.m] else []
  }

  /** Every step leaves the queue alone, except that the store of the write index appends what was released
      and the store of the read index removes what the consumer copied out. */
  lemma StepRefinesQueue<T(!new)>(s: State<T>, step: Step<T>)
    requires Reachable(s) && Enabled(s, step)
    ensures Apply(s, step).Shaped()
    ensures Queue(s) + Released(s, step) == Removed(s, step) + Queue(Apply(s, step))
  {
    ReachableInv(s);
    StepKeepsInv(s, step);
    HistoryChange(s, step);
    QueueChange(s, Apply(s, step), Released(s, step), Removed(s, step));
  }

  lemma HistoryChange<T>(s: State<T>, step: Step<T>)
    requires s.Shaped() && Enabled(s, step)
    ensures Apply(s, step).published == s.published + Released(s, step)
    ensures Apply(s, step).consumed == s.consumed + Removed(s, step)
    ensures IsProducerStep(step) && !step.StoreI? ==> Apply(s, step).invs == s.invs
  {
    hide NextW, NextR, LapsAfter, WriteIndexes, WriteGrant, State.Shaped;
  }

  lemma QueueChange<T>(s: State<T>, s': State<T>, released: seq<T>, removed: seq<T>)
    requires Inv(s) && Inv(s')
    requires s'.published == s.published + released && s'.consumed == s.consumed + removed
    ensures Queue(s) + released == removed + Queue(s')
  {
    QueueIsRest(s);
    QueueIsRest(s');
    Balance(s.consumed, Queue(s), released, removed, Queue(s'));
  }

  lemma Balance<T>(consumed: seq<T>, before: seq<T>, released: seq<T>, removed: seq<T>, after: seq<T>)
    requires consumed + before + released == consumed + removed + after
    ensures before + released == removed + after
  {
    assert before + released == (consumed + before + released)[|consumed|..];
    assert removed + after == (consumed + removed + after)[|consumed|..];
  }

  /** The cells the producer may write: its grant while it fills it, and what it is about to publish. */
  predicate ProducerCell<T>(s: State<T>, cell: nat)
    requires s.Shaped()
  {
    match s.producer
    case PIdle => false
    case PHold(offset, granted, _) => offset <= cell < offset + granted
    case PStoring(_, elements, wrapped) =>
      PublishOffset(s.W(), wrapped) <= cell < PublishOffset(s.W(), wrapped) + |elements|
  }

  predicate ConsumerCell<T>(s: State<T>, cell: nat) {
    s.consumer.CHold? && s.consumer.offset <= cell < s.consumer.offset + s.consumer.length
  }

  lemma GrantAvoidsUnread<T>(s: State<T>, cell: nat)
    requires Inv(s) && ProducerCell(s, cell)
    ensures cell < |s.data| && !View(s).UnreadCell(cell)
  {
    hide Memory, Before, ConsumerOk, Accounts, Sorted, LapsFit, Tails;
    if s.W().lap == s.R().lap + 1 {
      TailIsFixed(s, |s.ws| - 1, |s.invs| - 1);
    }
  }

  lemma RegionIsUnread<T>(s: State<T>, cell: nat)
    requires Inv(s) && ConsumerCell(s, cell)
    ensures cell < |s.data| && View(s).UnreadCell(cell)
  {
    hide Memory, Before, ProducerOk, Accounts, Sorted, LapsFit, TailAt;
    RegionIsPublished(s, cell);
    if s.W().lap == s.R().lap + 1 {
      TailIsFixed(s, |s.ws| - 1, |s.invs| - 1);
    }
  }

  /** In every interleaving, and however stale the indices the two threads loaded, the producer's cells lie in
      the array and are disjoint from every unread cell and from the region the consumer holds. */
  lemma GrantIsPrivate<T(!new)>(s: State<T>, cell: nat)
    requires Reachable(s) && ProducerCell(s, cell)
    ensures cell < |s.data| && !View(s).UnreadCell(cell) && !ConsumerCell(s, cell)
  {
    ReachableInv(s);
    GrantAvoidsUnread(s, cell);
    if ConsumerCell(s, cell) {
      RegionIsUnread(s, cell);
    }
  }

  /** What the consumer has copied out so far is the front of the queue. */
  lemma TakenIsFront<T(!new)>(s: State<T>)
    requires Reachable(s) && s.consumer.CHold?
    ensures s.consumer.taken <= Queue(s)
  {
    hide Inv, Reachable, Queue, Flatten;
    ReachableInv(s);
    QueueIsOnLaps(s);
    var r, c := s.R(), s.consumer;
    TakenOnLap(s);
    if s.readWrapped {
      OneLapAfter(s.laps, r.lap);
      assert s.laps[r.lap][r.off..] == [];
    } else {
      assert s.laps[r.lap][r.off..r.off + |c.taken|] <= s.laps[r.lap][r.off..];
    }
  }

  /** It was copied from the reader's position on: the rest of a lap, or the start of the last one. */
  lemma TakenOnLap<T>(s: State<T>)
    requires Inv(s) && s.consumer.CHold?
    ensures var r, c := s.R(), s.consumer;
            && OnLap(s.laps, r)
            && if s.readWrapped then
                 && r.off == |s.laps[r.lap]| && |s.laps| == r.lap + 2 && |c.taken| <= |s.laps[r.lap + 1]|
                 && c.taken == s.laps[r.lap + 1][..|c.taken|]
               else
                 && r.off + |c.taken| <= |s.laps[r.lap]|
                 && c.taken == s.laps[r.lap][r.off..r.off + |c.taken|]
  {
    hide Memory, Tails, Before, ProducerOk, Sorted, LapsFit;
    RIsOnLap(s);
  }

  /** While the write index is behind the read index no step of the producer moves the invalidate index, and
      whichever value of it the consumer loads is where the unread tail ends. */
  lemma InvalidateIndexFixed<T(!new)>(s: State<T>, step: Step<T>)
    requires Reachable(s) && Enabled(s, step) && IsProducerStep(step)
    requires s.W().off < s.R().off
    ensures Apply(s, step).Shaped() && Apply(s, step).I() == s.I()
    ensures s.R().off <= s.I() <= |s.data|
  {
    hide Inv, Reachable, Queue, NextW, NextR, LapsAfter, WriteIndexes, WriteGrant;
    ReachableInv(s);
    QueueIsRest(s);
    HistoryChange(s, step);
    StepKeepsInv(s, step);
    InvShaped(Apply(s, step));
    if step.StoreI? {
      StoredTailIsTrue(s, step.m);
    }
  }

  lemma StoredTailIsTrue<T>(s: State<T>, m: nat)
    requires Inv(s) && CanStoreI(s, m) && s.W().off < s.R().off
    ensures WriteIndexes(|s.data|, s.W().off, s.I(), s.writeWrapped, m).i == s.I()
  {
    TailIsFixed(s, |s.ws| - 1, |s.invs| - 1);
    assert s.R0().lap == s.R().lap && m < s.R0().off - s.W().off;
  }

  lemma LoadedTailIsTrue<T(!new)>(s: State<T>, k: nat)
    requires Reachable(s) && Enabled(s, LoadI(k))
    ensures s.W().off < s.R().off && s.invs[k] == s.I()
  {
    hide Reachable, Memory, TailAt, Before, ProducerOk, Accounts, OnLaps, LapsFit;
    ReachableInv(s);
    Loadable(s.ws, s.wSeen, |s.ws| - 1);
    TailIsFixed(s, s.wSeen, k);
    TailIsFixed(s, s.wSeen, |s.invs| - 1);
  }

  /** No copy ever falls outside the array, so the bounds in the guards of the copy steps never hold one up. */
  lemma CopiesInBounds<T>(s: State<T>)
    requires Inv(s)
    ensures s.producer.PHold? && |s.producer.pending| < s.producer.granted ==> CanCopyIn(s)
    ensures s.consumer.CHold? && |s.consumer.taken| < s.consumer.length ==> CanCopyOut(s)
  {
    if s.producer.PHold? && |s.producer.pending| < s.producer.granted {
      GrantAvoidsUnread(s, s.producer.offset + |s.producer.pending|);
    }
    if s.consumer.CHold? && |s.consumer.taken| < s.consumer.length {
      RegionIsPublished(s, s.consumer.offset + |s.consumer.taken|);
    }
  }

  // ---------------------------------------------------------------- stale loads

  /** What the producer goes by if the read index it loads is `rs[k]`, and the consumer if the write index it loads
      is `ws[k]` and the invalidate index `invs[j]`. */
  function ProducerView<T>(s: State<T>, k: nat): Ring<T>
    requires s.Shaped() && k < |s.rs|
  {
    View(s).(r := s.rs[k].off, readWrapped := false)
  }

  function ConsumerView<T>(s: State<T>, k: nat, j: nat): Ring<T>
    requires s.Shaped() && k < |s.ws| && j < |s.invs|
  {
    View(s).(w := s.ws[k].off, i := s.invs[j], writeWrapped := false)
  }

  /** The region the consumer holds, if it holds one. */
  function Held<T>(s: State<T>): Option<Region>
    requires s.consumer.CHold? ==> s.consumer.length >= 0
  {
    if s.consumer.CHold? then Some(Region(s.consumer.offset, s.consumer.length)) else None
  }

  lemma ProducerViewIsRing<T>(s: State<T>, k: nat)
    requires Inv(s) && s.rSeen <= k < |s.rs| && s.producer.PIdle?
    ensures ProducerView(s, k).Valid()
  {
    hide Memory, Before, ConsumerOk, Accounts, Flatten, CanPublish;
    var last := |s.ws| - 1;
    Loadable(s.rs, s.rSeen, k);
    assert OnLap(s.laps, s.rs[k]) && TailAt(s.laps, s.ws[last], s.invs[last]);
  }

  /** In every interleaving the producer decides by the read index it has loaded, however old: it is refused
      exactly when neither the run at the write index nor the run at cell 0 has `n` free cells for a reader that
      stands there, and it goes to cell 0 only if the run at the write index is short. */
  lemma LoadRDecides<T(!new)>(s: State<T>, n: nat, k: nat)
    requires Reachable(s) && CanLoadR(s, n, k)
    ensures ProducerView(s, k).Valid()
    ensures var g, s' := ProducerView(s, k), AfterLoadR(s, n, k);
            && (s'.producer.PHold? <==> g.RunFits(g.w, n) || g.RunFits(0, n))
            && (s'.producer.PHold? ==> s'.producer == PHold(if g.RunFits(g.w, n) then g.w else 0, n, []))
            && (s'.writeWrapped <==> s.writeWrapped || (s'.producer.PHold? && !g.RunFits(g.w, n)))
            && s' == s.(rSeen := k, producer := s'.producer, writeWrapped := s'.writeWrapped)
  {
    hide Inv, Reachable, WriteGrant, Ring.RunFits, Ring.Valid;
    ReachableInv(s);
    ProducerViewIsRing(s, k);
    GrantExactly(ProducerView(s, k), n);
  }

  lemma ConsumerViewIsRing<T>(s: State<T>, k: nat, j: nat)
    requires Inv(s) && s.wSeen <= k < |s.ws| && k <= j < |s.invs|
    requires j == k || s.ws[k].lap == s.R().lap + 1
    ensures ConsumerView(s, k, j).Valid() && ConsumerView(s, k, j).Contents() <= Queue(s)
    ensures s.ws[k].lap == s.R().lap + 1 <==> s.ws[k].off < s.R().off
  {
    hide Before, Accounts, Flatten, CanPublish, Memory, ProducerOk, Unread;
    Loadable(s.ws, s.wSeen, k);
    RIsOnLap(s);
    QueueIsRest(s);
    assert OnLap(s.laps, s.ws[k]) && TailAt(s.laps, s.ws[k], s.invs[k]);
    if s.ws[k].lap == s.R().lap + 1 {
      TailIsFixed(s, k, j);
      TailIsFixed(s, k, |s.invs| - 1);
    } else if s.W().lap == s.R().lap + 1 {
      TailIsFixed(s, |s.ws| - 1, |s.invs| - 1);
    }
    EarlierWriteIsPrefix(s.data, s.R().off, s.ws[k].off, s.invs[j], s.W().off, s.I());
  }

  lemma EarlierWriteIsPrefix<T>(data: seq<T>, r: nat, w: nat, i: nat, w': nat, i': nat)
    requires r <= w <= w' <= |data| || (w' < r <= w <= i' <= |data|) || (w <= w' < r <= i == i' <= |data|)
    ensures Unread(data, r, w, i) <= Unread(data, r, w', i')
  {
    if r <= w <= w' {
      assert data[r..w] == data[r..w'][..w - r];
    } else if r <= w {
      assert data[r..w] == data[r..i'][..w - r];
    } else {
      assert data[..w] == data[..w'][..w];
    }
  }

  /** In every interleaving the consumer goes by the write index it has loaded, however old: it sees the front of
      the queue, the part that was published by then, and is offered what `read_acquire` offers of it, unless the
      writer had wrapped and it has to load the invalidate index first. */
  lemma LoadWDecides<T(!new)>(s: State<T>, k: nat)
    requires Reachable(s) && CanLoadW(s, k)
    ensures |s.ws| <= |s.invs|
    ensures var g, s' := ConsumerView(s, k, k), AfterLoadW(s, k);
            && g.Valid() && g.Contents() <= Queue(s)
            && s' == s.(wSeen := k, consumer := s'.consumer)
            && if g.w < g.r then s'.consumer == CSawW(g.w)
               else
                 && !s'.consumer.CSawW? && (s'.consumer.CHold? ==> s'.consumer.length >= 0 && s'.consumer.taken == [])
                 && g.AcquireRead() == (g, Held(s'))
  {
    hide Inv, Reachable, Queue, Ring.Contents, Ring.Valid;
    ReachableInv(s);
    InvReads(s, k);
  }

  lemma InvReads<T>(s: State<T>, k: nat)
    requires Inv(s) && CanLoadW(s, k)
    ensures |s.ws| <= |s.invs|
    ensures ConsumerView(s, k, k).Valid() && ConsumerView(s, k, k).Contents() <= Queue(s)
  {
    ConsumerViewIsRing(s, k, k);
  }

  /** So does the load of the invalidate index, whichever of the values it may return. */
  lemma LoadIDecides<T(!new)>(s: State<T>, k: nat)
    requires Reachable(s) && CanLoadI(s, k)
    ensures var g, s' := ConsumerView(s, s.wSeen, k), AfterLoadI(s, k);
            && g.Valid() && g.Contents() <= Queue(s)
            && s' == s.(readWrapped := s'.readWrapped, consumer := s'.consumer)
            && s'.consumer.CHold? && s'.consumer.length >= 0 && s'.consumer.taken == []
            && g.AcquireRead() == (g.(readWrapped := s'.readWrapped), Held(s'))
  {
    hide Inv, Reachable, Queue, Ring.Contents;
    ReachableInv(s);
    SeenWrapped(s, k);
  }

  lemma SeenWrapped<T>(s: State<T>, k: nat)
    requires Inv(s) && CanLoadI(s, k)
    ensures ConsumerView(s, s.wSeen, k).Valid() && ConsumerView(s, s.wSeen, k).Contents() <= Queue(s)
    ensures s.consumer.w == s.W0().off < s.R().off
  {
    ConsumerViewIsRing(s, s.wSeen, k);
  }

  /** Dropping a grant or a region leaves memory and both wrap flags as they are. */
  lemma AbandonIsSilent<T>(s: State<T>)
    requires s.Shaped()
    ensures s.producer.PHold? ==> Apply(s, AbandonWrite).Shaped() && View(Apply(s, AbandonWrite)) == View(s)
    ensures s.consumer.CHold? ==> Apply(s, AbandonRead).Shaped() && View(Apply(s, AbandonRead)) == View(s)
  {
  }

  /** Neither thread ever waits for the other: whatever it may want to do next it can do at once, and a load may
      return any value stored since the one it saw last. */
  lemma NothingHoldsUp<T>(s: State<T>)
    requires Inv(s)
    ensures s.Shaped()
    ensures forall n: nat, k: nat | s.producer.PIdle? && s.rSeen <= k < |s.rs| ::
              (s.writeWrapped ==> n == 0 || n > |s.data| - s.W().off) ==> Enabled(s, LoadR(n, k))
    ensures forall x: T | s.producer.PHold? && |s.producer.pending| < s.producer.granted :: Enabled(s, CopyIn(x))
    ensures forall m: nat | s.producer.PHold? && m <= |s.producer.pending| :: Enabled(s, StoreI(m))
    ensures s.producer.PHold? ==> Enabled(s, AbandonWrite)
    ensures s.producer.PStoring? ==> Enabled(s, StoreW)
    ensures forall k: nat | s.consumer.CIdle? && s.wSeen <= k < |s.ws| :: Enabled(s, LoadW(k))
    ensures forall k: nat | s.consumer.CSawW? && s.wSeen <= k < |s.invs| :: Enabled(s, LoadI(k))
    ensures s.consumer.CHold? && |s.consumer.taken| < s.consumer.length ==> Enabled(s, CopyOut)
    ensures forall m: nat | s.consumer.CHold? && m <= |s.consumer.taken| :: Enabled(s, StoreR(m))
    ensures s.consumer.CHold? ==> Enabled(s, AbandonRead)
  {
    hide Inv;
    InvShaped(s);
    CopiesInBounds(s);
  }

  // ---------------------------------------------------------------- steps without interference

  /** What the two threads see at any moment is a valid ring. */
  lemma ViewIsRing<T>(s: State<T>)
    requires Inv(s)
    ensures View(s).Valid() && View(s).Contents() == Queue(s)
  {
    hide Before, Memory, Sorted, Unread, OnLaps, Accounts, Flatten, CanPublish;
    var last := |s.ws| - 1;
    QueueIsRest(s);
    assert TailAt(s.laps, s.ws[last], s.invs[last]);
    assert s.W().off <= s.I() <= |s.data|;
    if s.W().lap == s.R().lap + 1 {
      TailIsFixed(s, last, |s.invs| - 1);
    }
  }

  /** With current loads and nothing in between, the steps of a call do what the call does on the ring. */
  lemma AcquireWriteSteps<T(!new)>(s: State<T>, n: nat)
    requires Reachable(s) && CanLoadR(s, n, |s.rs| - 1)
    ensures View(s).Valid() && AfterLoadR(s, n, |s.rs| - 1).Shaped()
    ensures var s' := AfterLoadR(s, n, |s.rs| - 1);
            var offset := if s'.producer.PHold? then Some(s'.producer.offset) else None;
            (View(s'), offset) == View(s).AcquireWrite(n)
  {
    hide Inv, Reachable, WriteGrant, Queue, Ring.Contents;
    ReachableInv(s);
    ViewIsRing(s);
  }

  lemma ReleaseWriteSteps<T(!new)>(s: State<T>, m: nat)
    requires Reachable(s) && CanStoreI(s, m)
    ensures AfterStoreI(s, m).Shaped() && AfterStoreW(AfterStoreI(s, m)).Shaped()
    ensures View(AfterStoreW(AfterStoreI(s, m))) == View(s).ReleaseWrite(m)
  {
    hide Memory, Tails, Ordered, Before, ProducerOk, ConsumerOk, Accounts, LapsAfter;
    ReachableInv(s);
    StoreIKeeps(s, m);
    StoreWKeeps(AfterStoreI(s, m));
  }

  /** The steps of an uninterrupted read_acquire. */
  function ReadAcquired<T>(s: State<T>): State<T>
    requires s.Shaped() && s.consumer.CIdle?
  {
    var s' := AfterLoadW(s, |s.ws| - 1);
    if s'.Shaped() && CanLoadI(s', |s'.invs| - 1) then AfterLoadI(s', |s'.invs| - 1) else s'
  }

  lemma AcquireReadSteps<T(!new)>(s: State<T>)
    requires Reachable(s) && s.consumer.CIdle?
    ensures View(s).Valid() && ReadAcquired(s).Shaped()
    ensures var s' := ReadAcquired(s);
            && (s'.consumer.CHold? ==> s'.consumer.length >= 0)
            && (View(s'), Held(s')) == View(s).AcquireRead()
  {
    hide Inv, Reachable, Queue, Ring.AcquireRead, Ring.Contents, State.Shaped, AfterLoadW, AfterLoadI;
    ReachableInv(s);
    ViewIsRing(s);
    CurrentLoads(s);
    CurrentW(s);
    var s' := AfterLoadW(s, |s.ws| - 1);
    if s'.consumer.CSawW? {
      CurrentI(s');
    }
  }

  lemma CurrentW<T>(s: State<T>)
    requires s.Shaped() && CanLoadW(s, |s.ws| - 1) && View(s).Valid()
    ensures var s' := AfterLoadW(s, |s.ws| - 1);
            if s'.consumer.CSawW? then s'.consumer.w == s.W().off < s.R().off
            else
              && (s'.consumer.CHold? ==> s'.consumer.length >= 0)
              && (View(s), Held(s')) == View(s).AcquireRead()
  {
  }

  lemma CurrentI<T>(s: State<T>)
    requires s.Shaped() && CanLoadI(s, |s.invs| - 1) && View(s).Valid() && s.consumer.w == s.W().off < s.R().off
    ensures var s' := AfterLoadI(s, |s.invs| - 1);
            && s'.Shaped() && s'.consumer.CHold? && s'.consumer.length >= 0
            && (View(s'), Held(s')) == View(s).AcquireRead()
  {
  }

  lemma CurrentLoads<T>(s: State<T>)
    requires s.Shaped() && s.consumer.CIdle? && |s.ws| <= |s.invs|
    ensures s.rs != [] && s.ws != [] && CanLoadW(s, |s.ws| - 1)
    ensures var s' := AfterLoadW(s, |s.ws| - 1);
            && s'.Shaped() && View(s') == View(s) && ReadAcquired(s).Shaped()
            && (s'.consumer.CSawW? ==> CanLoadI(s', |s'.invs| - 1))
  {
    hide AfterLoadW, AfterLoadI;
    LoadWLeavesMemory(s, |s.ws| - 1);
    var s' := AfterLoadW(s, |s.ws| - 1);
    hide State.Shaped;
    if CanLoadI(s', |s'.invs| - 1) {
      LoadIKeepsShape(s', |s'.invs| - 1);
    }
  }

  lemma LoadWLeavesMemory<T>(s: State<T>, k: nat)
    requires s.Shaped() && CanLoadW(s, k)
    ensures var s' := AfterLoadW(s, k); s'.Shaped() && View(s') == View(s) && s'.invs == s.invs && s'.wSeen == k
  {
  }

  lemma LoadIKeepsShape<T>(s: State<T>, k: nat)
    requires s.Shaped() && CanLoadI(s, k)
    ensures AfterLoadI(s, k).Shaped()
  {
  }

  lemma ReleaseReadSteps<T(!new)>(s: State<T>, m: nat)
    requires Reachable(s) && CanStoreR(s, m)
    ensures AfterStoreR(s, m).Shaped() && View(AfterStoreR(s, m)) == View(s).ReleaseRead(m)
  {
    ReachableInv(s);
    StoreRKeeps(s, m);
  }
}
