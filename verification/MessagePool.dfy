/** The message buffers of the VCHIQ user library, as a state machine.

    The buffers on the free list, the buffer a service peeks into, the buffers the completion
    thread lends to the driver and the buffers clients hold all come from one intrusive list.
    Each event below is one atomic step of one thread (what happens under a single lock
    acquisition, one call of malloc, or one ioctl), so a sequence of events is an arbitrary
    interleaving of client calls with the completion thread.  An event that is not enabled leaves the
    state alone, which makes every statement about `Exec` hold for all event sequences. */
module MessagePool {
  import opened Limits

  const THREAD_BUFS: nat := 8
  const MSGBUF_SIZE: nat := 4096

  type Msg = seq<bv8>

  /** What the memory of a buffer holds: a free buffer's first word is the next pointer. */
  datatype Content = Link(next: MsgBuf?) | Data(bytes: Msg)

  class MsgBuf {
    var content: Content

    constructor ()
      ensures content == Data([])
    {
      content := Data([]);
    }
  }

  datatype Reason =
    | ServiceOpened | ServiceClosed | MessageAvailable
    | BulkTransmitDone | BulkReceiveDone | BulkTransmitAborted | BulkReceiveAborted

  /** One completion as the driver produces it: `hasHeader` asks for a message buffer. */
  datatype Answer = Answer(reason: Reason, slot: nat, hasHeader: bool, bytes: Msg, bulk: nat)

  /** The same completion in the thread's array, with the buffer the driver filled. */
  datatype Completion = Completion(reason: Reason, slot: nat, header: MsgBuf?, bulk: nat)

  datatype Phase = Idle | Filling | Awaiting | Delivering | Draining

  /** Bookkeeping only: where a buffer currently is, with its index there. */
  datatype Owner = Free(k: nat) | Peek(i: nat) | Thread(k: nat) | Pending(k: nat) | Client | Abandoned

  /** Who has called alloc_msgbuf: fill_peek_buf for a service, or the completion thread. */
  datatype Caller = ForPeek(i: nat) | ForThread

  datatype Pool = Pool(
    head: MsgBuf?,                  // free_msgbufs
    mallocing: set<Caller>,         // calls of alloc_msgbuf that have found the list empty
    mem: map<MsgBuf, Content>,      // every buffer ever malloc'd
    peekBuf: seq<MsgBuf?>,          // per service
    peekSize: seq<int>,
    queues: seq<seq<Msg>>,          // the driver's queue of each service
    phase: Phase,                   // where the completion thread is
    msgbufs: seq<MsgBuf>,           // its buffers, args.msgbufcount of them
    batch: seq<Completion>,         // its completions array and loop index
    at: nat,
    free: seq<MsgBuf>,              // history: the free list, bottom first
    owner: map<MsgBuf, Owner>)      // history

  datatype Event =
    | Arrive(i: nat, msg: Msg)                       // the driver queues a message
    | PeekList(i: nat)                               // alloc_msgbuf for fill_peek_buf, under the lock
    | PeekMalloc(i: nat, m: MsgBuf?)                 // its malloc, after the unlock
    | Fill(i: nat, granted: bool)                    // fill_peek_buf's DEQUEUE_MESSAGE
    | Remove(i: nat)
    | Take(i: nat)                                   // the tail of vchi_msg_hold
    | Dequeue(i: nat, max: nat, granted: bool)
    | Release(b: MsgBuf)                             // vchi_held_msg_release, vchiq_release_message
    | Reset(i: nat, created: bool)                   // create_service on slot i
    | ThreadStart
    | ThreadList                                     // alloc_msgbuf for the completion thread
    | ThreadMalloc(m: MsgBuf?)
    | EnterAwait
    | Complete(a: Answer)                            // the driver fills one completion
    | AwaitReturn
    | Deliver(toCallback: bool)
    | Drain

  const START: Pool := Pool(null, {}, map[], seq(SLOTS, _ => null), seq(SLOTS, _ => 0), seq(SLOTS, _ => []),
                            Idle, [], [], 0, [], map[])

  // ------------------------------------------------------------------ steps

  function NextOf(mem: map<MsgBuf, Content>, b: MsgBuf?): MsgBuf? {
    if b != null && b in mem && mem[b].Link? then mem[b].next else null
  }

  function DropLast<T>(s: seq<T>): seq<T> {
    if s == [] then s else s[..|s| - 1]
  }

  /** The buffer alloc_msgbuf returns when malloc would yield `m`. */
  function AllocResult(p: Pool, m: MsgBuf?): MsgBuf? {
    if p.head != null then p.head else m
  }

  /** The top of the free list handed to `o`. */
  function Pop(p: Pool, o: Owner): Pool {
    if p.head == null then p
    else p.(head := NextOf(p.mem, p.head), free := DropLast(p.free), owner := p.owner[p.head := o])
  }

  /** A buffer just malloc'd handed to `o`. */
  function Add(p: Pool, m: MsgBuf?, o: Owner): Pool {
    if m == null then p else p.(mem := p.mem[m := Data([])], owner := p.owner[m := o])
  }

  /** alloc_msgbuf without interruption, handing the buffer to `o`. */
  function Alloc(p: Pool, m: MsgBuf?, o: Owner): Pool {
    if p.head != null then Pop(p, o) else Add(p, m, o)
  }

  /** free_msgbuf: the link overwrites the buffer's content. */
  function FreeBuf(p: Pool, b: MsgBuf): Pool {
    p.(mem := p.mem[b := Link(p.head)], head := b, free := p.free + [b], owner := p.owner[b := Free(|p.free|)])
  }

  /** VCHIQ_IOC_DEQUEUE_MESSAGE succeeds: the message is there, fits, and the call is not refused. */
  predicate Dequeues(q: seq<Msg>, bufsize: nat, granted: bool) {
    granted && q != [] && |q[0]| <= bufsize
  }

  predicate Shaped(p: Pool) {
    |p.peekBuf| == |p.peekSize| == |p.queues| == SLOTS
  }

  predicate Unallocated(p: Pool, m: MsgBuf?) {
    m == null || m !in p.mem
  }

  predicate Enabled(p: Pool, e: Event) {
    Shaped(p) &&
    match e
    case Arrive(i, _) => i < SLOTS
    case PeekList(i) => i < SLOTS && p.peekSize[i] < 0 && p.peekBuf[i] == null && ForPeek(i) !in p.mallocing
    case PeekMalloc(i, m) => i < SLOTS && ForPeek(i) in p.mallocing && Unallocated(p, m)
    case Fill(i, _) => i < SLOTS && p.peekSize[i] < 0 && p.peekBuf[i] != null
    case Remove(i) => i < SLOTS
    case Take(i) => i < SLOTS && p.peekSize[i] >= 0 && p.peekBuf[i] != null
    case Dequeue(i, _, _) => i < SLOTS
    case Release(b) => b in p.owner && p.owner[b] == Client
    case Reset(i, _) => i < SLOTS
    case ThreadStart => p.phase == Idle
    case ThreadList => p.phase == Filling && |p.msgbufs| < THREAD_BUFS && ForThread !in p.mallocing
    case ThreadMalloc(m) => ForThread in p.mallocing && Unallocated(p, m)
    case EnterAwait => p.phase == Filling && |p.msgbufs| == THREAD_BUFS
    case Complete(a) => p.phase == Awaiting && |p.batch| < THREAD_BUFS && (a.hasHeader ==> p.msgbufs != [])
    case AwaitReturn => p.phase == Awaiting
    case Deliver(_) => p.phase == Delivering && p.at < |p.batch|
    case Drain => p.phase == Draining
  }

  function Step(p: Pool, e: Event): Pool {
    if !Enabled(p, e) then p else
    match e
    case Arrive(i, msg) => p.(queues := p.queues[i := p.queues[i] + [msg]])
    case PeekList(i) =>
      if p.head != null then Pop(p, Peek(i)).(peekBuf := p.peekBuf[i := p.head])
      else p.(mallocing := p.mallocing + {ForPeek(i)})
    case PeekMalloc(i, m) =>
      Add(p, m, Peek(i)).(mallocing := p.mallocing - {ForPeek(i)}, peekBuf := p.peekBuf[i := m])
    case Fill(i, granted) =>
      if Dequeues(p.queues[i], MSGBUF_SIZE, granted) then
        p.(mem := p.mem[p.peekBuf[i] := Data(p.queues[i][0])],
           peekSize := p.peekSize[i := |p.queues[i][0]|],
           queues := p.queues[i := p.queues[i][1..]])
      else p
    case Remove(i) => p.(peekSize := p.peekSize[i := -1])
    case Take(i) =>
      p.(peekSize := p.peekSize[i := -1], peekBuf := p.peekBuf[i := null],
         owner := p.owner[p.peekBuf[i] := Client])
    case Dequeue(i, max, granted) =>
      if p.peekSize[i] >= 0 then
        if p.peekSize[i] <= max then p.(peekSize := p.peekSize[i := -1]) else p
      else if Dequeues(p.queues[i], max, granted) then
        p.(queues := p.queues[i := p.queues[i][1..]])
      else p
    case Release(b) => FreeBuf(p, b)
    case Reset(i, created) =>
      p.(peekSize := p.peekSize[i := -1], peekBuf := p.peekBuf[i := null],
         owner := if p.peekBuf[i] == null then p.owner else p.owner[p.peekBuf[i] := Abandoned],
         queues := if created then p.queues[i := []] else p.queues)
    case ThreadStart => p.(phase := Filling)
    case ThreadList =>
      if p.head != null then Pop(p, Thread(|p.msgbufs|)).(msgbufs := p.msgbufs + [p.head])
      else p.(mallocing := p.mallocing + {ForThread})
    case ThreadMalloc(m) =>
      Add(p, m, Thread(|p.msgbufs|)).(mallocing := p.mallocing - {ForThread},
                                      msgbufs := if m == null then p.msgbufs else p.msgbufs + [m])
    case EnterAwait => p.(phase := Awaiting)
    case Complete(a) =>
      if a.hasHeader then
        var b := p.msgbufs[|p.msgbufs| - 1];
        p.(msgbufs := DropLast(p.msgbufs), mem := p.mem[b := Data(a.bytes)],
           batch := p.batch + [Completion(a.reason, a.slot, b, a.bulk)],
           owner := p.owner[b := Pending(|p.batch|)])
      else
        p.(batch := p.batch + [Completion(a.reason, a.slot, null, a.bulk)])
    case AwaitReturn => p.(phase := if p.batch == [] then Draining else Delivering)
    case Deliver(toCallback) =>
      var h := p.batch[p.at].header;
      var p' := if h == null then p
                else p.(owner := p.owner[h := if toCallback then Client else Abandoned]);
      if p.at + 1 == |p.batch| then p'.(phase := Filling, batch := [], at := 0) else p'.(at := p.at + 1)
    case Drain =>
      if p.msgbufs == [] then p.(phase := Idle)
      else FreeBuf(p.(msgbufs := DropLast(p.msgbufs)), p.msgbufs[|p.msgbufs| - 1])
  }

  function Exec(p: Pool, run: seq<Event>): Pool
    decreases |run|
  {
    if run == [] then p else Exec(Step(p, run[0]), run[1..])
  }

  // -------------------------------------------------------------- invariant

  /** The top of the free list, null when it is empty. */
  function Top(free: seq<MsgBuf>): MsgBuf? {
    if free == [] then null else free[|free| - 1]
  }

  /** Each buffer's memory links to the one below it. */
  ghost predicate Linked(mem: map<MsgBuf, Content>, free: seq<MsgBuf>) {
    free != [] ==>
      && Top(free) in mem && mem[Top(free)] == Link(Top(DropLast(free)))
      && Linked(mem, DropLast(free))
  }

  ghost predicate FreeOk(p: Pool) {
    p.head == Top(p.free) && Linked(p.mem, p.free)
  }

  /** The buffer stored at a place, null if the place is empty.  Clients and lost buffers
      have no place inside the library. */
  function Place(p: Pool, o: Owner): MsgBuf?
    requires Shaped(p)
  {
    match o
    case Free(k) => if k < |p.free| then p.free[k] else null
    case Peek(i) => if i < SLOTS then p.peekBuf[i] else null
    case Thread(k) => if k < |p.msgbufs| then p.msgbufs[k] else null
    case Pending(k) => if p.at <= k < |p.batch| then p.batch[k].header else null
    case Client => null
    case Abandoned => null
  }

  /** Recorded owners and stored pointers agree in both directions. */
  ghost predicate PlacesOk(p: Pool)
    requires Shaped(p)
  {
    && (forall o :: Place(p, o) != null ==> Place(p, o) in p.owner && p.owner[Place(p, o)] == o)
    && (forall b :: b in p.owner ==> p.owner[b] in {Client, Abandoned} || Place(p, p.owner[b]) == b)
    && p.owner.Keys == p.mem.Keys
  }

  /** A fetched message is in the peek buffer, with its length.  A slot that was never created
      still has the size 0 of its static storage, and no buffer. */
  ghost predicate PeekOk(p: Pool)
    requires Shaped(p)
  {
    forall i {:trigger PeekOkAt(p, i)} {:trigger p.peekSize[i]} :: 0 <= i < SLOTS ==> PeekOkAt(p, i)
  }

  ghost predicate PeekOkAt(p: Pool, i: nat)
    requires Shaped(p) && i < SLOTS
  {
    && -1 <= p.peekSize[i]
    && (p.peekSize[i] >= 0 && p.peekBuf[i] == null ==> p.peekSize[i] == 0)
    && (p.peekSize[i] >= 0 && p.peekBuf[i] != null ==>
          && p.peekBuf[i] in p.mem && p.mem[p.peekBuf[i]].Data?
          && |p.mem[p.peekBuf[i]].bytes| == p.peekSize[i])
  }

  ghost predicate ThreadOk(p: Pool) {
    && |p.msgbufs| <= THREAD_BUFS
    && (p.phase == Idle ==> p.msgbufs == [])
    && (p.phase != Awaiting && p.phase != Delivering ==> p.batch == [])
    && (if p.phase == Delivering then p.at < |p.batch| else p.at == 0)
  }

  /** Whoever is about to malloc has a place to put the buffer. */
  ghost predicate MallocsOk(p: Pool)
    requires Shaped(p)
  {
    && (forall i: nat :: ForPeek(i) in p.mallocing ==> i < SLOTS && p.peekBuf[i] == null && p.peekSize[i] < 0)
    && (ForThread in p.mallocing ==> p.phase == Filling && |p.msgbufs| < THREAD_BUFS)
  }

  ghost predicate Inv(p: Pool) {
    Shaped(p) && FreeOk(p) && PeekOk(p) && ThreadOk(p) && MallocsOk(p) && PlacesOk(p)
  }

  /** The buffer under position k of the free list. */
  function Below(free: seq<MsgBuf>, k: nat): MsgBuf?
    requires k < |free|
  {
    if k == 0 then null else free[k - 1]
  }

  lemma {:induction false} LinkAt(mem: map<MsgBuf, Content>, free: seq<MsgBuf>, k: nat)
    requires Linked(mem, free) && k < |free|
    ensures free[k] in mem && mem[free[k]] == Link(Below(free, k))
  {
    if k < |free| - 1 { LinkAt(mem, DropLast(free), k); }
  }

  lemma {:induction false} LinkedFrame(mem: map<MsgBuf, Content>, mem': map<MsgBuf, Content>, free: seq<MsgBuf>)
    requires Linked(mem, free)
    requires forall b :: b in free && b in mem ==> b in mem' && mem'[b] == mem[b]
    ensures Linked(mem', free)
  {
    if free != [] { LinkedFrame(mem, mem', DropLast(free)); }
  }

  /** The buffer an enabled event moves to another place, if any. */
  function Moved(p: Pool, e: Event): MsgBuf?
    requires Enabled(p, e)
  {
    match e
    case PeekList(_) => p.head
    case PeekMalloc(_, m) => m
    case ThreadList => p.head
    case ThreadMalloc(m) => m
    case Take(i) => p.peekBuf[i]
    case Reset(i, _) => p.peekBuf[i]
    case Release(b) => b
    case Drain => if p.msgbufs == [] then null else p.msgbufs[|p.msgbufs| - 1]
    case Complete(a) => if a.hasHeader then p.msgbufs[|p.msgbufs| - 1] else null
    case Deliver(_) => p.batch[p.at].header
    case _ => null
  }

  /** Where it comes from; Client also stands for a buffer that malloc has just made. */
  function From(p: Pool, e: Event): Owner
    requires Enabled(p, e)
  {
    match e
    case PeekList(_) => if p.free == [] then Client else Free(|p.free| - 1)
    case ThreadList => if p.free == [] then Client else Free(|p.free| - 1)
    case Take(i) => Peek(i)
    case Reset(i, _) => Peek(i)
    case Drain => if p.msgbufs == [] then Client else Thread(|p.msgbufs| - 1)
    case Complete(_) => if p.msgbufs == [] then Client else Thread(|p.msgbufs| - 1)
    case Deliver(_) => Pending(p.at)
    case _ => Client
  }

  function To(p: Pool, e: Event): Owner
    requires Enabled(p, e)
  {
    match e
    case PeekList(i) => Peek(i)
    case PeekMalloc(i, _) => Peek(i)
    case ThreadList => Thread(|p.msgbufs|)
    case ThreadMalloc(_) => Thread(|p.msgbufs|)
    case Take(_) => Client
    case Reset(_, _) => Abandoned
    case Release(_) => Free(|p.free|)
    case Drain => Free(|p.free|)
    case Complete(_) => Pending(|p.batch|)
    case Deliver(toCallback) => if toCallback then Client else Abandoned
    case _ => Client
  }

  predicate MovesTo(p: Pool, e: Event, o: Owner)
    requires Enabled(p, e) && Shaped(Step(p, e))
  {
    Place(Step(p, e), o) ==
      if Moved(p, e) == null then Place(p, o)
      else if o == To(p, e) then (if o in {Client, Abandoned} then null else Moved(p, e))
      else if o == From(p, e) then null
      else Place(p, o)
  }

  predicate ThreadEvent(e: Event) {
    || e.ThreadStart? || e.ThreadList? || e.ThreadMalloc? || e.EnterAwait?
    || e.Complete? || e.AwaitReturn? || e.Deliver? || e.Drain?
  }

  lemma PeekStepMoves(p: Pool, e: Event, o: Owner)
    requires p.head == Top(p.free) && Shaped(p) && MallocsOk(p) && Enabled(p, e) && (e.PeekList? || e.PeekMalloc?)
    ensures Shaped(Step(p, e)) && MovesTo(p, e, o)
  {
  }

  lemma ClientStepMoves(p: Pool, e: Event, o: Owner)
    requires p.head == Top(p.free) && Shaped(p) && MallocsOk(p) && Enabled(p, e) && !ThreadEvent(e)
    ensures Shaped(Step(p, e)) && MovesTo(p, e, o)
  {
    if e.PeekList? || e.PeekMalloc? { PeekStepMoves(p, e, o); }
  }

  lemma BatchStepMoves(p: Pool, e: Event, o: Owner)
    requires ThreadOk(p) && Enabled(p, e) && (e.Complete? || e.AwaitReturn? || e.Deliver?)
    ensures Shaped(Step(p, e)) && MovesTo(p, e, o)
  {
  }

  lemma ThreadStepMoves(p: Pool, e: Event, o: Owner)
    requires ThreadOk(p) && p.head == Top(p.free) && Enabled(p, e) && ThreadEvent(e)
    ensures Shaped(Step(p, e)) && MovesTo(p, e, o)
  {
    if e.Complete? || e.AwaitReturn? || e.Deliver? { BatchStepMoves(p, e, o); }
  }

  /** Every event moves at most one buffer from one place to another and leaves the other places alone. */
  lemma StepMoves(p: Pool, e: Event, o: Owner)
    requires Inv(p) && Enabled(p, e)
    ensures Shaped(Step(p, e)) && MovesTo(p, e, o)
  {
    if ThreadEvent(e) { ThreadStepMoves(p, e, o); } else { ClientStepMoves(p, e, o); }
  }

  ghost predicate OwnerMoves(p: Pool, e: Event)
    requires Enabled(p, e)
  {
    Step(p, e).owner == if Moved(p, e) == null then p.owner else p.owner[Moved(p, e) := To(p, e)]
  }

  lemma ClientStepOwner(p: Pool, e: Event)
    requires p.head == Top(p.free) && Enabled(p, e) && !ThreadEvent(e)
    ensures OwnerMoves(p, e)
  {
  }

  lemma ThreadStepOwner(p: Pool, e: Event)
    requires p.head == Top(p.free) && Enabled(p, e) && ThreadEvent(e)
    ensures OwnerMoves(p, e)
  {
  }

  /** The record of owners follows the buffer that moves. */
  lemma StepOwner(p: Pool, e: Event)
    requires Inv(p) && Enabled(p, e)
    ensures OwnerMoves(p, e)
  {
    if ThreadEvent(e) { ThreadStepOwner(p, e); } else { ClientStepOwner(p, e); }
  }

  lemma MovedBetween(p: Pool, e: Event)
    requires Inv(p) && Enabled(p, e) && Moved(p, e) != null
    ensures if Moved(p, e) in p.owner then p.owner[Moved(p, e)] == From(p, e) else From(p, e) == Client
    ensures Place(p, To(p, e)) == null
  {
    assert Place(p, From(p, e)) != null ==> Place(p, From(p, e)) in p.owner;
  }

  lemma StepKeys(p: Pool, e: Event)
    requires Inv(p) && Enabled(p, e)
    ensures Step(p, e).mem.Keys == p.mem.Keys + if Moved(p, e) == null then {} else {Moved(p, e)}
  {
    if Moved(p, e) != null { MovedBetween(p, e); }
    if e.Fill? { assert Place(p, Peek(e.i)) == p.peekBuf[e.i]; }
  }

  lemma PlaceToOwner(p: Pool, e: Event, o: Owner)
    requires Inv(p) && Enabled(p, e) && Shaped(Step(p, e)) && Place(Step(p, e), o) != null
    ensures var q := Step(p, e); Place(q, o) in q.owner && q.owner[Place(q, o)] == o
  {
    StepMoves(p, e, o);
    StepOwner(p, e);
    if Moved(p, e) != null { MovedBetween(p, e); }
  }

  lemma OwnerToPlace(p: Pool, e: Event, b: MsgBuf)
    requires Inv(p) && Enabled(p, e) && Shaped(Step(p, e)) && b in Step(p, e).owner
    ensures var q := Step(p, e); q.owner[b] in {Client, Abandoned} || Place(q, q.owner[b]) == b
  {
    StepMoves(p, e, Step(p, e).owner[b]);
    StepOwner(p, e);
    if Moved(p, e) != null { MovedBetween(p, e); }
  }

  lemma StepKeepsPlaces(p: Pool, e: Event)
    requires Inv(p) && Enabled(p, e)
    ensures Shaped(Step(p, e)) && PlacesOk(Step(p, e))
  {
    var q := Step(p, e);
    StepMoves(p, e, Client);
    forall o | Place(q, o) != null ensures Place(q, o) in q.owner && q.owner[Place(q, o)] == o {
      PlaceToOwner(p, e, o);
    }
    forall b | b in q.owner ensures q.owner[b] in {Client, Abandoned} || Place(q, q.owner[b]) == b {
      OwnerToPlace(p, e, b);
    }
    assert q.owner.Keys == q.mem.Keys by {
      StepOwner(p, e);
      StepKeys(p, e);
    }
  }

  /** Who may write a buffer of owner o. */
  predicate MayWrite(o: Owner, e: Event, b: MsgBuf) {
    match o
    case Peek(i) => e.Fill? && e.i == i
    case Thread(_) => e.Drain? || e.Complete?
    case Client => e == Release(b)
    case _ => false
  }

  ghost predicate Writes(p: Pool, e: Event, b: MsgBuf)
    requires b in p.mem && b in p.owner
  {
    b in Step(p, e).mem && (Step(p, e).mem[b] != p.mem[b] ==> MayWrite(p.owner[b], e, b))
  }

  lemma ClientStepWrites(p: Pool, e: Event, b: MsgBuf)
    requires Inv(p) && Enabled(p, e) && !ThreadEvent(e) && b in p.mem
    ensures Writes(p, e, b)
  {
    assert forall i :: 0 <= i < SLOTS ==> p.peekBuf[i] == Place(p, Peek(i));
  }

  lemma ThreadStepWrites(p: Pool, e: Event, b: MsgBuf)
    requires Inv(p) && Enabled(p, e) && ThreadEvent(e) && b in p.mem
    ensures Writes(p, e, b)
  {
    assert forall k :: 0 <= k < |p.msgbufs| ==> p.msgbufs[k] == Place(p, Thread(k));
  }

  /** An event writes only buffers that are free, on loan to the driver, being released, or
      service i's own. */
  lemma StepWrites(p: Pool, e: Event, b: MsgBuf)
    requires Inv(p) && Enabled(p, e) && b in p.mem
    ensures b in Step(p, e).mem
    ensures Step(p, e).mem[b] != p.mem[b] ==> MayWrite(p.owner[b], e, b)
  {
    if ThreadEvent(e) { ThreadStepWrites(p, e, b); } else { ClientStepWrites(p, e, b); }
  }

  lemma FreeUnwritten(p: Pool, e: Event, k: nat)
    requires Inv(p) && Enabled(p, e) && k < |p.free|
    ensures p.free[k] in p.mem && p.free[k] in Step(p, e).mem && Step(p, e).mem[p.free[k]] == p.mem[p.free[k]]
  {
    assert Place(p, Free(k)) == p.free[k];
    StepWrites(p, e, p.free[k]);
  }

  /** The free list grows by the buffer written to link to it, shrinks by its top, or stays. */
  lemma FreeChange(p: Pool, e: Event)
    requires p.head == Top(p.free) && Enabled(p, e)
    ensures var q := Step(p, e);
            || (q.free == p.free && q.head == p.head)
            || (p.free != [] && q.free == DropLast(p.free) && q.head == NextOf(p.mem, p.head))
            || (q.head != null && q.free == p.free + [q.head] && q.head in q.mem && q.mem[q.head] == Link(p.head))
  {
  }

  lemma TopChange(p: Pool, e: Event)
    requires FreeOk(p) && Enabled(p, e) && Linked(Step(p, e).mem, p.free)
    ensures FreeOk(Step(p, e))
  {
    var q := Step(p, e);
    FreeChange(p, e);
    if q.head != null && q.free == p.free + [q.head] { assert DropLast(q.free) == p.free; }
  }

  lemma StepKeepsFree(p: Pool, e: Event)
    requires Inv(p) && Enabled(p, e)
    ensures FreeOk(Step(p, e))
  {
    forall k | 0 <= k < |p.free|
      ensures p.free[k] in p.mem && p.free[k] in Step(p, e).mem && Step(p, e).mem[p.free[k]] == p.mem[p.free[k]]
    {
      FreeUnwritten(p, e, k);
    }
    LinkedFrame(p.mem, Step(p, e).mem, p.free);
    TopChange(p, e);
  }

  /** The events that change service i's peek fields. */
  predicate TouchesPeek(e: Event, i: nat) {
    (e.PeekList? || e.PeekMalloc? || e.Fill? || e.Remove? || e.Take? || e.Dequeue? || e.Reset?) && e.i == i
  }

  lemma OtherKeepsPeek(p: Pool, e: Event, i: nat)
    requires Shaped(p) && Enabled(p, e) && i < SLOTS && !TouchesPeek(e, i)
    ensures Shaped(Step(p, e)) && Step(p, e).peekBuf[i] == p.peekBuf[i] && Step(p, e).peekSize[i] == p.peekSize[i]
  {
  }

  lemma OwnKeepsPeek(p: Pool, e: Event, i: nat)
    requires Inv(p) && Enabled(p, e) && i < SLOTS && TouchesPeek(e, i)
    ensures Shaped(Step(p, e)) && PeekOkAt(Step(p, e), i)
  {
    assert p.peekSize[i] >= -1;
  }

  lemma StepKeepsPeek(p: Pool, e: Event)
    requires Inv(p) && Enabled(p, e)
    ensures Shaped(Step(p, e)) && PeekOk(Step(p, e))
  {
    forall i | 0 <= i < SLOTS ensures Shaped(Step(p, e)) && PeekOkAt(Step(p, e), i) {
      if !TouchesPeek(e, i) {
        assert p.peekSize[i] >= -1;
        OtherKeepsPeek(p, e, i);
        if p.peekBuf[i] != null { PeekedUnwritten(p, e, i); }
      } else {
        OwnKeepsPeek(p, e, i);
      }
    }
  }

  lemma PeekedUnwritten(p: Pool, e: Event, i: nat)
    requires Inv(p) && Enabled(p, e) && i < SLOTS && !TouchesPeek(e, i) && p.peekBuf[i] != null
    ensures p.peekBuf[i] in p.mem && p.peekBuf[i] in Step(p, e).mem && Step(p, e).mem[p.peekBuf[i]] == p.mem[p.peekBuf[i]]
  {
    assert Place(p, Peek(i)) == p.peekBuf[i];
    StepWrites(p, e, p.peekBuf[i]);
  }

  lemma StepKeepsThread(p: Pool, e: Event)
    requires Inv(p) && Enabled(p, e)
    ensures ThreadOk(Step(p, e))
  {
  }

  lemma ClientKeepsMallocs(p: Pool, e: Event)
    requires Inv(p) && Enabled(p, e) && !ThreadEvent(e)
    ensures Shaped(Step(p, e)) && MallocsOk(Step(p, e))
  {
  }

  lemma ThreadKeepsMallocs(p: Pool, e: Event)
    requires Inv(p) && Enabled(p, e) && ThreadEvent(e)
    ensures Shaped(Step(p, e)) && MallocsOk(Step(p, e))
  {
  }

  lemma StepKeepsMallocs(p: Pool, e: Event)
    requires Inv(p) && Enabled(p, e)
    ensures Shaped(Step(p, e)) && MallocsOk(Step(p, e))
  {
    if ThreadEvent(e) { ThreadKeepsMallocs(p, e); } else { ClientKeepsMallocs(p, e); }
  }

  lemma StepKeepsInv(p: Pool, e: Event)
    requires Inv(p)
    ensures Inv(Step(p, e))
  {
    if Enabled(p, e) {
      StepKeepsFree(p, e);
      StepKeepsPeek(p, e);
      StepKeepsThread(p, e);
      StepKeepsMallocs(p, e);
      StepKeepsPlaces(p, e);
    }
  }

  lemma {:induction false} ExecKeepsInv(p: Pool, run: seq<Event>)
    requires Inv(p)
    ensures Inv(Exec(p, run))
    decreases |run|
  {
    if run != [] {
      StepKeepsInv(p, run[0]);
      ExecKeepsInv(Step(p, run[0]), run[1..]);
    }
  }

  lemma StartInv()
    ensures Inv(START)
  {
  }

  lemma {:induction false} ExecAppend(p: Pool, run: seq<Event>, more: seq<Event>)
    ensures Exec(p, run + more) == Exec(Exec(p, run), more)
    decreases |run|
  {
    if run == [] {
      assert run + more == more;
    } else {
      assert (run + more)[0] == run[0] && (run + more)[1..] == run[1..] + more;
      ExecAppend(Step(p, run[0]), run[1..], more);
    }
  }
}
