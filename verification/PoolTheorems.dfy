/** What the message-buffer machine guarantees over every run. */
module PoolTheorems {
  import opened Limits
  import opened MessagePool

  // ------------------------------------------------ who has which buffers

  ghost function Elements(s: seq<MsgBuf>): set<MsgBuf> { set b | b in s }

  ghost function FreeSet(p: Pool): set<MsgBuf> { Elements(p.free) }

  ghost function ThreadSet(p: Pool): set<MsgBuf> { Elements(p.msgbufs) }

  ghost function PeekSet(p: Pool): set<MsgBuf> { set b: MsgBuf | b in p.peekBuf }

  /** Headers of completions whose callback has not been made yet. */
  ghost function PendingSet(p: Pool): set<MsgBuf> {
    set k | 0 <= k < |p.batch| && p.at <= k && p.batch[k].header != null :: p.batch[k].header
  }

  ghost function ClientSet(p: Pool): set<MsgBuf> { set b | b in p.owner && p.owner[b] == Client }

  ghost function AbandonedSet(p: Pool): set<MsgBuf> { set b | b in p.owner && p.owner[b] == Abandoned }

  /** Every buffer that somebody other than the free list has, or that is lost. */
  ghost function InUse(p: Pool): set<MsgBuf> {
    ThreadSet(p) + PeekSet(p) + PendingSet(p) + ClientSet(p) + AbandonedSet(p)
  }

  ghost predicate NoDuplicates<T>(s: seq<T>) {
    forall j, k :: 0 <= j < k < |s| ==> s[j] != s[k]
  }

  /** In every reachable state the six places a buffer can be are pairwise disjoint and
      together hold every buffer ever malloc'd, none of them holding a buffer twice. */
  lemma ReachablePartition(run: seq<Event>)
    ensures var p := Exec(START, run);
            && FreeSet(p) + InUse(p) == p.mem.Keys
            && FreeSet(p) !! ThreadSet(p) !! PeekSet(p) !! PendingSet(p) !! ClientSet(p) !! AbandonedSet(p)
            && NoDuplicates(p.free) && NoDuplicates(p.msgbufs)
            && (forall i, j :: 0 <= i < j < |p.peekBuf| && p.peekBuf[i] != null ==> p.peekBuf[i] != p.peekBuf[j])
  {
    StartInv();
    ExecKeepsInv(START, run);
    Partition(Exec(START, run));
  }

  /** The set of buffers recorded at the kind of place that b's owner names. */
  ghost function SetOf(p: Pool, o: Owner): set<MsgBuf> {
    match o
    case Free(_) => FreeSet(p)
    case Thread(_) => ThreadSet(p)
    case Peek(_) => PeekSet(p)
    case Pending(_) => PendingSet(p)
    case Client => ClientSet(p)
    case Abandoned => AbandonedSet(p)
  }

  lemma InOwnSet(p: Pool, b: MsgBuf)
    requires Inv(p) && b in p.owner
    ensures b in SetOf(p, p.owner[b])
  {
    assert p.owner[b] in {Client, Abandoned} || Place(p, p.owner[b]) == b;
  }

  lemma InNoOtherSet(p: Pool)
    requires Inv(p)
    ensures forall b :: b in FreeSet(p) ==> b in p.owner && p.owner[b].Free?
    ensures forall b :: b in ThreadSet(p) ==> b in p.owner && p.owner[b].Thread?
    ensures forall b :: b in PeekSet(p) ==> b in p.owner && p.owner[b].Peek?
    ensures forall b :: b in PendingSet(p) ==> b in p.owner && p.owner[b].Pending?
  {
    assert forall k :: 0 <= k < |p.free| ==> p.free[k] == Place(p, Free(k));
    assert forall k :: 0 <= k < |p.msgbufs| ==> p.msgbufs[k] == Place(p, Thread(k));
    assert forall i :: 0 <= i < SLOTS ==> p.peekBuf[i] == Place(p, Peek(i));
    assert forall k :: p.at <= k < |p.batch| ==> p.batch[k].header == Place(p, Pending(k));
  }

  lemma NoDoubles(p: Pool)
    requires Inv(p)
    ensures NoDuplicates(p.free) && NoDuplicates(p.msgbufs)
    ensures forall i, j :: 0 <= i < j < |p.peekBuf| && p.peekBuf[i] != null ==> p.peekBuf[i] != p.peekBuf[j]
  {
    assert forall k :: 0 <= k < |p.free| ==> p.free[k] == Place(p, Free(k));
    assert forall k :: 0 <= k < |p.msgbufs| ==> p.msgbufs[k] == Place(p, Thread(k));
    assert forall i :: 0 <= i < SLOTS ==> p.peekBuf[i] == Place(p, Peek(i));
  }

  lemma Partition(p: Pool)
    requires Inv(p)
    ensures FreeSet(p) + InUse(p) == p.mem.Keys
    ensures FreeSet(p) !! ThreadSet(p) !! PeekSet(p) !! PendingSet(p) !! ClientSet(p) !! AbandonedSet(p)
    ensures NoDuplicates(p.free) && NoDuplicates(p.msgbufs)
    ensures forall i, j :: 0 <= i < j < |p.peekBuf| && p.peekBuf[i] != null ==> p.peekBuf[i] != p.peekBuf[j]
    ensures forall b :: b in p.owner ==> (b in FreeSet(p) <==> p.owner[b].Free?)
  {
    InNoOtherSet(p);
    NoDoubles(p);
    forall b | b in p.owner ensures b in SetOf(p, p.owner[b]) { InOwnSet(p, b); }
  }

  /** The n-th buffer met when following the links from `b`. */
  ghost function Follow(mem: map<MsgBuf, Content>, b: MsgBuf?, n: nat): MsgBuf? {
    if n == 0 then b else NextOf(mem, Follow(mem, b, n - 1))
  }

  lemma {:induction false} FollowsFree(mem: map<MsgBuf, Content>, free: seq<MsgBuf>, n: nat)
    requires Linked(mem, free) && n <= |free|
    ensures Follow(mem, Top(free), n) == Top(free[..|free| - n]) && Linked(mem, free[..|free| - n])
  {
    if n == 0 {
      assert free[..|free|] == free;
    } else {
      FollowsFree(mem, free, n - 1);
      assert DropLast(free[..|free| - n + 1]) == free[..|free| - n];
    }
  }

  /** In every reachable state, following the links written inside the free buffers from
      free_msgbufs visits finitely many buffers, each once and none in use, and then ends. */
  lemma ReachableFreeListIsChain(run: seq<Event>)
    ensures var p := Exec(START, run);
            && Follow(p.mem, p.head, |p.free|) == null
            && (forall n :: 0 <= n < |p.free| ==>
                  && Follow(p.mem, p.head, n) == p.free[|p.free| - 1 - n]
                  && p.free[|p.free| - 1 - n] !in InUse(p))
            && NoDuplicates(p.free)
  {
    var p := Exec(START, run);
    StartInv();
    ExecKeepsInv(START, run);
    NoDoubles(p);
    FollowsFree(p.mem, p.free, |p.free|);
    assert p.free[..0] == [];
    forall n | 0 <= n < |p.free|
      ensures Follow(p.mem, p.head, n) == p.free[|p.free| - 1 - n] && p.free[|p.free| - 1 - n] !in InUse(p)
    {
      FollowsFree(p.mem, p.free, n);
      assert Top(p.free[..|p.free| - n]) == p.free[|p.free| - 1 - n];
      FreeUnused(p, |p.free| - 1 - n);
    }
  }

  lemma FreeUnused(p: Pool, k: nat)
    requires Inv(p) && k < |p.free|
    ensures p.free[k] !in InUse(p)
  {
    Partition(p);
    assert p.free[k] in FreeSet(p);
  }

  /** The first half of alloc_msgbuf, under the lock, and the second, after it. */
  predicate TestsList(e: Event) { e.PeekList? || e.ThreadList? }

  predicate Mallocs(e: Event) { e.PeekMalloc? || e.ThreadMalloc? }

  /** alloc_msgbuf never hands out a buffer that already has an owner, whatever happens between its
      look at the list and its malloc; it goes on to malloc exactly when the list is empty. */
  lemma AllocIsUnowned(run: seq<Event>, e: Event)
    requires Enabled(Exec(START, run), e) && (TestsList(e) || Mallocs(e))
    ensures var p := Exec(START, run);
            && (Moved(p, e) != null ==> Moved(p, e) !in InUse(p) && Moved(p, e) in InUse(Step(p, e)))
            && (TestsList(e) ==> (Moved(p, e) == null <==> FreeSet(p) == {}))
            && (TestsList(e) ==> (|Step(p, e).mallocing| == |p.mallocing| + if FreeSet(p) == {} then 1 else 0))
  {
    var p := Exec(START, run);
    StartInv();
    ExecKeepsInv(START, run);
    if TestsList(e) { ListIsUnowned(p, e); }
    if Moved(p, e) != null { MovedIsUsed(p, e); }
  }

  lemma ListIsUnowned(p: Pool, e: Event)
    requires Inv(p) && Enabled(p, e) && TestsList(e)
    ensures Moved(p, e) != null ==> Moved(p, e) in FreeSet(p)
    ensures Moved(p, e) == null <==> FreeSet(p) == {}
    ensures |Step(p, e).mallocing| == |p.mallocing| + if FreeSet(p) == {} then 1 else 0
  {
    if p.free == [] {
      assert FreeSet(p) == {};
    } else {
      assert p.head == p.free[|p.free| - 1] && p.head in FreeSet(p);
    }
  }

  lemma MovedIsUsed(p: Pool, e: Event)
    requires Inv(p) && Enabled(p, e) && (TestsList(e) || Mallocs(e)) && Moved(p, e) != null
    ensures Moved(p, e) !in InUse(p) && Moved(p, e) in InUse(Step(p, e))
  {
    var b := Moved(p, e);
    Partition(p);
    MovedBetween(p, e);
    StepKeepsInv(p, e);
    StepOwner(p, e);
    InOwnSet(Step(p, e), b);
    if b in p.owner { assert b in FreeSet(p); }
  }

  // ------------------------------------------- one FIFO per service

  /** The message fill_peek_buf has fetched and nobody has consumed yet. */
  function Peeked(p: Pool, i: nat): seq<Msg> {
    if Shaped(p) && i < SLOTS && p.peekSize[i] >= 0
       && p.peekBuf[i] != null && p.peekBuf[i] in p.mem && p.mem[p.peekBuf[i]].Data?
    then [p.mem[p.peekBuf[i]].bytes] else []
  }

  /** What the client of service i has yet to receive: the peeked message, then the driver's queue. */
  function AbsQueue(p: Pool, i: nat): seq<Msg> {
    if Shaped(p) && i < SLOTS then Peeked(p, i) + p.queues[i] else []
  }

  /** The messages of service i that event e delivers to its client for good. */
  function Consumed(p: Pool, e: Event, i: nat): seq<Msg> {
    if !Enabled(p, e) || i >= SLOTS then [] else
    match e
    case Remove(j) => if i == j then Peeked(p, i) else []
    case Take(j) => if i == j then Peeked(p, i) else []
    case Dequeue(j, max, granted) =>
      if i != j then []
      else if p.peekSize[i] >= 0 then if p.peekSize[i] <= max then Peeked(p, i) else []
      else if Dequeues(p.queues[i], max, granted) then [p.queues[i][0]] else []
    case _ => []
  }

  function ConsumedAll(p: Pool, run: seq<Event>, i: nat): seq<Msg>
    decreases |run|
  {
    if run == [] then [] else Consumed(p, run[0], i) + ConsumedAll(Step(p, run[0]), run[1..], i)
  }

  function ArrivedAll(run: seq<Event>, i: nat): seq<Msg> {
    if run == [] then []
    else (if run[0].Arrive? && run[0].i == i then [run[0].msg] else []) + ArrivedAll(run[1..], i)
  }

  predicate NoReset(run: seq<Event>, i: nat) {
    forall k :: 0 <= k < |run| && run[k].Reset? ==> run[k].i != i
  }

  /** The events in which service i itself takes part. */
  predicate Own(e: Event, i: nat) {
    (e.Arrive? || e.Fill? || e.Remove? || e.Take? || e.Dequeue? || e.Reset?) && e.i == i
  }

  /** Nothing but its own service's calls touches a peeked message. */
  lemma PeekedFrame(p: Pool, e: Event, i: nat)
    requires Inv(p) && i < SLOTS && !Own(e, i)
    ensures Shaped(Step(p, e)) && Step(p, e).queues[i] == p.queues[i] && Step(p, e).peekSize[i] == p.peekSize[i]
    ensures p.peekSize[i] >= 0 ==> Step(p, e).peekBuf[i] == p.peekBuf[i]
    ensures p.peekSize[i] >= 0 && p.peekBuf[i] != null ==>
      && p.peekBuf[i] in Step(p, e).mem && Step(p, e).mem[p.peekBuf[i]] == p.mem[p.peekBuf[i]]
  {
    if Enabled(p, e) && p.peekSize[i] >= 0 && p.peekBuf[i] != null {
      assert Place(p, Peek(i)) == p.peekBuf[i];
      StepWrites(p, e, p.peekBuf[i]);
    }
  }

  /** The messages consumed and those left, after e, are those before, and what arrives. */
  ghost predicate FifoStep(p: Pool, e: Event, i: nat) {
    Consumed(p, e, i) + AbsQueue(Step(p, e), i)
      == AbsQueue(p, i) + if e.Arrive? && e.i == i then [e.msg] else []
  }

  lemma SupplyFifo(p: Pool, e: Event, i: nat)
    requires Shaped(p) && i < SLOTS && (e.Arrive? || e.Fill?) && e.i == i
    requires p.peekSize[i] >= 0 && p.peekBuf[i] != null ==> Peeked(p, i) != []
    ensures FifoStep(p, e, i)
  {
    if e.Arrive? {
      assert Peeked(Step(p, e), i) == Peeked(p, i);
    } else if Step(p, e) != p {
      assert Peeked(p, i) == [] && Peeked(Step(p, e), i) == [p.queues[i][0]];
    }
  }

  lemma TakingFifo(p: Pool, e: Event, i: nat)
    requires Shaped(p) && i < SLOTS && (e.Remove? || e.Take? || e.Dequeue?) && e.i == i
    requires p.peekSize[i] >= 0 && p.peekBuf[i] != null ==> Peeked(p, i) != []
    ensures FifoStep(p, e, i)
  {
    if Step(p, e) != p { assert Peeked(Step(p, e), i) == []; }
  }

  lemma OthersFifo(p: Pool, e: Event, i: nat)
    requires Inv(p) && i < SLOTS && !Own(e, i)
    ensures FifoStep(p, e, i)
  {
    assert Consumed(p, e, i) == [];
    SameQueue(p, e, i);
  }

  lemma SameQueue(p: Pool, e: Event, i: nat)
    requires Inv(p) && i < SLOTS && !Own(e, i)
    ensures AbsQueue(Step(p, e), i) == AbsQueue(p, i)
  {
    PeekedFrame(p, e, i);
    assert Peeked(Step(p, e), i) == Peeked(p, i);
  }

  lemma StepFifo(p: Pool, e: Event, i: nat)
    requires Inv(p) && i < SLOTS && (e.Reset? ==> e.i != i)
    ensures FifoStep(p, e, i)
  {
    if !Own(e, i) {
      OthersFifo(p, e, i);
    } else {
      assert p.peekSize[i] >= 0 && p.peekBuf[i] != null ==> Peeked(p, i) != [];
      if e.Arrive? || e.Fill? { SupplyFifo(p, e, i); } else { TakingFifo(p, e, i); }
    }
  }

  /** Over any interleaving with all other services and the completion thread, what the
      client receives followed by what it still has to receive is what it had to receive
      followed by what arrived: nothing lost, duplicated or reordered. */
  lemma {:induction false} Fifo(p: Pool, run: seq<Event>, i: nat)
    requires Inv(p) && i < SLOTS && NoReset(run, i)
    ensures ConsumedAll(p, run, i) + AbsQueue(Exec(p, run), i) == AbsQueue(p, i) + ArrivedAll(run, i)
    decreases |run|
  {
    if run != [] {
      StepKeepsInv(p, run[0]);
      StepFifo(p, run[0], i);
      Fifo(Step(p, run[0]), run[1..], i);
      Regroup(Consumed(p, run[0], i), ConsumedAll(Step(p, run[0]), run[1..], i), AbsQueue(Exec(p, run), i),
              AbsQueue(Step(p, run[0]), i), AbsQueue(p, i),
              if run[0].Arrive? && run[0].i == i then [run[0].msg] else [], ArrivedAll(run[1..], i));
    }
  }

  lemma Regroup<T>(c: seq<T>, rest: seq<T>, end: seq<T>, mid: seq<T>, start: seq<T>, a: seq<T>, later: seq<T>)
    requires c + mid == start + a && rest + end == mid + later
    ensures (c + rest) + end == start + (a + later)
  {
    assert (c + rest) + end == c + (rest + end);
    assert (c + mid) + later == c + (mid + later);
  }

  /** Fifo over the life of one service: from its creation on slot i until the slot is created
      again, what its client has received is a prefix of what the driver queued for it, and
      the rest is still there in order. */
  lemma ServiceFifo(before: seq<Event>, run: seq<Event>, i: nat)
    requires i < SLOTS && NoReset(run, i)
    ensures var p := Step(Exec(START, before), Reset(i, true));
            ConsumedAll(p, run, i) + AbsQueue(Exec(p, run), i) == ArrivedAll(run, i)
  {
    StartInv();
    ExecKeepsInv(START, before);
    StepKeepsInv(Exec(START, before), Reset(i, true));
    Fifo(Step(Exec(START, before), Reset(i, true)), run, i);
  }

  /** A creation on slot i drops the message peeked there; if the driver accepts the service its queue starts
      empty, otherwise the slot goes on naming the queue of the service before.  No other service notices. */
  lemma ResetDropsPeeked(p: Pool, i: nat, created: bool, j: nat)
    requires Inv(p) && i < SLOTS && j < SLOTS
    ensures AbsQueue(Step(p, Reset(i, created)), j) ==
      if j != i then AbsQueue(p, j) else if created then [] else p.queues[i]
  {
    if j != i { SameQueue(p, Reset(i, created), j); } else { assert Peeked(Step(p, Reset(i, created)), i) == []; }
  }

  /** As long as nothing of service i is consumed and its slot is not reused, whatever else is called,
      a peeked message stays in the same buffer with the same bytes and size, and so stays the head of
      the service's queue: repeated peeks agree, and a dequeue it is too long for leaves it there. */
  lemma {:induction false} PeekStable(p: Pool, run: seq<Event>, i: nat)
    requires Inv(p) && i < SLOTS && p.peekSize[i] >= 0 && p.peekBuf[i] != null
    requires ConsumedAll(p, run, i) == [] && NoReset(run, i)
    ensures var q := Exec(p, run);
            && Shaped(q) && q.peekBuf[i] == p.peekBuf[i] && q.peekSize[i] == p.peekSize[i]
            && q.peekBuf[i] in q.mem && q.mem[q.peekBuf[i]] == p.mem[p.peekBuf[i]]
            && AbsQueue(q, i)[..1] == AbsQueue(p, i)[..1] == Peeked(p, i)
    decreases |run|
  {
    if run != [] {
      StepKeepsInv(p, run[0]);
      PeekKept(p, run[0], i);
      PeekStable(Step(p, run[0]), run[1..], i);
    }
  }

  lemma PeekKept(p: Pool, e: Event, i: nat)
    requires Inv(p) && i < SLOTS && p.peekSize[i] >= 0 && p.peekBuf[i] != null
    requires Consumed(p, e, i) == [] && (e.Reset? ==> e.i != i)
    ensures var q := Step(p, e);
            && Shaped(q) && q.peekBuf[i] == p.peekBuf[i] && q.peekSize[i] == p.peekSize[i]
            && p.peekBuf[i] in q.mem && q.mem[p.peekBuf[i]] == p.mem[p.peekBuf[i]]
  {
    if Own(e, i) {
      assert Peeked(p, i) != [];
    } else {
      PeekedFrame(p, e, i);
    }
  }

  /** A client call takes what it consumes from the front of its service's queue, and nothing
      from any other. */
  lemma ConsumeStep(p: Pool, e: Event, i: nat)
    requires Inv(p) && i < SLOTS && !e.Arrive? && !e.Reset?
    ensures Consumed(p, e, i) <= AbsQueue(p, i)
    ensures AbsQueue(Step(p, e), i) == AbsQueue(p, i)[|Consumed(p, e, i)|..]
  {
    StepFifo(p, e, i);
    var c, q := Consumed(p, e, i), AbsQueue(Step(p, e), i);
    assert c + q == AbsQueue(p, i) + [] == AbsQueue(p, i);
    assert (c + q)[|c|..] == q;
  }

  /** alloc_msgbuf for service i, uninterrupted; either half does nothing if it is not needed. */
  function Allocated(p: Pool, i: nat, m: MsgBuf?): Pool {
    Step(Step(p, PeekList(i)), PeekMalloc(i, m))
  }

  /** fill_peek_buf as a whole. */
  function Filled(p: Pool, i: nat, m: MsgBuf?, granted: bool): Pool {
    Step(Allocated(p, i, m), Fill(i, granted))
  }

  /** Fetching a message for peeking consumes nothing of any service. */
  lemma FilledKeepsQueues(p: Pool, i: nat, m: MsgBuf?, granted: bool, j: nat)
    requires Inv(p) && j < SLOTS
    ensures Inv(Filled(p, i, m, granted)) && AbsQueue(Filled(p, i, m, granted), j) == AbsQueue(p, j)
  {
    var p1 := Step(p, PeekList(i));
    var p2 := Step(p1, PeekMalloc(i, m));
    SilentStep(p, PeekList(i), j);
    SilentStep(p1, PeekMalloc(i, m), j);
    SilentStep(p2, Fill(i, granted), j);
  }

  /** An event that delivers nothing leaves what is to be received. */
  lemma SilentStep(p: Pool, e: Event, j: nat)
    requires Inv(p) && j < SLOTS && (e.PeekList? || e.PeekMalloc? || e.Fill?)
    ensures Inv(Step(p, e)) && AbsQueue(Step(p, e), j) == AbsQueue(p, j)
  {
    StepKeepsInv(p, e);
    ConsumeStep(p, e, j);
    assert AbsQueue(p, j)[0..] == AbsQueue(p, j);
  }

  /** A fetched message is the head of its service's queue. */
  lemma HeadIsPeeked(p: Pool, i: nat)
    requires Inv(p) && i < SLOTS && p.peekSize[i] >= 0 && p.peekBuf[i] != null
    ensures AbsQueue(p, i) != [] && p.peekBuf[i] in p.mem
    ensures p.mem[p.peekBuf[i]] == Data(AbsQueue(p, i)[0]) && p.peekSize[i] == |AbsQueue(p, i)[0]|
    ensures AbsQueue(p, i)[1..] == p.queues[i]
  {
  }

  /** There is a message already, or the driver has one to give and a buffer can be found. */
  predicate FillSucceeds(p: Pool, i: nat, mallocOk: bool, granted: bool)
    requires Shaped(p) && i < SLOTS
  {
    || p.peekSize[i] >= 0
    || (Dequeues(p.queues[i], MSGBUF_SIZE, granted) && (p.peekBuf[i] != null || p.head != null || mallocOk))
  }

  /** A slot that no create_service has touched: no buffer, and size 0 from static storage.
      Only the handle 0 can reach one. */
  predicate NeverCreated(p: Pool, i: nat) {
    Shaped(p) && i < SLOTS && p.peekSize[i] >= 0 && p.peekBuf[i] == null
  }

  /** A fetch for a peek or a hold succeeds exactly when the client has a message to receive that is fetched
      already, or that fits a message buffer, with the ioctl not refused and a buffer at hand: the one the
      service has, one from the free list, or a new one. */
  lemma FillSucceedsExactly(p: Pool, i: nat, mallocOk: bool, granted: bool)
    requires Inv(p) && i < SLOTS && !NeverCreated(p, i)
    ensures FillSucceeds(p, i, mallocOk, granted) <==>
      && AbsQueue(p, i) != []
      && (p.peekSize[i] >= 0 || (granted && |AbsQueue(p, i)[0]| <= 4096 && (p.peekBuf[i] != null || FreeSet(p) != {} || mallocOk)))
  {
    assert p.peekSize[i] >= -1 && PeekOkAt(p, i);
    if p.free != [] { assert p.head in FreeSet(p); } else { assert FreeSet(p) == {}; }
  }

  /** A dequeue delivers the message the client has to receive first exactly when there is one, it fits the
      client's buffer, and either it is fetched already or the ioctl is not refused; otherwise nothing. */
  lemma DequeueDeliversExactly(p: Pool, i: nat, max: nat, granted: bool)
    requires Inv(p) && i < SLOTS && !NeverCreated(p, i)
    ensures Consumed(p, Dequeue(i, max, granted), i) ==
      if AbsQueue(p, i) != [] && |AbsQueue(p, i)[0]| <= max && (p.peekSize[i] >= 0 || granted) then [AbsQueue(p, i)[0]] else []
  {
    assert p.peekSize[i] >= -1 && PeekOkAt(p, i);
  }

  /** From p to q nothing has become of what any client has yet to receive. */
  ghost predicate SameQueues(p: Pool, q: Pool) {
    forall j :: 0 <= j < SLOTS ==> AbsQueue(q, j) == AbsQueue(p, j)
  }

  lemma SilentQueues(p: Pool, e: Event)
    requires Inv(p) && (e.PeekList? || e.PeekMalloc? || e.Fill?)
    ensures Inv(Step(p, e)) && SameQueues(p, Step(p, e))
  {
    StepKeepsInv(p, e);
    forall j | 0 <= j < SLOTS ensures AbsQueue(Step(p, e), j) == AbsQueue(p, j) { SilentStep(p, e, j); }
  }

  lemma AllocatedQueues(p: Pool, i: nat, m: MsgBuf?)
    requires Inv(p)
    ensures SameQueues(p, Allocated(p, i, m))
  {
    SilentQueues(p, PeekList(i));
    SilentQueues(Step(p, PeekList(i)), PeekMalloc(i, m));
  }

  /** From p to q by event e, each client got what e delivers to it, off the front of its queue. */
  ghost predicate QueuesAfter(p: Pool, e: Event, q: Pool) {
    forall j :: 0 <= j < SLOTS ==>
      |Consumed(p, e, j)| <= |AbsQueue(p, j)| && AbsQueue(q, j) == AbsQueue(p, j)[|Consumed(p, e, j)|..]
  }

  lemma QueuesFollow(p: Pool, e: Event)
    requires Inv(p) && !e.Arrive? && !e.Reset?
    ensures QueuesAfter(p, e, Step(p, e))
  {
    forall j | 0 <= j < SLOTS
      ensures |Consumed(p, e, j)| <= |AbsQueue(p, j)|
      ensures AbsQueue(Step(p, e), j) == AbsQueue(p, j)[|Consumed(p, e, j)|..]
    {
      ConsumeStep(p, e, j);
    }
  }

  /** From p to q, the head of queue i has become the message in the client's hands, and no
      other queue has changed. */
  ghost predicate TakesHead(p: Pool, i: nat, q: Pool, data: MsgBuf?, size: int) {
    && AbsQueue(p, i) != [] && AbsQueue(q, i) == AbsQueue(p, i)[1..]
    && data != null && data in q.mem && q.mem[data] == Data(AbsQueue(p, i)[0]) && size == |AbsQueue(p, i)[0]|
    && data in ClientSet(q)
    && forall j :: 0 <= j < SLOTS && j != i ==> AbsQueue(q, j) == AbsQueue(p, j)
  }

  lemma TakeTakesHead(p: Pool, i: nat)
    requires Inv(p) && i < SLOTS && p.peekSize[i] >= 0 && p.peekBuf[i] != null
    ensures TakesHead(p, i, Step(p, Take(i)), p.peekBuf[i], p.peekSize[i])
  {
    HeadIsPeeked(p, i);
    QueuesFollow(p, Take(i));
  }

  lemma RemoveNothing(p: Pool, i: nat)
    requires Inv(p) && i < SLOTS && p.peekBuf[i] == null
    ensures SameQueues(p, Step(p, Remove(i)))
  {
    QueuesFollow(p, Remove(i));
  }

  // ------------------------------------------------ held messages

  lemma ClientKeeps(p: Pool, e: Event, b: MsgBuf)
    requires Inv(p) && b in p.owner && p.owner[b] == Client && e != Release(b)
    ensures b in Step(p, e).owner && Step(p, e).owner[b] == Client
    ensures b in Step(p, e).mem && Step(p, e).mem[b] == p.mem[b]
  {
    if Enabled(p, e) {
      StepWrites(p, e, b);
      StepOwner(p, e);
      if Moved(p, e) == b { MovedBetween(p, e); }
    }
  }

  /** A buffer a client holds keeps its bytes, and stays the client's, until it is released. */
  lemma {:induction false} ClientBufferStable(p: Pool, run: seq<Event>, b: MsgBuf)
    requires Inv(p) && b in p.owner && p.owner[b] == Client
    requires Release(b) !in run
    ensures var q := Exec(p, run);
            b in q.owner && q.owner[b] == Client && b in q.mem && q.mem[b] == p.mem[b]
    decreases |run|
  {
    if run != [] {
      StepKeepsInv(p, run[0]);
      ClientKeeps(p, run[0], b);
      ClientBufferStable(Step(p, run[0]), run[1..], b);
    }
  }

  /** A message taken with vchi_msg_hold keeps its exact bytes through any later events of
      any service and of the completion thread, until it is released. */
  lemma HeldMessageKeepsBytes(before: seq<Event>, i: nat, run: seq<Event>)
    requires Enabled(Exec(START, before), Take(i))
    requires Release(Exec(START, before).peekBuf[i]) !in run
    ensures var p := Exec(START, before);
            var b, q := p.peekBuf[i], Exec(Step(p, Take(i)), run);
            && AbsQueue(p, i) != [] && Consumed(p, Take(i), i) == [AbsQueue(p, i)[0]]
            && b in q.mem && q.mem[b] == Data(AbsQueue(p, i)[0])
            && b in ClientSet(q)
  {
    var p := Exec(START, before);
    StartInv();
    ExecKeepsInv(START, before);
    StepKeepsInv(p, Take(i));
    assert Place(p, Peek(i)) == p.peekBuf[i];
    ClientBufferStable(Step(p, Take(i)), run, p.peekBuf[i]);
  }

  /** The events of a history that are not the completion thread's. */
  function ClientHistory(run: seq<Event>): seq<Event> {
    if run == [] then []
    else ClientHistory(run[..|run| - 1]) + if ThreadEvent(run[|run| - 1]) then [] else [run[|run| - 1]]
  }

  lemma ThreadEventUnseen(run: seq<Event>, e: Event)
    requires ThreadEvent(e)
    ensures ClientHistory(run + [e]) == ClientHistory(run)
  {
    assert (run + [e])[..|run|] == run;
  }

  // ------------------------------------------------ footprint

  lemma {:induction false} SizeOfDistinct(s: seq<MsgBuf>)
    requires NoDuplicates(s)
    ensures |Elements(s)| == |s|
  {
    if s != [] {
      SizeOfDistinct(s[..|s| - 1]);
      assert Elements(s) == Elements(s[..|s| - 1]) + {s[|s| - 1]};
    }
  }

  /** Every buffer ever malloc'd is on the free list or in use. */
  lemma MemSize(p: Pool)
    requires Inv(p)
    ensures |p.mem| == |p.free| + |InUse(p)|
  {
    Partition(p);
    SizeOfDistinct(p.free);
    assert |FreeSet(p) + InUse(p)| == |FreeSet(p)| + |InUse(p)|;
    assert |p.mem| == |p.mem.Keys|;
  }

  /** Buffers malloc'd and about to be. */
  function Claimed(p: Pool): nat { |p.mem| + |p.mallocing| }

  /** Buffers in use (owned or abandoned) and asked for: a caller that has found the list empty needs
      one more. */
  ghost function Demand(p: Pool): nat { |InUse(p)| + |p.mallocing| }

  /** The highest demand at any point of the run. */
  ghost function PeakDemand(p: Pool, run: seq<Event>): nat
    decreases |run|
  {
    if run == [] then Demand(p) else Max(Demand(p), PeakDemand(Step(p, run[0]), run[1..]))
  }

  /** The most buffers in use at any point of the run. */
  ghost function PeakInUse(p: Pool, run: seq<Event>): nat
    decreases |run|
  {
    if run == [] then |InUse(p)| else Max(|InUse(p)|, PeakInUse(Step(p, run[0]), run[1..]))
  }

  /** A malloc that returns nothing. */
  predicate FailsMalloc(p: Pool, e: Event) { Mallocs(e) && Enabled(p, e) && e.m == null }

  /** A caller goes on to malloc only when the free list is empty, and only then is one more claimed. */
  lemma ClaimStep(p: Pool, e: Event)
    requires Inv(p)
    ensures |p.mem| <= |Step(p, e).mem|
    ensures if FailsMalloc(p, e) then Claimed(Step(p, e)) == Claimed(p) - 1
            else Claimed(Step(p, e)) == Claimed(p) || (p.free == Step(p, e).free == [] && Claimed(Step(p, e)) == Claimed(p) + 1)
  {
    if Enabled(p, e) {
      KeysStep(p, e);
      MallocingStep(p, e);
    }
  }

  lemma KeysStep(p: Pool, e: Event)
    requires Inv(p) && Enabled(p, e)
    ensures |Step(p, e).mem| == |p.mem| + if Mallocs(e) && e.m != null then 1 else 0
  {
    StepKeys(p, e);
    assert |p.mem| == |p.mem.Keys| && |Step(p, e).mem| == |Step(p, e).mem.Keys|;
    if Moved(p, e) != null {
      MovedBetween(p, e);
      if !Mallocs(e) { MovedIsKnown(p, e); }
    }
  }

  lemma MovedIsKnown(p: Pool, e: Event)
    requires Inv(p) && Enabled(p, e) && Moved(p, e) != null && !Mallocs(e)
    ensures Moved(p, e) in p.mem
  {
    if !e.Release? { assert Place(p, From(p, e)) == Moved(p, e); }
  }

  lemma MallocingStep(p: Pool, e: Event)
    requires Inv(p) && Enabled(p, e)
    ensures |Step(p, e).mallocing| == |p.mallocing| - (if Mallocs(e) then 1 else 0)
                                                    + (if TestsList(e) && p.head == null then 1 else 0)
    ensures TestsList(e) && p.head == null ==> p.free == Step(p, e).free == []
  {
    if e.PeekMalloc? {
      assert Step(p, e).mallocing == p.mallocing - {ForPeek(e.i)};
    } else if e.ThreadMalloc? {
      assert Step(p, e).mallocing == p.mallocing - {ForThread};
    } else if !TestsList(e) {
      OtherMallocing(p, e);
    }
  }

  lemma OtherMallocing(p: Pool, e: Event)
    requires !TestsList(e) && !Mallocs(e)
    ensures Step(p, e).mallocing == p.mallocing
  {
  }

  /** Each event keeps the buffers claimed equal to the highest demand so far, unless a malloc fails. */
  lemma StepGrows(p: Pool, e: Event)
    requires Inv(p)
    ensures if FailsMalloc(p, e) then Claimed(Step(p, e)) == Claimed(p) - 1
            else Claimed(Step(p, e)) == Max(Claimed(p), Demand(Step(p, e)))
    ensures Demand(Step(p, e)) <= Claimed(Step(p, e))
  {
    ClaimStep(p, e);
    StepKeepsInv(p, e);
    MemSize(Step(p, e));
  }

  /** No malloc of the run fails. */
  predicate MallocsSucceed(p: Pool, run: seq<Event>)
    decreases |run|
  {
    run != [] ==> !FailsMalloc(p, run[0]) && MallocsSucceed(Step(p, run[0]), run[1..])
  }

  lemma {:induction false} PeakFromAnywhere(p: Pool, run: seq<Event>)
    requires Inv(p)
    ensures PeakDemand(p, run) >= Demand(p)
    ensures Claimed(Exec(p, run)) <= Max(Claimed(p), PeakDemand(p, run))
    ensures MallocsSucceed(p, run) ==> Claimed(Exec(p, run)) == Max(Claimed(p), PeakDemand(p, run))
    decreases |run|
  {
    if run == [] {
      MemSize(p);
    } else {
      StepKeepsInv(p, run[0]);
      PeakFromAnywhere(Step(p, run[0]), run[1..]);
      PeakStep(p, run[0], PeakDemand(Step(p, run[0]), run[1..]), Claimed(Exec(p, run)));
    }
  }

  lemma PeakStep(p: Pool, e: Event, peak: nat, end: nat)
    requires Inv(p) && peak >= Demand(Step(p, e)) && end <= Max(Claimed(Step(p, e)), peak)
    ensures end <= Max(Claimed(p), Max(Demand(p), peak))
    ensures !FailsMalloc(p, e) && end == Max(Claimed(Step(p, e)), peak) ==> end == Max(Claimed(p), Max(Demand(p), peak))
  {
    MemSize(p);
    StepGrows(p, e);
  }

  lemma {:induction false} NeverShrinks(p: Pool, run: seq<Event>)
    requires Inv(p)
    ensures |p.mem| <= |Exec(p, run).mem| && PeakInUse(p, run) <= |Exec(p, run).mem|
    decreases |run|
  {
    MemSize(p);
    if run != [] {
      ClaimStep(p, run[0]);
      StepKeepsInv(p, run[0]);
      NeverShrinks(Step(p, run[0]), run[1..]);
    }
  }

  /** At some point of the run there are n buffers and none is free. */
  ghost predicate UsedUp(p: Pool, run: seq<Event>, n: nat)
    decreases |run|
  {
    (|p.mem| == n && p.free == []) || (run != [] && UsedUp(Step(p, run[0]), run[1..], n))
  }

  lemma {:induction false} AllInUseOnce(p: Pool, run: seq<Event>)
    requires Inv(p)
    ensures |Exec(p, run).mem| == PeakInUse(p, run) <==> UsedUp(p, run, |Exec(p, run).mem|)
    decreases |run|
  {
    MemSize(p);
    NeverShrinks(p, run);
    if run != [] {
      StepKeepsInv(p, run[0]);
      NeverShrinks(Step(p, run[0]), run[1..]);
      AllInUseOnce(Step(p, run[0]), run[1..]);
    }
  }

  /** After any run every buffer malloc'd is free or in use.  There are at least as many as were ever in
      use at once: exactly so many if and only if, since the last malloc, there was a moment when none
      was free.  With those about to be malloc'd they are at most as many as were ever in use and
      asked for at once: exactly so many if no malloc failed. */
  lemma Footprint(run: seq<Event>)
    ensures var p := Exec(START, run);
            && |p.mem| == |p.free| + |InUse(p)|
            && PeakInUse(START, run) <= |p.mem|
            && (|p.mem| == PeakInUse(START, run) <==> UsedUp(START, run, |p.mem|))
            && |p.mem| + |p.mallocing| <= PeakDemand(START, run)
            && (MallocsSucceed(START, run) ==> |p.mem| + |p.mallocing| == PeakDemand(START, run))
  {
    StartInv();
    ExecKeepsInv(START, run);
    MemSize(Exec(START, run));
    PeakFromAnywhere(START, run);
    NeverShrinks(START, run);
    AllInUseOnce(START, run);
  }

  lemma {:induction false} PeakAppends(p: Pool, run: seq<Event>, more: seq<Event>)
    ensures PeakInUse(p, run + more) == Max(PeakInUse(p, run), PeakInUse(Exec(p, run), more))
    decreases |run|
  {
    if run == [] {
      assert run + more == more;
    } else {
      assert (run + more)[0] == run[0] && (run + more)[1..] == run[1..] + more;
      PeakAppends(Step(p, run[0]), run[1..], more);
    }
  }

  lemma PeakCons(p: Pool, e: Event, rest: seq<Event>)
    ensures Exec(p, [e] + rest) == Exec(Step(p, e), rest)
    ensures PeakInUse(p, [e] + rest) == Max(|InUse(p)|, PeakInUse(Step(p, e), rest))
  {
    assert ([e] + rest)[1..] == rest;
  }

  /** Service i finds the list empty, a client gives buffer b back, and only then service i mallocs. */
  function FreedBetween(i: nat, b: MsgBuf, m: MsgBuf): seq<Event> {
    [PeekList(i)] + ([Release(b)] + ([PeekMalloc(i, m)] + []))
  }

  predicate CanFreeBetween(p: Pool, i: nat, b: MsgBuf, m: MsgBuf) {
    Enabled(p, PeekList(i)) && p.head == null && Enabled(p, Release(b)) && m !in p.mem
  }

  /** In p, service i is about to malloc buffer m. */
  predicate AboutToMalloc(p: Pool, i: nat, m: MsgBuf) {
    Enabled(p, PeekMalloc(i, m))
  }

  lemma ListFoundEmpty(p: Pool, i: nat, b: MsgBuf, m: MsgBuf)
    requires Inv(p) && CanFreeBetween(p, i, b, m)
    ensures var q := Step(p, PeekList(i));
            Inv(q) && AboutToMalloc(q, i, m) && Enabled(q, Release(b)) && q.mem == p.mem && q.free == p.free
  {
    StepKeepsInv(p, PeekList(i));
  }

  lemma ReleasedMeanwhile(p: Pool, i: nat, b: MsgBuf, m: MsgBuf)
    requires Inv(p) && AboutToMalloc(p, i, m) && Enabled(p, Release(b))
    ensures var q := Step(p, Release(b));
            Inv(q) && AboutToMalloc(q, i, m) && |q.mem| == |p.mem| && |q.free| == |p.free| + 1
  {
    StepKeepsInv(p, Release(b));
    KeysStep(p, Release(b));
    assert b in p.mem;
  }

  lemma MallocedAnyway(p: Pool, i: nat, m: MsgBuf)
    requires Inv(p) && AboutToMalloc(p, i, m)
    ensures var q := Step(p, PeekMalloc(i, m)); Inv(q) && |q.mem| == |p.mem| + 1 && q.free == p.free
  {
    StepKeepsInv(p, PeekMalloc(i, m));
    KeysStep(p, PeekMalloc(i, m));
  }

  lemma FreedMeanwhile(p: Pool, i: nat, b: MsgBuf, m: MsgBuf)
    requires Inv(p) && CanFreeBetween(p, i, b, m)
    ensures var run := FreedBetween(i, b, m);
            |Exec(p, run).mem| == |p.mem| + 1 && PeakInUse(p, run) == |InUse(p)| == |p.mem|
  {
    var p1 := Step(p, PeekList(i));
    var p2 := Step(p1, Release(b));
    var p3 := Step(p2, PeekMalloc(i, m));
    ListFoundEmpty(p, i, b, m);
    ReleasedMeanwhile(p1, i, b, m);
    MallocedAnyway(p2, i, m);
    Sizes(p, p1, p2, p3);
    PeakCons(p2, PeekMalloc(i, m), []);
    PeakCons(p1, Release(b), [PeekMalloc(i, m)] + []);
    PeakCons(p, PeekList(i), [Release(b)] + ([PeekMalloc(i, m)] + []));
  }

  lemma Sizes(p: Pool, p1: Pool, p2: Pool, p3: Pool)
    requires Inv(p) && Inv(p1) && Inv(p2) && Inv(p3)
    requires p.head == null && |p1.mem| == |p2.mem| == |p.mem| && |p3.mem| == |p.mem| + 1
    requires p1.free == p.free && |p2.free| == |p3.free| == |p.free| + 1
    ensures |InUse(p)| == |InUse(p1)| == |p.mem| && |InUse(p2)| == |p.mem| - 1 && |InUse(p3)| == |p.mem|
  {
    MemSize(p);
    MemSize(p1);
    MemSize(p2);
    MemSize(p3);
  }

  /** However the library got there, if a buffer is given back between a service's look at the empty list
      and its malloc, there is then one buffer more than was ever in use at once. */
  lemma MoreThanEverUsed(before: seq<Event>, i: nat, b: MsgBuf, m: MsgBuf)
    requires CanFreeBetween(Exec(START, before), i, b, m)
    ensures var run := before + FreedBetween(i, b, m);
            |Exec(START, run).mem| == PeakInUse(START, run) + 1
  {
    StartInv();
    ExecKeepsInv(START, before);
    FreedMeanwhile(Exec(START, before), i, b, m);
    ExecAppend(START, before, FreedBetween(i, b, m));
    PeakAppends(START, before, FreedBetween(i, b, m));
    Footprint(before);
  }

  lemma ExecTwo(p: Pool, e: Event, f: Event)
    ensures Exec(p, [e, f]) == Step(Step(p, e), f)
  {
    assert [e, f][1..] == [f] && [f][1..] == [];
    assert Exec(p, [e, f]) == Exec(Step(p, e), [f]);
  }

  lemma ExecThree(p: Pool, e: Event, f: Event, g: Event)
    ensures Exec(p, [e, f, g]) == Step(Step(Step(p, e), f), g)
  {
    assert [e, f, g][1..] == [f, g];
    ExecTwo(Step(p, e), f, g);
  }

  /** Services 0 and 1 are created, and service 0 is about to malloc. */
  function Prepare(): seq<Event> {
    [Reset(1, true), Reset(0, true)] + [Arrive(0, []), PeekList(0)]
  }

  /** Its client holds the message it fetched. */
  function HoldFirst(b: MsgBuf): seq<Event> {
    [PeekMalloc(0, b), Fill(0, true), Take(0)]
  }

  lemma Prepared()
    ensures var p := Exec(START, Prepare());
            && Shaped(p) && p.mallocing == {ForPeek(0)} && p.head == null && p.mem == map[] && p.owner == map[]
            && p.peekSize[0] == p.peekSize[1] == -1 && p.peekBuf[0] == p.peekBuf[1] == null && p.queues[0] == [[]]
  {
    var p := Step(Step(START, Reset(1, true)), Reset(0, true));
    ExecTwo(START, Reset(1, true), Reset(0, true));
    ExecTwo(p, Arrive(0, []), PeekList(0));
    ExecAppend(START, [Reset(1, true), Reset(0, true)], [Arrive(0, []), PeekList(0)]);
    var q := Step(p, Arrive(0, []));
    assert Step(q, PeekList(0)) == q.(mallocing := {ForPeek(0)});
  }

  /** Such a point is reached: the client of service 0 has the only buffer and service 1 has none. */
  lemma OneHeld(b: MsgBuf, m: MsgBuf)
    requires b != m
    ensures CanFreeBetween(Exec(START, Prepare() + HoldFirst(b)), 1, b, m)
  {
    var p := Exec(START, Prepare());
    Prepared();
    FirstMalloc(p, b);
    ExecThree(p, PeekMalloc(0, b), Fill(0, true), Take(0));
    ExecAppend(START, Prepare(), HoldFirst(b));
  }

  lemma FirstMalloc(p: Pool, b: MsgBuf)
    requires Shaped(p) && p.mallocing == {ForPeek(0)} && p.head == null && p.mem == map[] && p.owner == map[]
    requires p.peekSize[0] == p.peekSize[1] == -1 && p.peekBuf[0] == p.peekBuf[1] == null && p.queues[0] == [[]]
    ensures var q := Step(Step(Step(p, PeekMalloc(0, b)), Fill(0, true)), Take(0));
            && Shaped(q) && q.mem.Keys == {b} && q.head == null && q.mallocing == {}
            && q.owner == map[b := Client] && q.peekSize[1] == -1 && q.peekBuf[1] == null
  {
    var p1 := Step(p, PeekMalloc(0, b));
    var p2 := Step(p1, Fill(0, true));
    assert p1.peekBuf[0] == b && p1.mallocing == {} && p1.mem == map[b := Data([])];
    assert p2.peekSize[0] == 0 && p2.mem == map[b := Data([])];
  }

  /** Nothing comes between a caller's look at the empty list and its successful malloc. */
  ghost predicate Undisturbed(p: Pool, run: seq<Event>)
    decreases |run|
  {
    if run == [] then p.mallocing == {}
    else
      && (p.mallocing != {} ==> Mallocs(run[0]) && Enabled(p, run[0]) && run[0].m != null && |p.mallocing| == 1)
      && Undisturbed(Step(p, run[0]), run[1..])
  }

  lemma {:induction false} UndisturbedPeak(p: Pool, run: seq<Event>)
    requires Inv(p) && Undisturbed(p, run)
    ensures MallocsSucceed(p, run) && PeakDemand(p, run) == PeakInUse(p, run)
    decreases |run|
  {
    if run != [] {
      var q := Step(p, run[0]);
      StepKeepsInv(p, run[0]);
      UndisturbedPeak(q, run[1..]);
      if p.mallocing != {} { MallocUses(p, run[0]); } else { CalmStep(p, run[0]); }
      assert PeakInUse(q, run[1..]) >= |InUse(q)|;
    }
  }

  lemma CalmStep(p: Pool, e: Event)
    requires Inv(p) && p.mallocing == {}
    ensures !FailsMalloc(p, e) && Demand(p) == |InUse(p)|
  {
  }

  lemma MallocUses(p: Pool, e: Event)
    requires Inv(p) && Mallocs(e) && Enabled(p, e) && e.m != null && |p.mallocing| == 1
    ensures Demand(p) == |InUse(Step(p, e))|
  {
    StepKeepsInv(p, e);
    MemSize(p);
    MemSize(Step(p, e));
    KeysStep(p, e);
    assert Step(p, e).free == p.free;
  }

  /** If alloc_msgbuf is not interrupted, the buffers malloc'd are exactly as many as were in use at
      once at the worst moment. */
  lemma UndisturbedFootprint(run: seq<Event>)
    requires Undisturbed(START, run)
    ensures |Exec(START, run).mem| == PeakInUse(START, run)
  {
    StartInv();
    UndisturbedPeak(START, run);
    Footprint(run);
    EndsCalm(START, run);
  }

  lemma {:induction false} EndsCalm(p: Pool, run: seq<Event>)
    requires Undisturbed(p, run)
    ensures Exec(p, run).mallocing == {}
    decreases |run|
  {
    if run != [] { EndsCalm(Step(p, run[0]), run[1..]); }
  }

  /** The buffer an event gives to a client: a held message or a header delivered to base.callback. */
  function Gained(p: Pool, e: Event): set<MsgBuf> {
    if !Enabled(p, e) then {} else
    match e
    case Take(i) => {p.peekBuf[i]}
    case Deliver(true) => if p.batch[p.at].header == null then {} else {p.batch[p.at].header}
    case _ => {}
  }

  /** The buffer a client gives back. */
  function Returned(p: Pool, e: Event): set<MsgBuf> {
    if Enabled(p, e) && e.Release? then {e.b} else {}
  }

  /** One buffer's new owner. */
  lemma MovedOwner(p: Pool, e: Event, b: MsgBuf)
    requires Inv(p) && Enabled(p, e)
    ensures b in Step(p, e).owner <==> b in p.owner || b == Moved(p, e)
    ensures b in Step(p, e).owner ==> Step(p, e).owner[b] == if b == Moved(p, e) then To(p, e) else p.owner[b]
    ensures b == Moved(p, e) && b in p.owner ==> p.owner[b] == From(p, e)
  {
    StepOwner(p, e);
    if Moved(p, e) != null { MovedBetween(p, e); }
  }

  lemma ClientMoves(p: Pool, e: Event, b: MsgBuf)
    requires Inv(p) && Enabled(p, e)
    ensures b in Gained(p, e) <==> b == Moved(p, e) && To(p, e) == Client
    ensures b in Returned(p, e) <==> b == Moved(p, e) && From(p, e) == Client && b in p.owner
  {
    if b == Moved(p, e) {
      MovedBetween(p, e);
      if Mallocs(e) { assert b !in p.mem; }
    }
  }

  lemma ClientAfter(p: Pool, e: Event, b: MsgBuf)
    requires Inv(p)
    ensures b in ClientSet(Step(p, e)) <==> (b in ClientSet(p) && b !in Returned(p, e)) || b in Gained(p, e)
  {
    if Enabled(p, e) {
      MovedOwner(p, e, b);
      ClientMoves(p, e, b);
    }
  }

  /** Clients get buffers in exactly these two ways and lose only those they give back. */
  lemma ClientsExactly(p: Pool, e: Event)
    requires Inv(p)
    ensures ClientSet(Step(p, e)) == ClientSet(p) - Returned(p, e) + Gained(p, e)
  {
    forall b: MsgBuf ensures b in ClientSet(Step(p, e)) <==> (b in ClientSet(p) && b !in Returned(p, e)) || b in Gained(p, e) {
      ClientAfter(p, e, b);
    }
    SetChange(ClientSet(p), Returned(p, e), Gained(p, e), ClientSet(Step(p, e)));
  }

  lemma SetChange<T>(before: set<T>, less: set<T>, more: set<T>, after: set<T>)
    requires forall x :: x in after <==> (x in before && x !in less) || x in more
    ensures after == before - less + more
  {
  }

  /** The buffer an event makes unreachable: the peek buffer of a slot that is created again,
      or a message header for a service that has no callback to take it. */
  function Lost(p: Pool, e: Event): set<MsgBuf> {
    if !Enabled(p, e) then {} else
    match e
    case Reset(i, _) => if p.peekBuf[i] == null then {} else {p.peekBuf[i]}
    case Deliver(false) => if p.batch[p.at].header == null then {} else {p.batch[p.at].header}
    case _ => {}
  }

  lemma LostMoves(p: Pool, e: Event, b: MsgBuf)
    requires Inv(p) && Enabled(p, e)
    ensures b in Lost(p, e) <==> b == Moved(p, e) && To(p, e) == Abandoned
    ensures b == Moved(p, e) ==> From(p, e) != Abandoned
  {
  }

  lemma AbandonedAfter(p: Pool, e: Event, b: MsgBuf)
    requires Inv(p)
    ensures b in AbandonedSet(Step(p, e)) <==> b in AbandonedSet(p) || b in Lost(p, e)
  {
    if Enabled(p, e) {
      MovedOwner(p, e, b);
      LostMoves(p, e, b);
    }
  }

  /** Buffers are abandoned in exactly these two ways, and never come back. */
  lemma AbandonedExactly(p: Pool, e: Event)
    requires Inv(p)
    ensures AbandonedSet(Step(p, e)) == AbandonedSet(p) + Lost(p, e)
  {
    forall b: MsgBuf ensures b in AbandonedSet(Step(p, e)) <==> (b in AbandonedSet(p) && b !in {}) || b in Lost(p, e) {
      AbandonedAfter(p, e, b);
    }
    SetChange(AbandonedSet(p), {}, Lost(p, e), AbandonedSet(Step(p, e)));
  }

  // ------------------------------------------------ the thread and its surroundings

  predicate Outside(o: Owner) { o == Client || o == Abandoned }

  /** The buffers that clients have or that are lost stay so, with the same bytes. */
  ghost predicate KeepsOutside(p: Pool, q: Pool) {
    forall b :: b in p.owner && Outside(p.owner[b]) && b in p.mem ==>
      b in q.owner && q.owner[b] == p.owner[b] && b in q.mem && q.mem[b] == p.mem[b]
  }

  /** From p to q no client has got a buffer, lost one or had one written. */
  ghost predicate Aside(p: Pool, q: Pool) {
    KeepsOutside(p, q) && ClientSet(q) == ClientSet(p) && AbandonedSet(q) == AbandonedSet(p)
  }

  lemma ThreadKeeps(p: Pool, e: Event, b: MsgBuf)
    requires Inv(p) && ThreadEvent(e) && b in p.owner && Outside(p.owner[b]) && b in p.mem
    ensures b in Step(p, e).owner && Step(p, e).owner[b] == p.owner[b]
    ensures b in Step(p, e).mem && Step(p, e).mem[b] == p.mem[b]
  {
    if Enabled(p, e) {
      StepWrites(p, e, b);
      MovedOwner(p, e, b);
    }
  }

  lemma ThreadKeepsOutside(p: Pool, e: Event)
    requires Inv(p) && ThreadEvent(e)
    ensures KeepsOutside(p, Step(p, e))
  {
    forall b | b in p.owner && Outside(p.owner[b]) && b in p.mem
      ensures b in Step(p, e).owner && Step(p, e).owner[b] == p.owner[b]
      ensures b in Step(p, e).mem && Step(p, e).mem[b] == p.mem[b]
    {
      ThreadKeeps(p, e, b);
    }
  }

  /** Until it delivers, the thread keeps to its own buffers and the free ones. */
  lemma ThreadAside(p: Pool, e: Event)
    requires Inv(p) && ThreadEvent(e) && !e.Deliver?
    ensures Aside(p, Step(p, e))
  {
    ThreadKeepsOutside(p, e);
    ClientsExactly(p, e);
    AbandonedExactly(p, e);
    assert Gained(p, e) == Returned(p, e) == Lost(p, e) == {};
  }
}
