/** vchiq_lib.c over real objects: services updated in place and message buffers linked
    through their own memory.  Every method is proved to perform events of the two state
    machines of ServiceTable and MessagePool, so an object's state is always one that the
    machines reach from the start, and what is proved of their runs holds of it. */
module VchiqLib {
  import opened Limits
  import opened MessagePool
  import opened PoolTheorems
  import opened CompletionLog
  import Bits
  import T = ServiceTable
  import TT = TableTheorems

  const SUCCESS := 0
  const ERROR := -1

  class Service {
    const index: nat     // its position in the services array
    var fourcc: int
    var callback: T.Fn
    var userdata: nat
    var handle: nat
    var libHandle: nat
    var vchiCallback: T.Fn
    var peekBuf: MsgBuf?
    var peekSize: int
    var isClient: bool

    ghost function View(): T.Slot
      reads this`libHandle, this`fourcc, this`callback, this`vchiCallback, this`userdata, this`handle, this`isClient
    {
      T.Slot(libHandle, fourcc, callback, vchiCallback, userdata, handle, isClient)
    }

    constructor (index: nat)
      ensures this.index == index && View() == T.EMPTY_SLOT && peekBuf == null && peekSize == 0
    {
      this.index := index;
      fourcc, callback, userdata, handle, libHandle, vchiCallback := 0, 0, 0, 0, 0, 0;
      peekBuf, peekSize, isClient := null, 0, false;
    }
  }

  /** VCHI_HELD_MSG_T, or a null pointer to one. */
  datatype HeldMsg = Absent | HeldMsg(message: MsgBuf?, service: nat)

  class Library {
    // vchiq_instance
    const services: seq<Service>
    var fd: int
    var initialised: int
    var connected: bool
    var useCloseDelivered: bool
    var usedServices: nat
    // static data
    var freeMsgbufs: MsgBuf?
    var handleSeq: nat
    // the device's descriptors that the process has open, and the next one's number
    var descriptors: set<int>
    var opens: nat
    // the driver's message queues, by driver handle
    var driver: map<nat, seq<Msg>>
    // callbacks made and acknowledgements sent, in order
    var log: Log

    // history: the events of both state machines so far, and the states they lead to
    ghost var calls: seq<T.Event>
    ghost var table: T.Table
    ghost var events: seq<Event>
    ghost var pool: Pool
    ghost var knownAs: map<nat, nat>   // the slot of each driver handle

    ghost predicate TableTied()
      reads this`table, this`usedServices, this`handleSeq, this`initialised, this`fd, this`connected, this`useCloseDelivered
      reads this`descriptors, this`opens
      reads services`libHandle, services`fourcc, services`callback, services`vchiCallback, services`userdata, services`handle, services`isClient
    {
      && |services| == |table.slots| == SLOTS
      && (forall i :: 0 <= i < SLOTS ==> services[i].View() == table.slots[i])
      && usedServices == table.used && handleSeq == table.handleSeq
      && initialised == table.initialised && fd == table.fd
      && connected == table.connected && useCloseDelivered == table.closeDelivered
      && descriptors == table.descriptors && opens == table.opens
    }

    ghost predicate PoolTied()
      reads this`pool, this`freeMsgbufs, services`peekBuf, services`peekSize, pool.mem.Keys
    {
      && |services| == SLOTS && Shaped(pool)
      && freeMsgbufs == pool.head && pool.mallocing == {}
      && (forall i :: 0 <= i < SLOTS ==>
            services[i].peekBuf == pool.peekBuf[i] && services[i].peekSize == pool.peekSize[i])
      && (forall b :: b in pool.mem ==> b.content == pool.mem[b])
    }

    function QueueOf(handle: nat): seq<Msg>
      reads this`driver
    {
      if handle in driver then driver[handle] else []
    }

    /** Services the driver knows have handles of their own. */
    ghost predicate DriverTied()
      reads this`pool, this`driver, this`knownAs, services`handle
    {
      && |services| == SLOTS && Shaped(pool)
      && (forall i :: 0 <= i < SLOTS ==> pool.queues[i] == QueueOf(services[i].handle))
      && driver.Keys == knownAs.Keys
      && (forall i :: 0 <= i < SLOTS ==> services[i].handle == 0 || services[i].handle in driver)
      && (forall i :: 0 <= i < SLOTS && services[i].handle in driver ==> knownAs[services[i].handle] == i)
    }

    ghost predicate Tied()
      reads this`table, this`usedServices, this`handleSeq, this`initialised, this`fd, this`connected, this`useCloseDelivered
      reads this`descriptors, this`opens
      reads this`pool, this`freeMsgbufs, this`driver, this`knownAs, services, pool.mem.Keys
    {
      && TableTied() && PoolTied() && DriverTied()
      && forall i :: 0 <= i < SLOTS ==> services[i].index == i
    }

    /** The object is in a state that the two machines reach from the start. */
    ghost predicate Valid()
      reads this, services, pool.mem.Keys
    {
      Tied() && pool == Exec(START, events) && table == T.Exec(T.START, calls)
    }

    lemma PoolInv()
      requires pool == Exec(START, events)
      ensures Inv(pool)
    {
      StartInv();
      ExecKeepsInv(START, events);
    }

    lemma TableInv()
      requires table == T.Exec(T.START, calls)
      ensures TT.Inv(table)
    {
      TT.ReachableInv(calls);
    }

    /** The pool, or what it was on the way here, has made step e. */
    ghost method Record(e: Event, before: Pool)
      requires before == Exec(START, events)
      modifies this`events
      ensures events == old(events) + [e] && Step(before, e) == Exec(START, events)
    {
      ExecAppend(START, events, [e]);
      events := events + [e];
    }

    /** The table has just made step c. */
    ghost method RecordCall(c: T.Event, before: T.Table)
      requires before == T.Exec(T.START, calls) && table == T.Step(before, c)
      modifies this`calls
      ensures calls == old(calls) + [c] && table == T.Exec(T.START, calls)
    {
      T.ExecAppend(T.START, calls, [c]);
      calls := calls + [c];
    }

    /** Pools that no field of an object tells apart. */
    ghost predicate SameFields(p: Pool, q: Pool) {
      && q.head == p.head && q.mallocing == p.mallocing && q.mem == p.mem
      && q.peekBuf == p.peekBuf && q.peekSize == p.peekSize && q.queues == p.queues
    }

    lemma ThreadMovesOnly(p: Pool, e: Event)
      requires e.ThreadStart? || e.EnterAwait? || e.AwaitReturn? || e.Deliver? || (e.Drain? && p.msgbufs == [])
      ensures SameFields(p, Step(p, e))
    {
    }

    ghost method SetPool(q: Pool)
      requires Tied() && SameFields(pool, q)
      modifies this`pool
      ensures Tied() && pool == q
    {
      pool := q;
    }

    lemma OtherServices(s: Service)
      requires Tied() && s.index < SLOTS && services[s.index] == s
      ensures forall i :: 0 <= i < SLOTS && i != s.index ==> services[i] != s
    {
    }

    /** The zero-initialised statics. */
    constructor ()
      ensures Valid() && fresh(services) && calls == [] && events == [] && log == Nothing
    {
      var s: seq<Service> := [];
      while |s| < SLOTS
        invariant |s| <= SLOTS && fresh(s)
        invariant forall i :: 0 <= i < |s| ==> s[i].View() == T.EMPTY_SLOT && s[i].peekBuf == null && s[i].peekSize == 0
        invariant forall i :: 0 <= i < |s| ==> s[i].index == i
      {
        var n := new Service(|s|);
        s := s + [n];
      }
      services := s;
      fd, initialised, connected, useCloseDelivered, usedServices := 0, 0, false, false, 0;
      descriptors, opens := {}, 0;
      freeMsgbufs, handleSeq, driver, log := null, 0, map[], Nothing;
      table, pool, knownAs, calls, events := T.START, START, map[], [], [];
    }

    // ------------------------------------------------------ message buffers

    method NewMsgbuf(ghost o: Owner) returns (b: MsgBuf)
      requires Tied() && freeMsgbufs == null
      modifies this`pool
      ensures Tied() && fresh(b) && pool == Alloc(old(pool), b, o)
    {
      b := new MsgBuf();
      pool := Alloc(pool, b, o);
    }

    method AllocMsgbuf(mallocOk: bool, ghost o: Owner) returns (b: MsgBuf?, ghost m: MsgBuf?)
      requires Tied() && FreeOk(pool)
      modifies this`freeMsgbufs, this`pool
      ensures Tied() && (m != null ==> fresh(m))
      ensures pool == Alloc(old(pool), m, o) && b == AllocResult(old(pool), m) && Unallocated(old(pool), m)
      ensures b == null <==> old(freeMsgbufs) == null && !mallocOk
    {
      b := freeMsgbufs;
      m := null;
      if b != null {
        freeMsgbufs := b.content.next;
        pool := Alloc(pool, null, o);
      } else if mallocOk {
        b := NewMsgbuf(o);
        m := b;
      }
    }

    method FreeMsgbuf(b: MsgBuf)
      requires Tied() && b in pool.mem
      modifies this`freeMsgbufs, this`pool, b
      ensures Tied() && pool == FreeBuf(old(pool), b)
    {
      b.content := Link(freeMsgbufs);
      freeMsgbufs := b;
      pool := FreeBuf(pool, b);
    }

    /** A handle the driver knows belongs to one service. */
    lemma OneServiceEach(i: nat)
      requires DriverTied() && i < SLOTS && services[i].handle in driver
      ensures forall j :: 0 <= j < SLOTS && j != i ==> services[j].handle != services[i].handle
    {
    }

    /** VCHIQ_IOC_DEQUEUE_MESSAGE on service i: the size of the message, or negative with the
        queue untouched. */
    method DequeueIoctl(i: nat, bufsize: nat, granted: bool) returns (ret: int, msg: Msg)
      requires Tied() && i < SLOTS
      modifies this`driver, this`pool
      ensures Tied()
      ensures var q := old(pool).queues[i];
              if Dequeues(q, bufsize, granted)
              then ret == |msg| && msg == q[0] && pool == old(pool).(queues := old(pool).queues[i := q[1..]])
              else ret == -1 && pool == old(pool)
    {
      var handle := services[i].handle;
      ret, msg := -1, [];
      assert pool.queues[i] == QueueOf(handle);
      if handle in driver && Dequeues(driver[handle], bufsize, granted) {
        OneServiceEach(i);
        msg := driver[handle][0];
        ret := |msg|;
        driver := driver[handle := driver[handle][1..]];
        pool := pool.(queues := pool.queues[i := pool.queues[i][1..]]);
      }
    }

    /** service->peek_buf = b; service->peek_size = size */
    method SetPeek(i: nat, b: MsgBuf?, size: int)
      requires Tied() && i < SLOTS
      modifies this`pool, services`peekBuf, services`peekSize
      ensures Tied() && pool == old(pool).(peekBuf := old(pool).peekBuf[i := b], peekSize := old(pool).peekSize[i := size])
    {
      OtherServices(services[i]);
      services[i].peekBuf, services[i].peekSize := b, size;
      pool := pool.(peekBuf := pool.peekBuf[i := b], peekSize := pool.peekSize[i := size]);
    }

    /** The two halves of alloc_msgbuf for service i, with nothing in between. */
    lemma AllocatedIs(p: Pool, i: nat, m: MsgBuf?)
      requires Shaped(p) && i < SLOTS && p.mallocing == {} && Unallocated(p, m)
      ensures Allocated(p, i, m) ==
        if p.peekSize[i] < 0 && p.peekBuf[i] == null
        then Alloc(p, m, Peek(i)).(peekBuf := p.peekBuf[i := AllocResult(p, m)]) else p
    {
    }

    /** The first half of fill_peek_buf: a buffer to fetch into. */
    method EnsurePeekBuf(i: nat, mallocOk: bool) returns (ghost m: MsgBuf?)
      requires Tied() && FreeOk(pool) && i < SLOTS && services[i].peekSize < 0
      modifies this`freeMsgbufs, this`pool, services`peekBuf, services`peekSize
      ensures Tied() && Unallocated(old(pool), m) && (m != null ==> fresh(m))
      ensures pool == Allocated(old(pool), i, m)
      ensures (services[i].peekBuf == null) == (old(services[i].peekBuf) == null && old(freeMsgbufs) == null && !mallocOk)
    {
      m := null;
      var s := services[i];
      if s.peekBuf == null {
        var b;
        b, m := AllocMsgbuf(mallocOk, Peek(i));
        SetPeek(i, b, s.peekSize);
      }
      AllocatedIs(old(pool), i, m);
    }

    /** The driver writes a message into a buffer. */
    method WriteBuf(b: MsgBuf, bytes: Msg)
      requires Tied() && b in pool.mem
      modifies this`pool, b
      ensures Tied() && pool == old(pool).(mem := old(pool).mem[b := Data(bytes)])
    {
      b.content := Data(bytes);
      pool := pool.(mem := pool.mem[b := Data(bytes)]);
    }

    /** The buffer as the ioctl leaves it, and its size. */
    method KeepMessage(i: nat, msg: Msg)
      requires Tied() && i < SLOTS && services[i].peekBuf != null && services[i].peekBuf in pool.mem
      modifies this`pool, services`peekBuf, services`peekSize, pool.mem.Keys
      ensures Tied()
      ensures pool == old(pool).(mem := old(pool).mem[old(services[i].peekBuf) := Data(msg)],
                                 peekSize := old(pool).peekSize[i := |msg|])
    {
      WriteBuf(services[i].peekBuf, msg);
      SetPeek(i, services[i].peekBuf, |msg|);
    }

    /** The second half: fetch the next message into the buffer. */
    method FetchMessage(i: nat, granted: bool) returns (ret: int)
      requires Tied() && i < SLOTS && services[i].peekSize < 0
      requires services[i].peekBuf != null && services[i].peekBuf in pool.mem
      modifies this`pool, this`driver, services`peekBuf, services`peekSize, pool.mem.Keys
      ensures Tied()
      ensures pool == Step(old(pool), Fill(i, granted))
      ensures ret == if services[i].peekSize >= 0 then 0 else -1
      ensures ret == 0 <==> Dequeues(old(pool.queues[i]), MSGBUF_SIZE, granted)
      ensures services[i].peekBuf == old(services[i].peekBuf)
    {
      var msg;
      ret, msg := DequeueIoctl(i, MSGBUF_SIZE, granted);
      if ret >= 0 {
        KeepMessage(i, msg);
        ret := 0;
      }
      assert pool == Step(old(pool), Fill(i, granted));
    }

    method EnsureIfNeeded(i: nat, mallocOk: bool) returns (ghost m: MsgBuf?)
      requires Tied() && pool == Exec(START, events) && i < SLOTS
      modifies this`freeMsgbufs, this`pool, services`peekBuf, services`peekSize
      ensures Tied() && Unallocated(old(pool), m)
      ensures pool == Allocated(old(pool), i, m) && Equipped(old(pool), i, mallocOk, pool)
      ensures fresh(pool.mem.Keys - old(pool).mem.Keys)
    {
      m := null;
      if services[i].peekSize < 0 {
        assert FreeOk(pool) by { PoolInv(); }
        m := EnsurePeekBuf(i, mallocOk);
      }
      AllocatedIs(old(pool), i, m);
    }

    /** From p to q, service i has got a buffer to fetch into, if it needs one and one can be found. */
    ghost predicate Equipped(p: Pool, i: nat, mallocOk: bool, q: Pool)
      requires i < SLOTS
    {
      && Shaped(p) && Shaped(q) && q.queues[i] == p.queues[i] && q.peekSize[i] == p.peekSize[i]
      && if p.peekSize[i] >= 0 then q.peekBuf[i] == p.peekBuf[i]
         else (q.peekBuf[i] == null <==> p.peekBuf[i] == null && p.head == null && !mallocOk)
    }

    ghost method RecordAlloc(i: nat, m: MsgBuf?, before: Pool)
      requires before == Exec(START, events) && pool == Allocated(before, i, m)
      modifies this`events
      ensures events == old(events) + [PeekList(i), PeekMalloc(i, m)] && pool == Exec(START, events)
      ensures SameQueues(before, pool)
    {
      StartInv();
      ExecKeepsInv(START, events);
      AllocatedQueues(before, i, m);
      Record(PeekList(i), before);
      Record(PeekMalloc(i, m), Step(before, PeekList(i)));
    }

    method EnsureRecorded(i: nat, mallocOk: bool) returns (ghost m: MsgBuf?)
      requires Valid() && i < SLOTS
      modifies this`freeMsgbufs, this`pool, this`events, services`peekBuf, services`peekSize
      ensures Valid() && Unallocated(old(pool), m) && fresh(pool.mem.Keys - old(pool).mem.Keys)
      ensures events == old(events) + [PeekList(i), PeekMalloc(i, m)] && SameQueues(old(pool), pool)
      ensures Equipped(old(pool), i, mallocOk, pool)
    {
      m := EnsureIfNeeded(i, mallocOk);
      RecordAlloc(i, m, old(pool));
    }

    method FetchIfNeeded(i: nat, granted: bool) returns (ret: int)
      requires Tied() && i < SLOTS
      requires services[i].peekBuf != null ==> services[i].peekBuf in pool.mem
      modifies this`pool, this`driver, services`peekBuf, services`peekSize, pool.mem.Keys
      ensures Tied() && pool == Step(old(pool), Fill(i, granted))
      ensures ret == if pool.peekSize[i] >= 0 then 0 else -1
    {
      ret := 0;
      if services[i].peekSize < 0 {
        if services[i].peekBuf == null { return -1; }
        ret := FetchMessage(i, granted);
      }
    }

    /** From p to q, service i has a message fetched, if there is one and a buffer for it. */
    ghost predicate Fetched(p: Pool, i: nat, granted: bool, q: Pool)
      requires Shaped(p) && i < SLOTS
    {
      && Shaped(q) && q.peekBuf == p.peekBuf
      && (q.peekSize[i] >= 0 <==>
            p.peekSize[i] >= 0 || (p.peekBuf[i] != null && Dequeues(p.queues[i], MSGBUF_SIZE, granted)))
    }

    lemma FillOutcome(i: nat, granted: bool)
      requires pool == Exec(START, events) && Shaped(pool) && i < SLOTS
      ensures Fetched(pool, i, granted, Step(pool, Fill(i, granted))) && SameQueues(pool, Step(pool, Fill(i, granted)))
    {
      PoolInv();
      SilentQueues(pool, Fill(i, granted));
    }

    lemma PeekBufAllocated(i: nat)
      requires pool == Exec(START, events) && Shaped(pool) && i < SLOTS
      ensures pool.peekBuf[i] != null ==> pool.peekBuf[i] in pool.mem
    {
      PoolInv();
      assert Place(pool, Peek(i)) == pool.peekBuf[i];
    }

    method FetchRecorded(i: nat, granted: bool) returns (ret: int)
      requires Valid() && i < SLOTS
      modifies this`pool, this`events, this`driver, services`peekBuf, services`peekSize, pool.mem.Keys
      ensures Valid() && events == old(events) + [Fill(i, granted)] && SameQueues(old(pool), pool)
      ensures Fetched(old(pool), i, granted, pool) && ret == if pool.peekSize[i] >= 0 then 0 else -1
    {
      PeekBufAllocated(i);
      FillOutcome(i, granted);
      ret := FetchIfNeeded(i, granted);
      Record(Fill(i, granted), old(pool));
    }

    /** fill_peek_buf on service i, with the outcomes of malloc and of the ioctl. */
    method FillPeekBuf(i: nat, mallocOk: bool, granted: bool) returns (ret: int, ghost m: MsgBuf?)
      requires Valid() && i < SLOTS
      modifies this`freeMsgbufs, this`pool, this`events, this`driver, services`peekBuf, services`peekSize, pool.mem.Keys
      ensures Valid() && Unallocated(old(pool), m)
      ensures events == old(events) + [PeekList(i), PeekMalloc(i, m), Fill(i, granted)] && SameQueues(old(pool), pool)
      ensures ret == if pool.peekSize[i] >= 0 then 0 else -1
      ensures ret == 0 <==> FillSucceeds(old(pool), i, mallocOk, granted)
      ensures ret == 0 ==> (pool.peekBuf[i] == null <==> NeverCreated(old(pool), i))
    {
      m := EnsureRecorded(i, mallocOk);
      ret := FetchRecorded(i, granted);
    }

    // ---------------------------------------------------------- client calls

    method FindService(handle: nat) returns (s: Service?)
      requires TableTied()
      ensures s == if T.Resolves(table, handle) then services[T.SlotOf(handle)] else null
      ensures T.SlotOf(handle) < SLOTS
    {
      T.SlotOfBound(handle);
      s := services[T.SlotOf(handle)];
      if s.libHandle != handle { s := null; }
    }

    /** Shows the head of the service's queue without consuming it. */
    method MsgPeek(handle: nat, mallocOk: bool, granted: bool)
      returns (ret: int, data: MsgBuf?, size: int, ghost m: MsgBuf?)
      requires Valid()
      modifies this`freeMsgbufs, this`pool, this`events, this`driver, services`peekBuf, services`peekSize, pool.mem.Keys
      ensures Valid() && Unallocated(old(pool), m)
      ensures !T.Resolves(table, handle) ==> ret == ERROR && events == old(events)
      ensures T.Resolves(table, handle) ==>
        var i := T.SlotOf(handle);
        && events == old(events) + [PeekList(i), PeekMalloc(i, m), Fill(i, granted)]
        && ret == (if FillSucceeds(old(pool), i, mallocOk, granted) then 0 else -1)
      ensures SameQueues(old(pool), pool)
      ensures ret == 0 && !NeverCreated(old(pool), T.SlotOf(handle)) ==>
        && AbsQueue(old(pool), T.SlotOf(handle)) != []
        && data != null && data in pool.mem && data.content == Data(AbsQueue(old(pool), T.SlotOf(handle))[0])
        && size == |AbsQueue(old(pool), T.SlotOf(handle))[0]|
    {
      data, size, m := null, 0, null;
      var s := FindService(handle);
      if s == null { return ERROR, data, size, m; }
      ret, m := FillPeekBuf(s.index, mallocOk, granted);
      if ret == 0 {
        data := s.peekBuf;
        size := s.peekSize;
        if data != null {
          PoolInv();
          HeadIsPeeked(pool, s.index);
        }
      }
    }

    /** peek_size = -1 */
    method Invalidate(i: nat)
      requires Tied() && i < SLOTS
      modifies this`pool, services`peekSize
      ensures Tied() && pool == Step(old(pool), Remove(i))
    {
      services[i].peekSize := -1;
      pool := Step(pool, Remove(i));
    }

    /** A client call: it has taken what it consumes from the front of its service's queue. */
    ghost method RecordQueues(e: Event, before: Pool)
      requires before == Exec(START, events) && pool == Step(before, e) && !e.Arrive? && !e.Reset?
      modifies this`events
      ensures events == old(events) + [e] && pool == Exec(START, events) && QueuesAfter(before, e, pool)
    {
      StartInv();
      ExecKeepsInv(START, events);
      QueuesFollow(before, e);
      Record(e, before);
    }

    method RemoveRecorded(i: nat)
      requires Valid() && i < SLOTS
      modifies this`pool, this`events, services`peekSize
      ensures Valid() && events == old(events) + [Remove(i)] && QueuesAfter(old(pool), Remove(i), pool)
    {
      Invalidate(i);
      RecordQueues(Remove(i), old(pool));
    }

    /** Consumes the peeked message but keeps its buffer. */
    method MsgRemove(handle: nat) returns (ret: int)
      requires Valid()
      modifies this`pool, this`events, services`peekSize
      ensures Valid()
      ensures if T.Resolves(table, handle)
              then ret == 0 && events == old(events) + [Remove(T.SlotOf(handle))]
                   && QueuesAfter(old(pool), Remove(T.SlotOf(handle)), pool)
              else ret == ERROR && events == old(events)
    {
      var s := FindService(handle);
      if s == null { return ERROR; }
      RemoveRecorded(s.index);
      ret := 0;
    }

    /** A fetched message is where the peek fields say. */
    ghost predicate PeekedHere(i: nat)
      reads this, services
      requires |services| == SLOTS && i < SLOTS
    {
      var s := services[i];
      s.peekSize >= 0 ==>
        if s.peekBuf == null then s.peekSize == 0
        else s.peekBuf in pool.mem && pool.mem[s.peekBuf].Data? && |pool.mem[s.peekBuf].bytes| == s.peekSize
    }

    lemma PeekIsHere(i: nat)
      requires PoolTied() && pool == Exec(START, events) && i < SLOTS
      ensures PeekedHere(i)
    {
      PoolInv();
    }

    /** vchi_msg_dequeue of a message that is in the peek buffer. */
    method DequeuePeeked(i: nat, max: nat, granted: bool) returns (ret: int, data: Msg)
      requires Tied() && pool == Exec(START, events) && i < SLOTS && services[i].peekSize >= 0
      modifies this`pool, services`peekBuf, services`peekSize
      ensures Tied() && pool == Step(old(pool), Dequeue(i, max, granted))
      ensures ret == (if old(pool).peekSize[i] > max then -1 else old(pool).peekSize[i])
      ensures ret >= 0 ==> ret == |data| && if NeverCreated(old(pool), i) then data == [] else [data] == Peeked(old(pool), i)
    {
      PeekIsHere(i);
      var s := services[i];
      ret, data := -1, [];
      if s.peekSize <= max {
        if s.peekBuf != null {
          data := s.peekBuf.content.bytes[..s.peekSize];
          assert data == s.peekBuf.content.bytes;
        }
        ret := s.peekSize;
        SetPeek(i, s.peekBuf, -1);
      }
      assert pool == Step(old(pool), Dequeue(i, max, granted));
    }

    /** vchi_msg_dequeue once the service is found. */
    method DequeueFrom(i: nat, max: nat, granted: bool) returns (ret: int, data: Msg)
      requires Tied() && pool == Exec(START, events) && i < SLOTS
      modifies this`pool, this`driver, services`peekBuf, services`peekSize
      ensures Tied() && pool == Step(old(pool), Dequeue(i, max, granted))
      ensures Dequeued(old(pool), i, max, granted, pool, ret, data)
    {
      if services[i].peekSize >= 0 {
        ret, data := DequeuePeeked(i, max, granted);
      } else {
        ret, data := DequeueIoctl(i, max, granted);
        assert pool == Step(old(pool), Dequeue(i, max, granted));
      }
    }

    /** What a dequeue of at most max bytes returns: the message it consumed, or -1 with nothing
        consumed; a peeked message that is too long is not consumed. */
    ghost predicate Dequeued(p: Pool, i: nat, max: nat, granted: bool, q: Pool, ret: int, data: Msg)
      requires Shaped(p) && i < SLOTS
    {
      var e := Dequeue(i, max, granted);
      && (ret == -1 || 0 <= ret == |data| <= max)
      && (ret == -1 ==> q == p)
      && (!NeverCreated(p, i) ==> Consumed(p, e, i) == if ret >= 0 then [data] else [])
      && (p.peekSize[i] > max ==> ret == -1)
    }

    method DequeueRecorded(i: nat, max: nat, granted: bool) returns (ret: int, data: Msg)
      requires Valid() && i < SLOTS
      modifies this`pool, this`events, this`driver, services`peekBuf, services`peekSize
      ensures Valid()
      ensures events == old(events) + [Dequeue(i, max, granted)] && QueuesAfter(old(pool), Dequeue(i, max, granted), pool)
      ensures Dequeued(old(pool), i, max, granted, pool, ret, data)
    {
      ret, data := DequeueFrom(i, max, granted);
      RecordQueues(Dequeue(i, max, granted), old(pool));
    }

    /** The message is read out of the buffer that vchi_msg_peek would show, if there is one. */
    method MsgDequeue(handle: nat, max: nat, granted: bool) returns (ret: int, data: Msg, actual: int)
      requires Valid()
      modifies this`pool, this`events, this`driver, services`peekBuf, services`peekSize
      ensures Valid()
      ensures !T.Resolves(table, handle) ==> ret == ERROR && events == old(events)
      ensures T.Resolves(table, handle) ==>
        var i, e := T.SlotOf(handle), Dequeue(T.SlotOf(handle), max, granted);
        && events == old(events) + [e] && QueuesAfter(old(pool), e, pool)
        && (ret == 0 || ret == -1)
        && (ret == -1 ==> pool == old(pool))
        && (ret == 0 ==> actual == |data| <= max)
        && (!NeverCreated(old(pool), i) ==> Consumed(old(pool), e, i) == if ret == 0 then [data] else [])
        && (old(pool).peekSize[i] > max ==> ret == -1)
    {
      data, actual := [], 0;
      var s := FindService(handle);
      if s == null { return ERROR, data, actual; }
      ret, data := DequeueRecorded(s.index, max, granted);
      if ret >= 0 {
        actual := ret;
        ret := 0;
      }
    }

    /** The tail of vchi_msg_hold: the client takes the buffer over. */
    method TakeBuffer(i: nat) returns (data: MsgBuf?, size: int)
      requires Tied() && i < SLOTS && services[i].peekSize >= 0
      modifies this`pool, services`peekBuf, services`peekSize
      ensures Tied()
      ensures data == old(pool).peekBuf[i] && size == old(pool).peekSize[i]
      ensures pool == Step(old(pool), if data == null then Remove(i) else Take(i))
    {
      data, size := services[i].peekBuf, services[i].peekSize;
      SetPeek(i, null, -1);
      SetPool(Step(old(pool), if data == null then Remove(i) else Take(i)));
    }

    lemma HeldIsHead(i: nat)
      requires pool == Exec(START, events) && i < SLOTS && Shaped(pool) && pool.peekSize[i] >= 0
      ensures if pool.peekBuf[i] == null then SameQueues(pool, Step(pool, Remove(i)))
              else TakesHead(pool, i, Step(pool, Take(i)), pool.peekBuf[i], pool.peekSize[i])
    {
      PoolInv();
      if pool.peekBuf[i] == null { RemoveNothing(pool, i); } else { TakeTakesHead(pool, i); }
    }

    method TakeHeld(i: nat) returns (data: MsgBuf?, size: int)
      requires Valid() && i < SLOTS && services[i].peekSize >= 0
      modifies this`pool, this`events, services`peekBuf, services`peekSize
      ensures Valid()
      ensures data == old(pool).peekBuf[i] && size == old(pool).peekSize[i]
      ensures events == old(events) + [if data == null then Remove(i) else Take(i)]
      ensures if data == null then SameQueues(old(pool), pool) else TakesHead(old(pool), i, pool, data, size)
    {
      HeldIsHead(i);
      data, size := TakeBuffer(i);
      Record(if data == null then Remove(i) else Take(i), old(pool));
    }

    /** vchi_msg_hold: 0 whenever the service is found, even if there was nothing to hold. */
    method MsgHold(handle: nat, mallocOk: bool, granted: bool, was: HeldMsg)
      returns (ret: int, data: MsgBuf?, size: int, message: HeldMsg, ghost m: MsgBuf?)
      requires Valid()
      modifies this`freeMsgbufs, this`pool, this`events, this`driver, services`peekBuf, services`peekSize, pool.mem.Keys
      ensures Valid() && Unallocated(old(pool), m)
      ensures ret == if T.Resolves(table, handle) then 0 else ERROR
      ensures !T.Resolves(table, handle) ==> events == old(events) && message == was
      ensures T.Resolves(table, handle) ==>
        var i := T.SlotOf(handle);
        var fill := old(events) + [PeekList(i), PeekMalloc(i, m), Fill(i, granted)];
        if !FillSucceeds(old(pool), i, mallocOk, granted) then
          events == fill && SameQueues(old(pool), pool) && message == was
        else if NeverCreated(old(pool), i) then
          events == fill + [Remove(i)] && SameQueues(old(pool), pool) && message == HeldMsg(null, 0)
        else
          events == fill + [Take(i)] && TakesHead(old(pool), i, pool, data, size) && message == HeldMsg(data, 0)
    {
      data, size, message, m := null, 0, was, null;
      var s := FindService(handle);
      if s == null { return ERROR, data, size, message, m; }
      ret, m := FillPeekBuf(s.index, mallocOk, granted);
      if ret == 0 {
        data, size := TakeHeld(s.index);
        message := HeldMsg(data, 0);
      }
      ret := 0;
    }

    /** A client gives back a buffer it holds, exactly once. */
    method ReleaseMessage(header: MsgBuf)
      requires Valid() && header in ClientSet(pool)
      modifies this`freeMsgbufs, this`pool, this`events, header
      ensures Valid() && events == old(events) + [Release(header)]
      ensures freeMsgbufs == header && header in FreeSet(pool)
    {
      assert header in pool.mem by { PoolInv(); }
      FreeMsgbuf(header);
      Record(Release(header), old(pool));
      assert pool.free[|pool.free| - 1] == header;
    }

    method HeldMsgRelease(message: HeldMsg) returns (ret: int)
      requires Valid()
      requires message.HeldMsg? && message.message != null && message.service == 0 ==> message.message in ClientSet(pool)
      modifies this`freeMsgbufs, this`pool, this`events, if message.HeldMsg? && message.message != null then {message.message} else {}
      ensures Valid()
      ensures if message.HeldMsg? && message.message != null && message.service == 0
              then ret == 0 && events == old(events) + [Release(message.message)]
              else ret == -1 && events == old(events)
    {
      ret := -1;
      if message.HeldMsg? && message.message != null && message.service == 0 {
        ReleaseMessage(message.message);
        ret := 0;
      }
    }

    method QueueMessage(i: nat, msg: Msg)
      requires Tied() && i < SLOTS && services[i].handle in driver
      modifies this`driver, this`pool
      ensures Tied() && pool == Step(old(pool), Arrive(i, msg))
    {
      OneServiceEach(i);
      driver := driver[services[i].handle := driver[services[i].handle] + [msg]];
      pool := Step(pool, Arrive(i, msg));
    }

    /** The driver queues a message for a service it knows. */
    method DriverQueues(i: nat, msg: Msg)
      requires Valid() && i < SLOTS && services[i].handle in driver
      modifies this`driver, this`pool, this`events
      ensures Valid() && events == old(events) + [Arrive(i, msg)]
    {
      QueueMessage(i, msg);
      Record(Arrive(i, msg), old(pool));
    }

    // ------------------------------------------------------ the service table

    /** The ascending search of a client open. */
    method FindForClient() returns (found: Service?)
      requires TableTied() && usedServices <= SLOTS
      ensures var k := T.LowestFree(table.slots, usedServices);
              found == if k == usedServices then null else services[k]
    {
      found := null;
      var i := 0;
      while i < usedServices
        invariant 0 <= i <= usedServices
        invariant forall j :: 0 <= j < i ==> table.slots[j].Live()
      {
        if services[i].libHandle == T.NO_HANDLE {
          assert !table.slots[i].Live();
          return services[i];
        }
        i := i + 1;
      }
    }

    /** Service j is live and uses the fourcc with another pair of callbacks. */
    ghost predicate UsesFourcc(j: nat, params: T.Params, vchiCallback: T.Fn)
      reads services`libHandle, services`fourcc, services`callback, services`vchiCallback
      requires j < |services|
    {
      && services[j].libHandle != T.NO_HANDLE && services[j].fourcc == params.fourcc
      && (services[j].callback != params.callback || services[j].vchiCallback != vchiCallback)
    }

    lemma ConflictShows(j: nat, params: T.Params, vchiCallback: T.Fn)
      requires TableTied() && j < SLOTS
      ensures UsesFourcc(j, params, vchiCallback) <==>
                table.slots[j].Live() && table.slots[j].Mismatches(params, vchiCallback)
    {
      assert services[j].View() == table.slots[j];
    }

    /** The descending search of a server creation, which also looks for a conflicting service: a live one
        with the same fourcc and a callback, or VCHI callback, that differs. */
    method FindForServer(params: T.Params, vchiCallback: T.Fn) returns (found: Service?, conflict: bool)
      requires TableTied() && usedServices <= SLOTS
      ensures conflict <==> (exists j :: && 0 <= j < usedServices
                                         && services[j].libHandle != T.NO_HANDLE && services[j].fourcc == params.fourcc
                                         && (services[j].callback != params.callback || services[j].vchiCallback != vchiCallback))
      ensures conflict <==> T.Conflicts(table, params, vchiCallback)
      ensures var k := T.LowestFree(table.slots, usedServices);
              found == if conflict || k == usedServices then null else services[k]
    {
      found, conflict := null, false;
      ghost var lowest := usedServices;
      var i := usedServices - 1;
      while i >= 0
        invariant -1 <= i < usedServices && i < lowest <= usedServices
        invariant found == if lowest == usedServices then null else services[lowest]
        invariant lowest < usedServices ==> !table.slots[lowest].Live()
        invariant forall j :: i < j < lowest ==> table.slots[j].Live()
        invariant forall j :: i < j < usedServices ==> !UsesFourcc(j, params, vchiCallback)
      {
        var srv := services[i];
        assert srv.View() == table.slots[i];
        if srv.libHandle == T.NO_HANDLE {
          found := srv;
          lowest := i;
        } else if srv.fourcc == params.fourcc && (srv.callback != params.callback || srv.vchiCallback != vchiCallback) {
          ConflictShows(i, params, vchiCallback);
          return null, true;
        }
        i := i - 1;
      }
      forall j | 0 <= j < usedServices ensures !(table.slots[j].Live() && table.slots[j].Mismatches(params, vchiCallback)) {
        ConflictShows(j, params, vchiCallback);
      }
    }

    /** The slot create_service settles on, extending the used part of the table if it must. */
    method ChooseSlot(isOpen: bool, params: T.Params, vchiCallback: T.Fn) returns (s: Service?)
      requires TableTied() && usedServices <= SLOTS && initialised > 0
      modifies this`usedServices, this`table
      ensures TableTied()
      ensures var k := T.Chosen(old(table), isOpen, params, vchiCallback);
              if k < SLOTS then s == services[k] && table == old(table).(used := Max(old(table).used, k + 1))
              else s == null && table == old(table)
    {
      var conflict := false;
      if isOpen {
        s := FindForClient();
      } else {
        s, conflict := FindForServer(params, vchiCallback);
      }
      if s == null && !conflict && usedServices < SLOTS {
        s := services[usedServices];
        usedServices := usedServices + 1;
        table := table.(used := usedServices);
      }
    }

    /** service->lib_handle = h */
    method SetLibHandle(s: Service, h: nat)
      requires Tied() && s.index < SLOTS && services[s.index] == s
      modifies this`table, s`libHandle
      ensures Tied() && table == old(table).(slots := old(table).slots[s.index := old(table).slots[s.index].(libHandle := h)])
    {
      OtherServices(s);
      s.libHandle := h;
      table := table.(slots := table.slots[s.index := table.slots[s.index].(libHandle := h)]);
    }

    /** A change of the table that shows in no field of an object. */
    ghost method SetHistory(t: T.Table)
      requires Tied() && t.slots == table.slots && t.used == table.used && t.handleSeq == table.handleSeq
      requires t.initialised == table.initialised && t.fd == table.fd
      requires t.descriptors == table.descriptors && t.opens == table.opens
      requires t.connected == table.connected && t.closeDelivered == table.closeDelivered
      modifies this`table
      ensures Tied() && table == t
    {
      table := t;
    }

    /** The next sequence number. */
    method NextSeq() returns (seqNo: nat)
      requires Tied()
      modifies this`handleSeq, this`table
      ensures Tied() && seqNo == T.FirstSeq(old(table).handleSeq)
      ensures table == old(table).(handleSeq := (seqNo + SLOTS) % WRAP)
    {
      if handleSeq == 0 { handleSeq := SLOTS; }
      seqNo := handleSeq;
      handleSeq := (handleSeq + SLOTS) % WRAP;
      table := table.(handleSeq := handleSeq);
    }

    /** The handle for the chosen slot. */
    method IssueHandle(s: Service)
      requires Tied() && s.index < usedServices <= SLOTS && services[s.index] == s
      modifies this`handleSeq, this`table, services`libHandle
      ensures Tied() && table == T.Claim(old(table), s.index)
    {
      var seqNo := NextSeq();
      SetLibHandle(s, Bits.Or(seqNo, s.index));
      SetHistory(T.Claim(old(table), s.index));
    }

    /** create_service up to where it lets go of the mutex. */
    method ClaimSlot(isOpen: bool, params: T.Params, vchiCallback: T.Fn) returns (s: Service?)
      requires Tied() && usedServices <= SLOTS && initialised > 0
      modifies this`usedServices, this`handleSeq, this`table, services`libHandle
      ensures Tied()
      ensures var k := T.Chosen(old(table), isOpen, params, vchiCallback);
              if k < SLOTS then s == services[k] && table == T.Claim(old(table), k)
              else s == null && table == old(table)
    {
      s := ChooseSlot(isOpen, params, vchiCallback);
      if s != null {
        T.ClaimAfterGrowth(old(table), s.index);
        IssueHandle(s);
      }
    }

    method StoreCallbacks(s: Service, fourcc: int, callback: T.Fn, vchiCallback: T.Fn)
      requires Tied() && s.index < SLOTS && services[s.index] == s
      modifies this`table, s`fourcc, s`callback, s`vchiCallback
      ensures Tied()
      ensures var was := old(table).slots[s.index];
              table == old(table).(slots := old(table).slots[s.index :=
                was.(fourcc := fourcc, callback := callback, vchiCallback := vchiCallback)])
    {
      s.fourcc, s.callback, s.vchiCallback := fourcc, callback, vchiCallback;
      table := table.(slots := table.slots[s.index :=
        table.slots[s.index].(fourcc := fourcc, callback := callback, vchiCallback := vchiCallback)]);
    }

    /** The fields create_service stores in its slot. */
    method StoreParams(s: Service, isOpen: bool, params: T.Params, vchiCallback: T.Fn)
      requires Tied() && s.index < SLOTS && services[s.index] == s
      modifies this`table, s`fourcc, s`callback, s`vchiCallback, s`userdata, s`isClient
      ensures Tied() && table == T.Store(old(table), s.index, isOpen, params, vchiCallback)
    {
      StoreCallbacks(s, params.fourcc, params.callback, vchiCallback);
      StoreOwner(s, params.userdata, isOpen);
      assert table == T.Store(old(table), s.index, isOpen, params, vchiCallback);
    }

    method StoreOwner(s: Service, userdata: nat, isClient: bool)
      requires Tied() && s.index < SLOTS && services[s.index] == s
      modifies this`table, s`userdata, s`isClient
      ensures Tied()
      ensures table == old(table).(slots := old(table).slots[s.index :=
                old(table).slots[s.index].(userdata := userdata, isClient := isClient)])
    {
      OtherServices(s);
      s.userdata, s.isClient := userdata, isClient;
      table := table.(slots := table.slots[s.index :=
        table.slots[s.index].(userdata := userdata, isClient := isClient)]);
    }

    /** The peek fields it resets, whatever they held. */
    method ClearPeek(s: Service)
      requires Tied() && s.index < SLOTS && services[s.index] == s
      modifies this`pool, services`peekSize, services`peekBuf
      ensures Tied() && s.peekBuf == null && s.peekSize == -1
      ensures pool == Step(old(pool), Reset(s.index, false))
    {
      SetPeek(s.index, null, -1);
      SetPool(Step(old(pool), Reset(s.index, false)));
    }

    lemma NewHandle(h: nat)
      requires DriverTied() && h != 0 && h !in driver
      ensures forall j :: 0 <= j < SLOTS ==> services[j].handle != h
    {
    }

    /** The driver sets up an empty queue for slot i. */
    method NewQueue(i: nat, h: nat)
      requires Tied() && i < SLOTS && h != 0 && h !in driver
      modifies this`driver, this`knownAs
      ensures Tied() && driver == old(driver)[h := []] && knownAs == old(knownAs)[h := i]
    {
      NewHandle(h);
      driver := driver[h := []];
      knownAs := knownAs[h := i];
    }

    /** service->handle = h, for the queue just set up. */
    method SetDriverHandle(s: Service, h: nat)
      requires Tied() && s.index < SLOTS && services[s.index] == s
      requires h in driver && driver[h] == [] && knownAs[h] == s.index
      modifies this`table, this`pool, s`handle
      ensures Tied() && table == T.SetHandle(old(table), s.index, h)
      ensures pool == old(pool).(queues := old(pool).queues[s.index := []])
    {
      OtherServices(s);
      s.handle := h;
      table := T.SetHandle(table, s.index, h);
      pool := pool.(queues := pool.queues[s.index := []]);
      assert TableTied();
      assert DriverTied();
    }

    /** A granted CREATE_SERVICE ioctl: a new driver handle, with an empty queue. */
    method StoreHandle(s: Service, h: nat)
      requires Tied() && s.index < SLOTS && services[s.index] == s && h != 0 && h !in driver
      requires s.peekBuf == null && s.peekSize == -1
      modifies this`driver, this`knownAs, this`table, this`pool, s`handle
      ensures Tied()
      ensures table == T.SetHandle(old(table), s.index, h)
      ensures pool == Step(old(pool), Reset(s.index, true))
    {
      NewQueue(s.index, h);
      SetDriverHandle(s, h);
      SetPool(Step(old(pool), Reset(s.index, true)));
    }

    lemma ResetTwice(p: Pool, i: nat)
      requires Shaped(p) && i < SLOTS
      ensures Step(Step(p, Reset(i, false)), Reset(i, true)) == Step(p, Reset(i, true))
    {
    }

    /** create_service after it has let go of the mutex. */
    method OpenSlot(s: Service, isOpen: bool, params: T.Params, vchiCallback: T.Fn, grant: T.Driver)
      requires Tied() && s.index < SLOTS && services[s.index] == s
      requires grant.Grants? ==> grant.handle != 0 && grant.handle !in driver
      modifies this`table, this`pool, this`driver, this`knownAs, services
      ensures Tied() && pool == Step(old(pool), Reset(s.index, grant.Grants?))
      ensures var r := T.Store(old(table), s.index, isOpen, params, vchiCallback);
              table == if grant.Refuses? then T.Free(r, s.index) else T.SetHandle(r, s.index, grant.handle)
    {
      ResetTwice(pool, s.index);
      StoreParams(s, isOpen, params, vchiCallback);
      ClearPeek(s);
      match grant {
        case Refuses => FreeSlot(s);
        case Grants(h) => StoreHandle(s, h);
      }
    }

    /** create_service on a live instance. */
    method CreateLive(isOpen: bool, params: T.Params, vchiCallback: T.Fn, grant: T.Driver) returns (s: Service?)
      requires Tied() && usedServices <= SLOTS && initialised > 0
      requires grant.Grants? ==> grant.handle != 0 && grant.handle !in driver
      modifies this`usedServices, this`handleSeq, this`table, this`pool, this`driver, this`knownAs, services
      ensures Tied() && table == T.Step(old(table), T.Create(isOpen, params, vchiCallback, grant))
      ensures var k := T.Chosen(old(table), isOpen, params, vchiCallback);
              if k < SLOTS then s == services[k] && pool == Step(old(pool), Reset(k, grant.Grants?))
              else s == null && pool == old(pool)
    {
      s := ClaimSlot(isOpen, params, vchiCallback);
      if s == null {
        TT.CreateNothing(table, isOpen, params, vchiCallback, grant);
      } else {
        OpenSlot(s, isOpen, params, vchiCallback, grant);
      }
    }

    /** The history of one creation. */
    ghost method RecordCreate(create: T.Event, k: nat, beforeTable: T.Table, beforePool: Pool)
      requires beforeTable == T.Exec(T.START, calls) && table == T.Step(beforeTable, create) && create.Create?
      requires beforePool == Exec(START, events)
      requires pool == if k < SLOTS then Step(beforePool, Reset(k, create.driver.Grants?)) else beforePool
      modifies this`calls, this`events
      ensures table == T.Exec(T.START, calls) && pool == Exec(START, events)
      ensures calls == old(calls) + [create]
      ensures events == if k < SLOTS then old(events) + [Reset(k, create.driver.Grants?)] else old(events)
    {
      RecordCall(create, beforeTable);
      if k < SLOTS { Record(Reset(k, create.driver.Grants?), beforePool); }
    }

    /** create_service on a live instance, with its history. */
    method CreateRecorded(isOpen: bool, params: T.Params, vchiCallback: T.Fn, grant: T.Driver) returns (s: Service?)
      requires Valid() && usedServices <= SLOTS && initialised > 0
      requires grant.Grants? ==> grant.handle != 0 && grant.handle !in driver
      modifies this`usedServices, this`handleSeq, this`table, this`calls, this`pool, this`events, this`driver, this`knownAs, services
      ensures Valid() && table == T.Step(old(table), T.Create(isOpen, params, vchiCallback, grant))
      ensures calls == old(calls) + [T.Create(isOpen, params, vchiCallback, grant)]
      ensures var k := T.Chosen(old(table), isOpen, params, vchiCallback);
              if k < SLOTS then s == services[k] && events == old(events) + [Reset(k, grant.Grants?)]
              else s == null && events == old(events)
    {
      ghost var k := T.Chosen(table, isOpen, params, vchiCallback);
      s := CreateLive(isOpen, params, vchiCallback, grant);
      RecordCreate(T.Create(isOpen, params, vchiCallback, grant), k, old(table), old(pool));
    }

    /** create_service; the driver gives a service it accepts a new handle of its own. */
    method CreateService(isOpen: bool, params: T.Params, vchiCallback: T.Fn, grant: T.Driver)
      returns (status: int, handle: nat)
      requires Valid() && (grant.Grants? ==> grant.handle != 0 && grant.handle !in driver)
      modifies this`usedServices, this`handleSeq, this`table, this`calls, this`pool, this`events, this`driver, this`knownAs, services
      ensures Valid()
      ensures var create := T.Create(isOpen, params, vchiCallback, grant);
              && calls == old(calls) + (if old(initialised) > 0 then [create] else [])
              && events == old(events) + (if TT.Reserves(old(table), create)
                                          then [Reset(T.Chosen(old(table), isOpen, params, vchiCallback), grant.Grants?)] else [])
              && status == (if TT.Reserves(old(table), create) && grant.Grants? then SUCCESS else ERROR)
              && (status == SUCCESS ==> handle == TT.ReservedHandle(old(table), create))
              && (status == ERROR ==> handle == T.NO_HANDLE)
    {
      status, handle := ERROR, T.NO_HANDLE;
      if initialised <= 0 { return; }
      assert table.used <= SLOTS by { TableInv(); }
      var s := CreateRecorded(isOpen, params, vchiCallback, grant);
      if s != null && grant.Grants? { status, handle := SUCCESS, s.libHandle; }
    }

    /** service->lib_handle = VCHIQ_SERVICE_HANDLE_INVALID */
    method FreeSlot(s: Service)
      requires Tied() && s.index < SLOTS && services[s.index] == s
      modifies this`table, s`libHandle
      ensures Tied() && table == T.Free(old(table), s.index)
    {
      SetLibHandle(s, T.NO_HANDLE);
    }

    method CloseSlot(handle: nat, ioctlOk: bool) returns (status: int)
      requires Tied() && usedServices <= SLOTS
      modifies this`table, services`libHandle
      ensures Tied() && table == T.Step(old(table), T.Close(handle))
      ensures status == if T.Resolves(old(table), handle) && ioctlOk then SUCCESS else ERROR
    {
      var s := FindService(handle);
      status := ERROR;
      if s != null {
        assert s.View() == table.slots[s.index];
        if s.isClient { FreeSlot(s); }
        if ioctlOk { status := SUCCESS; }
      }
    }

    /** vchiq_close_service and vchi_service_close: only a client gives its slot up. */
    method CloseService(handle: nat, ioctlOk: bool) returns (status: int)
      requires Valid()
      modifies this`table, this`calls, services`libHandle
      ensures Valid() && calls == old(calls) + [T.Close(handle)]
      ensures status == if T.Resolves(old(table), handle) && ioctlOk then SUCCESS else ERROR
    {
      assert table.used <= SLOTS by { TableInv(); }
      status := CloseSlot(handle, ioctlOk);
      RecordCall(T.Close(handle), old(table));
    }

    method RemoveSlot(handle: nat, ioctlOk: bool) returns (status: int)
      requires Tied() && usedServices <= SLOTS
      modifies this`table, services`libHandle
      ensures Tied() && table == T.Step(old(table), T.Remove(handle))
      ensures status == if T.Resolves(old(table), handle) && ioctlOk then SUCCESS else ERROR
    {
      var s := FindService(handle);
      status := ERROR;
      if s != null {
        FreeSlot(s);
        if ioctlOk { status := SUCCESS; }
      }
    }

    /** vchiq_remove_service and vchi_service_destroy. */
    method RemoveService(handle: nat, ioctlOk: bool) returns (status: int)
      requires Valid()
      modifies this`table, this`calls, services`libHandle
      ensures Valid() && calls == old(calls) + [T.Remove(handle)]
      ensures status == if T.Resolves(old(table), handle) && ioctlOk then SUCCESS else ERROR
    {
      assert table.used <= SLOTS by { TableInv(); }
      status := RemoveSlot(handle, ioctlOk);
      RecordCall(T.Remove(handle), old(table));
    }

    /** instance->fd = open("/dev/vchiq"), or dup */
    method OpenDevice(succeeds: bool)
      requires Tied()
      modifies this`fd, this`descriptors, this`opens, this`table
      ensures Tied() && table == if succeeds then T.Opened(old(table)) else old(table).(fd := -1)
    {
      if succeeds {
        opens := opens + 1;
        fd := opens;
        descriptors := descriptors + {fd};
        table := T.Opened(table);
      } else {
        fd := -1;
        table := table.(fd := -1);
      }
    }

    /** close(instance->fd) */
    method CloseDevice()
      requires Tied()
      modifies this`descriptors, this`table
      ensures Tied() && table == T.Closed(old(table))
    {
      descriptors := descriptors - {fd};
      table := T.Closed(table);
    }

    /** The driver has agreed to the version. */
    method Accept(closeDelivered: bool)
      requires Tied()
      modifies this`initialised, this`usedServices, this`useCloseDelivered, this`table
      ensures Tied() && table == old(table).(used := 0, closeDelivered := closeDelivered, initialised := 1)
    {
      usedServices := 0;
      useCloseDelivered := closeDelivered;
      initialised := 1;
      table := table.(used := 0, closeDelivered := closeDelivered, initialised := 1);
    }

    /** The first user's initialisation. */
    method InitFirst(h: T.Handshake) returns (ok: bool)
      requires Tied() && usedServices <= SLOTS && initialised == 0
      modifies this`fd, this`descriptors, this`opens, this`initialised, this`usedServices, this`useCloseDelivered, this`table
      ensures Tied() && table == T.Initialised(old(table), h)
      ensures ok <==> h.Accepted? || h.LibVersionFails?
    {
      ok := true;
      OpenDevice(!h.OpenFails?);
      if fd >= 0 {
        if h.BadConfig? {
          CloseDevice();
          ok := false;
        } else if h.Accepted? {
          Accept(h.closeDelivered);
        }
      } else {
        ok := false;
      }
    }

    /** What vchiq_lib_init does to the instance. */
    method InitInstance(h: T.Handshake) returns (ok: bool)
      requires Tied() && usedServices <= SLOTS && initialised >= 0
      modifies this`fd, this`descriptors, this`opens, this`initialised, this`usedServices, this`useCloseDelivered, this`table
      ensures Tied() && table == T.Step(old(table), T.Init(h))
      ensures ok <==> old(initialised) > 0 || h.Accepted? || h.LibVersionFails?
    {
      ok := true;
      if initialised == 0 {
        ok := InitFirst(h);
      } else {
        initialised := initialised + 1;
        table := T.Step(table, T.Init(h));
      }
    }

    /** vchiq_lib_init; `h` is how far the handshake with the driver gets if it has to be made. */
    method LibInit(h: T.Handshake) returns (ok: bool)
      requires Valid()
      modifies this`fd, this`descriptors, this`opens, this`initialised, this`usedServices, this`useCloseDelivered, this`table, this`calls
      ensures Valid() && calls == old(calls) + [T.Init(h)]
      ensures ok <==> old(initialised) > 0 || h.Accepted? || h.LibVersionFails?
    {
      assert table.used <= SLOTS && initialised >= 0 by { TableInv(); }
      ok := InitInstance(h);
      RecordCall(T.Init(h), old(table));
    }

    method ConnectInstance(accepted: bool) returns (status: int)
      requires Tied() && usedServices <= SLOTS
      modifies this`connected, this`table
      ensures Tied() && table == T.Step(old(table), T.Connect(accepted))
      ensures status == if initialised > 0 && (old(connected) || accepted) then SUCCESS else ERROR
    {
      status := ERROR;
      if initialised > 0 {
        if connected || accepted {
          connected := true;
          status := SUCCESS;
        }
      }
      table := T.Step(table, T.Connect(accepted));
    }

    method Connect(accepted: bool) returns (status: int)
      requires Valid()
      modifies this`connected, this`table, this`calls
      ensures Valid() && calls == old(calls) + [T.Connect(accepted)]
      ensures status == if initialised > 0 && (old(connected) || accepted) then SUCCESS else ERROR
    {
      assert table.used <= SLOTS by { TableInv(); }
      status := ConnectInstance(accepted);
      RecordCall(T.Connect(accepted), old(table));
    }

    /** The loop of vchiq_shutdown over the used slots. */
    method RemoveAll()
      requires Tied() && usedServices <= SLOTS
      modifies this`table, services`libHandle
      ensures Tied() && table == old(table).(slots := T.Cleared(old(table).slots, usedServices))
    {
      var i := 0;
      while i < usedServices
        invariant 0 <= i <= usedServices
        invariant Tied() && table == old(table).(slots := T.Cleared(old(table).slots, i))
      {
        if services[i].libHandle != T.NO_HANDLE {
          FreeSlot(services[i]);
        }
        i := i + 1;
      }
    }

    /** instance->connected = 0, instance->fd = -1 and instance->initialised = 0 */
    method ResetInstance()
      requires Tied()
      modifies this`initialised, this`connected, this`fd, this`table
      ensures Tied() && table == old(table).(connected := false, fd := -1, initialised := 0)
    {
      connected := false;
      fd := -1;
      initialised := 0;
      table := table.(connected := false, fd := -1, initialised := 0);
    }

    /** The last user's shutdown. */
    method ShutdownLast()
      requires Tied() && usedServices <= SLOTS && initialised == 1
      modifies this`initialised, this`connected, this`fd, this`descriptors, this`table, services`libHandle
      ensures Tied() && table == T.ShutDown(old(table))
    {
      RemoveAll();
      CloseDevice();
      ResetInstance();
    }

    method ShutdownInstance() returns (status: int)
      requires Tied() && usedServices <= SLOTS
      modifies this`initialised, this`connected, this`fd, this`descriptors, this`table, services`libHandle
      ensures Tied() && table == T.Step(old(table), T.Shutdown)
      ensures status == if old(initialised) > 0 then SUCCESS else ERROR
    {
      status := ERROR;
      if initialised > 0 {
        if initialised == 1 {
          ShutdownLast();
        } else {
          initialised := initialised - 1;
          table := T.Step(table, T.Shutdown);
        }
        status := SUCCESS;
      }
    }

    /** vchiq_shutdown; the completion thread has ended when it returns from the join. */
    method Shutdown() returns (status: int)
      requires Valid()
      modifies this`initialised, this`connected, this`fd, this`descriptors, this`table, this`calls, services`libHandle
      ensures Valid() && calls == old(calls) + [T.Shutdown]
      ensures status == if old(initialised) > 0 then SUCCESS else ERROR
    {
      assert table.used <= SLOTS by { TableInv(); }
      status := ShutdownInstance();
      RecordCall(T.Shutdown, old(table));
    }

    // ---------------------------------------------------- the completion thread

    /** The thread's local array holds the buffers the pool says the thread has. */
    ghost predicate LocalsTied(msgbufs: array<MsgBuf?>, count: nat)
      reads this`pool, msgbufs
    {
      && msgbufs.Length == THREAD_BUFS && count == |pool.msgbufs| <= THREAD_BUFS
      && forall k :: 0 <= k < count ==> msgbufs[k] == pool.msgbufs[k]
    }

    /** Since then only the thread has done anything, and no client could tell. */
    ghost predicate Unseen(was: Pool, history: seq<Event>)
      reads this`pool, this`events
    {
      Aside(was, pool) && ClientHistory(events) == ClientHistory(history)
    }

    lemma StillUnseen(was: Pool, history: seq<Event>, before: Pool, e: Event)
      requires before == Exec(START, events) && ThreadEvent(e) && !e.Deliver?
      requires Aside(was, before) && ClientHistory(events) == ClientHistory(history)
      ensures Aside(was, Step(before, e)) && ClientHistory(events + [e]) == ClientHistory(history)
    {
      StartInv();
      ExecKeepsInv(START, events);
      ThreadAside(before, e);
      ThreadEventUnseen(events, e);
    }

    /** The thread has just made step e. */
    ghost method RecordThread(e: Event, before: Pool, was: Pool, history: seq<Event>)
      requires before == Exec(START, events) && pool == Step(before, e) && ThreadEvent(e) && !e.Deliver?
      requires Aside(was, before) && ClientHistory(events) == ClientHistory(history)
      modifies this`events
      ensures pool == Exec(START, events) && Unseen(was, history)
    {
      StillUnseen(was, history, before, e);
      Record(e, before);
    }

    /** An event of the thread that touches no buffer. */
    ghost method Advance(e: Event)
      requires Valid() && (e.ThreadStart? || e.EnterAwait? || e.AwaitReturn? || (e.Drain? && pool.msgbufs == []))
      modifies this`pool, this`events
      ensures Valid() && pool == Step(old(pool), e) && Unseen(old(pool), old(events))
    {
      ThreadMovesOnly(pool, e);
      SetPool(Step(pool, e));
      RecordThread(e, old(pool), old(pool), old(events));
    }

    /** alloc_msgbuf for the thread, uninterrupted. */
    ghost function ThreadAllocated(p: Pool, m: MsgBuf?): Pool {
      Step(Step(p, ThreadList), ThreadMalloc(m))
    }

    lemma ThreadAllocatedIs(p: Pool, m: MsgBuf?)
      requires Shaped(p) && p.phase == Filling && |p.msgbufs| < THREAD_BUFS && p.mallocing == {} && Unallocated(p, m)
      ensures var b := AllocResult(p, m);
              ThreadAllocated(p, m) ==
                Alloc(p, m, Thread(|p.msgbufs|)).(msgbufs := if b == null then p.msgbufs else p.msgbufs + [b])
    {
    }

    /** One attempt of the filling loop. */
    method TakeBuf(msgbufs: array<MsgBuf?>, count: nat, mallocOk: bool) returns (got: bool, ghost m: MsgBuf?)
      requires Tied() && FreeOk(pool) && pool.phase == Filling && LocalsTied(msgbufs, count) && count < THREAD_BUFS
      modifies this`freeMsgbufs, this`pool, msgbufs
      ensures Tied() && pool == ThreadAllocated(old(pool), m) && pool.phase == Filling
      ensures got <==> old(freeMsgbufs) != null || mallocOk
      ensures LocalsTied(msgbufs, if got then count + 1 else count) && (!got ==> freeMsgbufs == null)
      ensures fresh(pool.mem.Keys - old(pool).mem.Keys)
    {
      var b;
      b, m := AllocMsgbuf(mallocOk, Thread(count));
      got := b != null;
      if got { msgbufs[count] := b; }
      ThreadAllocatedIs(old(pool), m);
      SetPool(ThreadAllocated(old(pool), m));
    }

    ghost method RecordThreadAlloc(m: MsgBuf?, before: Pool, was: Pool, history: seq<Event>)
      requires before == Exec(START, events) && pool == ThreadAllocated(before, m)
      requires Aside(was, before) && ClientHistory(events) == ClientHistory(history)
      modifies this`events
      ensures pool == Exec(START, events) && Unseen(was, history)
    {
      var listed := Step(before, ThreadList);
      StillUnseen(was, history, before, ThreadList);
      Record(ThreadList, before);
      RecordThread(ThreadMalloc(m), listed, was, history);
    }

    method TopUpOne(msgbufs: array<MsgBuf?>, n: nat, mallocOk: bool, ghost was: Pool, ghost history: seq<Event>)
      returns (got: bool)
      requires Valid() && pool.phase == Filling && LocalsTied(msgbufs, n) && n < THREAD_BUFS && Unseen(was, history)
      modifies this`freeMsgbufs, this`pool, this`events, msgbufs
      ensures Valid() && pool.phase == Filling
      ensures got <==> old(freeMsgbufs) != null || mallocOk
      ensures LocalsTied(msgbufs, if got then n + 1 else n) && (!got ==> freeMsgbufs == null)
      ensures Unseen(was, history)
      ensures fresh(pool.mem.Keys - old(pool).mem.Keys)
    {
      assert FreeOk(pool) by { PoolInv(); }
      ghost var m;
      got, m := TakeBuf(msgbufs, n, mallocOk);
      RecordThreadAlloc(m, old(pool), was, history);
    }

    ghost predicate FailsFirst(mallocs: seq<bool>) { mallocs != [] && !mallocs[0] }

    /** A top-up dies: the first buffer of an empty array has to be malloc'd and that fails. */
    ghost predicate Starves(count: nat, mallocs: seq<bool>)
      reads this`freeMsgbufs
    {
      count == 0 && freeMsgbufs == null && FailsFirst(mallocs)
    }

    /** The loop that tops the array up, given the outcomes of the mallocs it makes (those not listed
        succeed).  It retries a malloc that fails, and aborts the process when that happens while the
        array is empty. */
    method TopUp(msgbufs: array<MsgBuf?>, count: nat, mallocs: seq<bool>) returns (aborted: bool)
      requires Valid() && pool.phase == Filling && LocalsTied(msgbufs, count)
      modifies this`freeMsgbufs, this`pool, this`events, msgbufs
      ensures Valid() && pool.phase == Filling && Unseen(old(pool), old(events))
      ensures aborted <==> old(Starves(count, mallocs))
      ensures !aborted ==> LocalsTied(msgbufs, THREAD_BUFS)
      ensures fresh(pool.mem.Keys - old(pool).mem.Keys)
    {
      var n, made := count, 0;
      aborted := false;
      while n < THREAD_BUFS
        invariant Valid() && pool.phase == Filling && count <= n && LocalsTied(msgbufs, n)
        invariant Unseen(old(pool), old(events)) && made <= |mallocs|
        invariant fresh(pool.mem.Keys - old(pool).mem.Keys)
        invariant if n == 0 then made == 0 && freeMsgbufs == old(freeMsgbufs) else !old(Starves(count, mallocs))
        decreases |mallocs| - made, THREAD_BUFS - n
      {
        var mallocOk := made == |mallocs| || mallocs[made];
        if freeMsgbufs == null && made < |mallocs| { made := made + 1; }
        var got := TopUpOne(msgbufs, n, mallocOk, old(pool), old(events));
        if got {
          n := n + 1;
        } else if n == 0 {
          return true;   // vcos_demand
        }
      }
    }

    /** Headers waiting for delivery are not written by the thread's or the driver's next step. */
    lemma StillShows(q: Pool, e: Event, batch: seq<Completion>, answers: seq<Answer>)
      requires Inv(q) && (e.Complete? || e.Deliver? || e.AwaitReturn?) && ShowsAll(q.mem, q.at, batch, answers)
      requires batch == q.batch
      ensures ShowsAll(Step(q, e).mem, q.at, batch, answers)
    {
      forall k | q.at <= k < |batch| ensures Shows(Step(q, e).mem, batch[k], answers[k]) {
        if Enabled(q, e) && batch[k].header != null {
          assert Place(q, Pending(k)) == batch[k].header;
          StepWrites(q, e, batch[k].header);
        }
      }
    }

    /** The driver fills one completion, taking the last buffer of the array for a header. */
    method CompleteOne(msgbufs: array<MsgBuf?>, count: nat, a: Answer) returns (count': nat, c: Completion)
      requires Tied() && pool.phase == Awaiting && LocalsTied(msgbufs, count)
      requires |pool.batch| < THREAD_BUFS && (a.hasHeader ==> count > 0)
      requires forall k :: 0 <= k < count ==> pool.msgbufs[k] in pool.mem
      modifies this`pool, pool.mem.Keys
      ensures Tied() && LocalsTied(msgbufs, count') && count' == count - (if a.hasHeader then 1 else 0)
      ensures pool == Step(old(pool), Complete(a)) && pool.batch == old(pool).batch + [c] && Shows(pool.mem, c, a)
      ensures pool.phase == Awaiting && pool.at == old(pool).at
      ensures pool.mem.Keys == old(pool).mem.Keys
    {
      count', c := count, Completion(a.reason, a.slot, null, a.bulk);
      if a.hasHeader {
        count' := count - 1;
        WriteBuf(msgbufs[count'], a.bytes);
        c := Completion(a.reason, a.slot, msgbufs[count'], a.bulk);
      }
      SetPool(Step(old(pool), Complete(a)));
    }

    lemma ShowsMore(mem: map<MsgBuf, Content>, done: seq<Completion>, answers: seq<Answer>, k: nat, c: Completion)
      requires k < |answers| && ShowsAll(mem, 0, done, answers[..k]) && Shows(mem, c, answers[k])
      ensures ShowsAll(mem, 0, done + [c], answers[..k + 1])
    {
    }

    lemma LentBuffers(e: Event, answers: seq<Answer>)
      requires pool == Exec(START, events) && e.Complete? && ShowsAll(pool.mem, pool.at, pool.batch, answers)
      ensures forall j :: 0 <= j < |pool.msgbufs| ==> pool.msgbufs[j] in pool.mem
      ensures ShowsAll(Step(pool, e).mem, pool.at, pool.batch, answers)
    {
      PoolInv();
      assert forall j :: 0 <= j < |pool.msgbufs| ==> pool.msgbufs[j] == Place(pool, Thread(j));
      StillShows(pool, e, pool.batch, answers);
    }

    method CompleteNext(msgbufs: array<MsgBuf?>, count: nat, done: seq<Completion>, answers: seq<Answer>, k: nat,
                        ghost was: Pool, ghost history: seq<Event>)
      returns (count': nat, c: Completion)
      requires Valid() && pool.phase == Awaiting && pool.at == 0 && LocalsTied(msgbufs, count) && Unseen(was, history)
      requires k < |answers| && done == pool.batch && ShowsAll(pool.mem, 0, done, answers[..k])
      requires THREAD_BUFS - k <= count && k < THREAD_BUFS
      modifies this`pool, this`events, pool.mem.Keys
      ensures Valid() && pool.phase == Awaiting && pool.at == 0 && LocalsTied(msgbufs, count')
      ensures pool.batch == done + [c] && ShowsAll(pool.mem, 0, done + [c], answers[..k + 1]) && count' >= count - 1
      ensures pool.mem.Keys == old(pool).mem.Keys && Unseen(was, history)
    {
      LentBuffers(Complete(answers[k]), answers[..k]);
      count', c := CompleteOne(msgbufs, count, answers[k]);
      ShowsMore(pool.mem, done, answers, k, c);
      RecordThread(Complete(answers[k]), old(pool), was, history);
    }

    /** The driver's side of the wait. */
    method CompleteAll(msgbufs: array<MsgBuf?>, answers: seq<Answer>) returns (count: nat, completions: seq<Completion>)
      requires Valid() && pool.phase == Filling && pool.batch == [] && pool.at == 0 && LocalsTied(msgbufs, THREAD_BUFS)
      requires |answers| <= THREAD_BUFS
      modifies this`pool, this`events, pool.mem.Keys
      ensures Valid() && LocalsTied(msgbufs, count) && Unseen(old(pool), old(events))
      ensures pool.phase == Awaiting && pool.at == 0 && pool.mem.Keys == old(pool).mem.Keys
      ensures completions == pool.batch && ShowsAll(pool.mem, 0, completions, answers)
    {
      Advance(EnterAwait);
      count, completions := THREAD_BUFS, [];
      var k := 0;
      while k < |answers|
        invariant 0 <= k <= |answers|
        invariant Valid() && LocalsTied(msgbufs, count) && pool.phase == Awaiting && pool.at == 0
        invariant Unseen(old(pool), old(events))
        invariant completions == pool.batch && ShowsAll(pool.mem, 0, completions, answers[..k])
        invariant count >= THREAD_BUFS - k && pool.mem.Keys == old(pool).mem.Keys
      {
        var c;
        count, c := CompleteNext(msgbufs, count, completions, answers, k, old(pool), old(events));
        completions := completions + [c];
        k := k + 1;
      }
      assert answers[..k] == answers;
    }

    /** VCHIQ_IOC_AWAIT_COMPLETION returning the given completions. */
    method AwaitCompletion(msgbufs: array<MsgBuf?>, answers: seq<Answer>) returns (count: nat, completions: seq<Completion>)
      requires Valid() && pool.phase == Filling && pool.batch == [] && pool.at == 0 && LocalsTied(msgbufs, THREAD_BUFS)
      requires |answers| <= THREAD_BUFS
      modifies this`pool, this`events, pool.mem.Keys
      ensures Valid() && LocalsTied(msgbufs, count) && Unseen(old(pool), old(events))
      ensures pool.phase == (if answers == [] then Draining else Delivering) && pool.at == 0
      ensures completions == pool.batch && ShowsAll(pool.mem, 0, completions, answers)
      ensures pool.mem.Keys == old(pool).mem.Keys
    {
      count, completions := CompleteAll(msgbufs, answers);
      Advance(AwaitReturn);
    }

    /** The callback of one completion and the acknowledgement of a close. */
    method CallBack(c: Completion, ghost a: Answer)
      requires Tied() && Shows(pool.mem, c, a) && c.slot < SLOTS
      modifies this`log
      ensures log == Handle(table, old(log), a)
      ensures var s := services[c.slot];
              var called := if s.callback != 0
                            then After(old(log), Callback(c.slot, c.reason, if c.header == null then [] else [a.bytes],
                                                          s.libHandle, c.bulk))
                            else if s.vchiCallback != 0
                            then After(old(log), VchiCallback(c.slot, s.userdata, ToVchi(c.reason), c.bulk))
                            else old(log);
              log == if c.reason == ServiceClosed && useCloseDelivered
                     then After(called, CloseDelivered(c.slot, s.handle)) else called
    {
      var s := services[c.slot];
      assert s.View() == table.slots[c.slot];
      if s.callback != 0 {
        var header := if c.header == null then [] else [c.header.content.bytes];
        log := After(log, Callback(c.slot, c.reason, header, s.libHandle, c.bulk));
      } else if s.vchiCallback != 0 {
        log := After(log, VchiCallback(c.slot, s.userdata, ToVchi(c.reason), c.bulk));
      }
      if c.reason.ServiceClosed? && useCloseDelivered {
        log := After(log, CloseDelivered(c.slot, s.handle));
      }
    }

    /** From a state that had done `history`, the completions cs have been delivered. */
    ghost predicate Delivered(was: Pool, history: seq<Event>, cs: seq<Completion>, answers: seq<Answer>)
      reads this`pool, this`events, this`table
    {
      Handed(was, pool, table, cs, answers) && ClientHistory(events) == ClientHistory(history)
    }

    lemma DeliverIs(p: Pool, toCallback: bool)
      requires Shaped(p) && p.phase == Delivering && p.at < |p.batch|
      ensures var q := Step(p, Deliver(toCallback));
              && q.msgbufs == p.msgbufs && q.mem == p.mem
              && if p.at + 1 < |p.batch| then q.phase == Delivering && q.at == p.at + 1 && q.batch == p.batch
                 else q.phase == Filling && q.batch == [] && q.at == 0
    {
    }

    /** The header at hand passes to the client, if its service's base.callback is there to take it. */
    ghost method AdvanceDelivery(toCallback: bool, a: Answer)
      requires Valid() && pool.phase == Delivering && pool.at < |pool.batch| && Shows(pool.mem, pool.batch[pool.at], a)
      requires toCallback == OwnCallback(table, pool.batch[pool.at])
      modifies this`pool, this`events
      ensures Valid() && pool == Step(old(pool), Deliver(toCallback))
      ensures Delivered(old(pool), old(events), [old(pool).batch[old(pool).at]], [a])
    {
      var e := Deliver(toCallback);
      assert Handed(pool, Step(pool, e), table, [pool.batch[pool.at]], [a]) by {
        PoolInv();
        DeliverHands(pool, table, a);
      }
      ThreadMovesOnly(pool, e);
      ThreadEventUnseen(events, e);
      SetPool(Step(pool, e));
      Record(e, old(pool));
    }

    /** One round of the delivery loop: the header now belongs to whoever was called. */
    method DeliverNext(completions: seq<Completion>, i: nat, ghost answers: seq<Answer>)
      requires Valid() && pool.phase == Delivering && pool.at == i < |completions|
      requires completions == pool.batch && ShowsAll(pool.mem, i, completions, answers) && answers[i].slot < SLOTS
      modifies this`pool, this`events, this`log
      ensures Valid() && pool.msgbufs == old(pool).msgbufs && pool.mem == old(pool).mem
      ensures if i + 1 < |completions| then pool.phase == Delivering && pool.at == i + 1 && pool.batch == completions
              else pool.phase == Filling && pool.batch == [] && pool.at == 0
      ensures Delivered(old(pool), old(events), [completions[i]], [answers[i]])
      ensures log == Handle(table, old(log), answers[i])
    {
      assert Shows(pool.mem, completions[i], answers[i]);
      CallBack(completions[i], answers[i]);
      DeliverIs(pool, services[completions[i].slot].callback != 0);
      AdvanceDelivery(services[completions[i].slot].callback != 0, answers[i]);
    }

    ghost predicate LogSoFar(start: Log, answers: seq<Answer>, i: nat)
      reads this`log, this`table
    {
      i <= |answers| && SlotsBelow(answers[..i], |table.slots|) && log == LogOf(table, start, answers[..i])
    }

    /** The batch with i completions delivered. */
    ghost predicate DeliveredTo(completions: seq<Completion>, i: nat)
      reads this`pool
    {
      if i < |completions| then pool.phase == Delivering && pool.at == i && pool.batch == completions
      else pool.phase == Filling && pool.batch == [] && pool.at == 0
    }

    /** The first i completions of the batch delivered. */
    ghost predicate DeliveredSoFar(was: Pool, history: seq<Event>, cs: seq<Completion>, answers: seq<Answer>, i: nat)
      reads this`pool, this`events, this`table
    {
      i <= |cs| == |answers| && Delivered(was, history, cs[..i], answers[..i])
    }

    lemma DeliveredMore(was: Pool, mid: Pool, cs: seq<Completion>, answers: seq<Answer>, i: nat)
      requires i < |cs| == |answers| && Handed(was, mid, table, cs[..i], answers[..i])
      requires Handed(mid, pool, table, [cs[i]], [answers[i]])
      ensures Handed(was, pool, table, cs[..i + 1], answers[..i + 1])
    {
      HandedAppends(was, mid, pool, table, cs[..i], answers[..i], [cs[i]], [answers[i]]);
      assert cs[..i + 1] == cs[..i] + [cs[i]] && answers[..i + 1] == answers[..i] + [answers[i]];
    }

    /** The same round, with the log and the headers since the loop began. */
    method DeliverLogged(completions: seq<Completion>, i: nat, ghost answers: seq<Answer>, ghost start: Log,
                         ghost was: Pool, ghost history: seq<Event>)
      requires Valid() && i < |completions| && DeliveredTo(completions, i) && |completions| == |answers|
      requires ShowsAll(pool.mem, i, completions, answers) && SlotsBelow(answers, SLOTS) && LogSoFar(start, answers, i)
      requires DeliveredSoFar(was, history, completions, answers, i)
      modifies this`pool, this`events, this`log
      ensures Valid() && pool.msgbufs == old(pool).msgbufs && pool.mem == old(pool).mem
      ensures DeliveredTo(completions, i + 1) && LogSoFar(start, answers, i + 1)
      ensures DeliveredSoFar(was, history, completions, answers, i + 1)
    {
      DeliverNext(completions, i, answers);
      DeliveredMore(was, old(pool), completions, answers, i);
      LogGrows(table, start, answers, i);
    }

    /** The delivery loop. */
    method DeliverAll(completions: seq<Completion>, ghost answers: seq<Answer>)
      requires Valid() && pool.phase == Delivering && pool.at == 0 && completions != []
      requires completions == pool.batch && ShowsAll(pool.mem, 0, completions, answers)
      requires SlotsBelow(answers, SLOTS)
      modifies this`pool, this`events, this`log
      ensures Valid() && pool.phase == Filling && pool.batch == [] && pool.at == 0
      ensures Delivered(old(pool), old(events), completions, answers)
      ensures pool.msgbufs == old(pool).msgbufs && pool.mem == old(pool).mem
      ensures log == LogOf(table, old(log), answers)
    {
      AsideHandsNothing(pool, pool, table);
      var i := 0;
      while i < |completions|
        invariant 0 <= i <= |completions| == |answers| && Valid()
        invariant DeliveredSoFar(old(pool), old(events), completions, answers, i)
        invariant pool.msgbufs == old(pool).msgbufs && pool.mem == old(pool).mem
        invariant DeliveredTo(completions, i) && LogSoFar(old(log), answers, i)
      {
        DeliverLogged(completions, i, answers, old(log), old(pool), old(events));
        i := i + 1;
      }
      assert answers[..i] == answers && completions[..i] == completions;
    }

    /** free_msgbuf(msgbufs[--n]) */
    method DrainOne(msgbufs: array<MsgBuf?>, n: nat)
      requires Tied() && pool.phase == Draining && LocalsTied(msgbufs, n) && n > 0 && pool.msgbufs[n - 1] in pool.mem
      modifies this`pool, this`freeMsgbufs, pool.mem.Keys
      ensures Tied() && pool == Step(old(pool), Drain)
      ensures pool.phase == Draining && pool.msgbufs == old(pool).msgbufs[..n - 1] && pool.mem.Keys == old(pool).mem.Keys
      ensures pool.free == old(pool).free + [old(pool).msgbufs[n - 1]]
    {
      FreeMsgbuf(msgbufs[n - 1]);
      SetPool(Step(old(pool), Drain));
    }

    lemma ThreadBufAllocated(k: nat)
      requires pool == Exec(START, events) && k < |pool.msgbufs|
      ensures pool.msgbufs[k] in pool.mem
    {
      PoolInv();
      assert Place(pool, Thread(k)) == pool.msgbufs[k];
    }

    /** One round of the loop that gives the unused buffers back. */
    method DrainNext(msgbufs: array<MsgBuf?>, n: nat, ghost was: Pool, ghost history: seq<Event>)
      requires Valid() && pool.phase == Draining && LocalsTied(msgbufs, n) && n > 0 && Unseen(was, history)
      modifies this`pool, this`events, this`freeMsgbufs, pool.mem.Keys
      ensures Valid() && pool.phase == Draining && LocalsTied(msgbufs, n - 1) && pool.msgbufs == old(pool).msgbufs[..n - 1]
      ensures pool.mem.Keys == old(pool).mem.Keys && Unseen(was, history)
      ensures pool.free == old(pool).free + [old(pool).msgbufs[n - 1]]
    {
      ThreadBufAllocated(n - 1);
      DrainOne(msgbufs, n);
      RecordThread(Drain, old(pool), was, history);
    }

    /** From p to q all but n of the thread's buffers have been freed. */
    ghost predicate Drained(p: Pool, q: Pool, n: nat) {
      n <= |p.msgbufs| && q.msgbufs == p.msgbufs[..n] && q.mem.Keys == p.mem.Keys
      && p.free <= q.free && forall k :: n <= k < |p.msgbufs| ==> p.msgbufs[k] in q.free
    }

    lemma DrainedNext(p: Pool, q: Pool, q': Pool, n: nat)
      requires Drained(p, q, n) && n > 0 && q'.mem.Keys == q.mem.Keys
      requires q'.msgbufs == q.msgbufs[..n - 1] && q'.free == q.free + [q.msgbufs[n - 1]]
      ensures Drained(p, q', n - 1)
    {
      assert q.msgbufs[n - 1] == p.msgbufs[n - 1];
      forall k | n - 1 <= k < |p.msgbufs| ensures p.msgbufs[k] in q'.free {
        if k >= n { assert p.msgbufs[k] in q.free; } else { assert q'.free[|q.free|] == p.msgbufs[k]; }
      }
    }

    method DrainLoop(msgbufs: array<MsgBuf?>, count: nat)
      requires Valid() && pool.phase == Draining && LocalsTied(msgbufs, count)
      modifies this`pool, this`events, this`freeMsgbufs, pool.mem.Keys
      ensures Valid() && pool.phase == Draining && Unseen(old(pool), old(events))
      ensures Drained(old(pool), pool, 0)
    {
      var n: nat := count;
      while n > 0
        invariant Valid() && pool.phase == Draining && LocalsTied(msgbufs, n)
        invariant Unseen(old(pool), old(events))
        invariant Drained(old(pool), pool, n)
      {
        ghost var before := pool;
        DrainNext(msgbufs, n, old(pool), old(events));
        DrainedNext(old(pool), before, pool, n);
        n := n - 1;
      }
    }

    method DrainAll(msgbufs: array<MsgBuf?>, count: nat)
      requires Valid() && pool.phase == Draining && LocalsTied(msgbufs, count)
      modifies this`pool, this`events, this`freeMsgbufs, pool.mem.Keys
      ensures Valid() && pool.phase == Idle && Unseen(old(pool), old(events))
      ensures FreeSet(pool) >= FreeSet(old(pool)) + ThreadSet(old(pool))
    {
      DrainLoop(msgbufs, count);
      assert FreeSet(pool) >= FreeSet(old(pool)) + ThreadSet(old(pool));
      Advance(Drain);
    }

    lemma NothingPending()
      requires pool == Exec(START, events) && pool.phase == Filling
      ensures pool.batch == [] && pool.at == 0
    {
      PoolInv();
    }

    /** Wait with a full array, deliver everything that came. */
    method WaitAndDeliver(msgbufs: array<MsgBuf?>, answers: seq<Answer>) returns (count: nat, ghost cs: seq<Completion>)
      requires Valid() && pool.phase == Filling && pool.batch == [] && pool.at == 0 && LocalsTied(msgbufs, THREAD_BUFS)
      requires 0 < |answers| <= THREAD_BUFS && SlotsBelow(answers, SLOTS)
      modifies this`pool, this`events, this`log, pool.mem.Keys
      ensures Valid() && pool.phase == Filling && LocalsTied(msgbufs, count)
      ensures Delivered(old(pool), old(events), cs, answers)
      ensures log == LogOf(table, old(log), answers) && pool.mem.Keys == old(pool).mem.Keys
    {
      var completions;
      count, completions := AwaitCompletion(msgbufs, answers);
      ghost var before := pool;
      DeliverAll(completions, answers);
      cs := completions;
      DeliveredAfter(old(pool), before, cs, answers);
    }

    lemma DeliveredAfter(was: Pool, mid: Pool, cs: seq<Completion>, answers: seq<Answer>)
      requires Aside(was, mid) && Handed(mid, pool, table, cs, answers)
      ensures Handed(was, pool, table, cs, answers)
    {
      AsideHandsNothing(was, mid, table);
      HandedAppends(was, mid, pool, table, [], [], cs, answers);
      assert [] + cs == cs && [] + answers == answers;
    }

    /** One turn of the outer loop. */
    method ServeBatch(msgbufs: array<MsgBuf?>, count: nat, round: Round)
      returns (count': nat, aborted: bool, ghost cs: seq<Completion>)
      requires Valid() && pool.phase == Filling && LocalsTied(msgbufs, count)
      requires 0 < |round.answers| <= THREAD_BUFS && SlotsBelow(round.answers, SLOTS)
      modifies this`pool, this`events, this`freeMsgbufs, this`log, msgbufs, pool.mem.Keys
      ensures Valid() && pool.phase == Filling
      ensures aborted <==> old(Starves(count, round.mallocs))
      ensures if aborted then log == old(log) && Unseen(old(pool), old(events))
              else LocalsTied(msgbufs, count') && log == LogOf(table, old(log), round.answers)
                   && Delivered(old(pool), old(events), cs, round.answers)
      ensures fresh(pool.mem.Keys - old(pool).mem.Keys)
    {
      count', cs := 0, [];
      aborted := TopUp(msgbufs, count, round.mallocs);
      if !aborted {
        NothingPending();
        ghost var before := pool;
        count', cs := WaitAndDeliver(msgbufs, round.answers);
        DeliveredAfter(old(pool), before, cs, round.answers);
      }
    }

    /** What the first b rounds have led to: the log, and who has the headers of the completions cs. */
    ghost predicate ServedSoFar(start: Log, was: Pool, history: seq<Event>, rounds: seq<Round>, b: nat, cs: seq<Completion>)
      reads this`log, this`pool, this`events, this`table
    {
      b <= |rounds| && Served(table, start, rounds, b, log) && Delivered(was, history, cs, Flatten(rounds[..b]))
    }

    lemma FlattenNext(rounds: seq<Round>, b: nat)
      requires b < |rounds|
      ensures Flatten(rounds[..b + 1]) == Flatten(rounds[..b]) + rounds[b].answers
    {
      assert rounds[..b + 1][..b] == rounds[..b];
    }

    lemma ServedMore(was: Pool, mid: Pool, rounds: seq<Round>, b: nat, cs: seq<Completion>, more: seq<Completion>)
      requires b < |rounds| && Handed(was, mid, table, cs, Flatten(rounds[..b]))
      requires Handed(mid, pool, table, more, rounds[b].answers)
      ensures Handed(was, pool, table, cs + more, Flatten(rounds[..b + 1]))
    {
      HandedAppends(was, mid, pool, table, cs, Flatten(rounds[..b]), more, rounds[b].answers);
      FlattenNext(rounds, b);
    }

    lemma DeliveredBefore(was: Pool, mid: Pool, cs: seq<Completion>, answers: seq<Answer>)
      requires Handed(was, mid, table, cs, answers) && Aside(mid, pool)
      ensures Handed(was, pool, table, cs, answers)
    {
      AsideHandsNothing(mid, pool, table);
      HandedAppends(was, mid, pool, table, cs, answers, [], []);
      assert cs + [] == cs && answers + [] == answers;
    }

    /** One turn, with what it adds to the log and the headers of all turns. */
    method ServeNext(msgbufs: array<MsgBuf?>, count: nat, rounds: seq<Round>, b: nat, ghost start: Log,
                     ghost was: Pool, ghost history: seq<Event>, ghost cs: seq<Completion>)
      returns (count': nat, b': nat, aborted: bool, ghost cs': seq<Completion>)
      requires Valid() && pool.phase == Filling && LocalsTied(msgbufs, count) && b < |rounds|
      requires 0 < |rounds[b].answers| <= THREAD_BUFS && SlotsBelow(Flatten(rounds), SLOTS)
      requires ServedSoFar(start, was, history, rounds, b, cs)
      modifies this`pool, this`events, this`freeMsgbufs, this`log, msgbufs, pool.mem.Keys
      ensures Valid() && pool.phase == Filling
      ensures aborted <==> old(Starves(count, rounds[b].mallocs))
      ensures b' == (if aborted then b else b + 1) && ServedSoFar(start, was, history, rounds, b', cs')
      ensures !aborted ==> LocalsTied(msgbufs, count')
      ensures fresh(pool.mem.Keys - old(pool).mem.Keys)
    {
      ServesNext(table, start, rounds, b, log);
      count', aborted, cs' := ServeBatch(msgbufs, count, rounds[b]);
      if aborted {
        DeliveredBefore(was, old(pool), cs, Flatten(rounds[..b]));
        b', cs' := b, cs;
      } else {
        ServedMore(was, old(pool), rounds, b, cs, cs');
        b', cs' := b + 1, cs + cs';
      }
    }

    lemma NothingServed(was: Pool, history: seq<Event>, rounds: seq<Round>)
      requires Unseen(was, history)
      ensures ServedSoFar(log, was, history, rounds, 0, [])
    {
      AsideHandsNothing(was, pool, table);
    }

    /** The outer loop while the driver has completions, unless it is aborted in the turn after the
        ones served. */
    method ServeAll(msgbufs: array<MsgBuf?>, rounds: seq<Round>, ghost was: Pool, ghost history: seq<Event>)
      returns (count: nat, served: nat, aborted: bool, ghost cs: seq<Completion>)
      requires Valid() && pool.phase == Filling && LocalsTied(msgbufs, 0) && Unseen(was, history)
      requires forall b :: 0 <= b < |rounds| ==> 0 < |rounds[b].answers| <= THREAD_BUFS
      requires SlotsBelow(Flatten(rounds), SLOTS)
      modifies this`pool, this`events, this`freeMsgbufs, this`log, msgbufs, pool.mem.Keys
      ensures Valid() && pool.phase == Filling
      ensures ServedSoFar(old(log), was, history, rounds, served, cs)
      ensures if aborted then served < |rounds| && FailsFirst(rounds[served].mallocs)
              else served == |rounds| && LocalsTied(msgbufs, count)
      ensures fresh(pool.mem.Keys - old(pool).mem.Keys)
    {
      count, served, aborted, cs := 0, 0, false, [];
      NothingServed(was, history, rounds);
      while served < |rounds| && !aborted
        invariant 0 <= served <= |rounds| && Valid() && pool.phase == Filling
        invariant if aborted then served < |rounds| && FailsFirst(rounds[served].mallocs) else LocalsTied(msgbufs, count)
        invariant ServedSoFar(old(log), was, history, rounds, served, cs)
        invariant fresh(pool.mem.Keys - old(pool).mem.Keys)
        decreases |rounds| - served, !aborted
      {
        count, served, aborted, cs := ServeNext(msgbufs, count, rounds, served, old(log), was, history, cs);
      }
    }

    ghost method Begin()
      requires Valid() && pool.phase == Idle
      modifies this`pool, this`events
      ensures Valid() && pool.phase == Filling && pool.msgbufs == [] && pool.mem == old(pool).mem
      ensures Unseen(old(pool), old(events))
    {
      assert pool.msgbufs == [] by { PoolInv(); }
      Advance(ThreadStart);
    }

    /** The wait that yields nothing, and the way out. */
    method Finish(msgbufs: array<MsgBuf?>, count: nat, mallocs: seq<bool>,
                  ghost was: Pool, ghost history: seq<Event>, ghost cs: seq<Completion>, ghost answers: seq<Answer>)
      returns (aborted: bool)
      requires Valid() && pool.phase == Filling && LocalsTied(msgbufs, count) && Delivered(was, history, cs, answers)
      modifies this`pool, this`events, this`freeMsgbufs, msgbufs, pool.mem.Keys
      ensures Valid() && Delivered(was, history, cs, answers)
      ensures aborted <==> old(Starves(count, mallocs))
      ensures !aborted ==> pool.phase == Idle && ThreadSet(pool) == {} && PendingSet(pool) == {}
    {
      aborted := TopUp(msgbufs, count, mallocs);
      if !aborted { WaitAndDrain(msgbufs); }
      DeliveredBefore(was, old(pool), cs, answers);
    }

    method WaitAndDrain(msgbufs: array<MsgBuf?>)
      requires Valid() && pool.phase == Filling && LocalsTied(msgbufs, THREAD_BUFS)
      modifies this`pool, this`events, this`freeMsgbufs, pool.mem.Keys
      ensures Valid() && Unseen(old(pool), old(events))
      ensures pool.phase == Idle && ThreadSet(pool) == {} && PendingSet(pool) == {}
    {
      NothingPending();
      var left, nothing := AwaitCompletion(msgbufs, []);
      DrainAll(msgbufs, left);
      IdleHoldsNothing();
    }

    lemma IdleHoldsNothing()
      requires pool == Exec(START, events) && pool.phase == Idle
      ensures ThreadSet(pool) == {} && PendingSet(pool) == {}
    {
      PoolInv();
    }

    /** completion_thread, from the rounds until its AWAIT_COMPLETION first yields nothing, with the
        outcomes of the mallocs on the way.  It has logged for each completion of the rounds it served,
        in order, its callback and, for a close, the acknowledgement after it; of the headers that
        came with them, clients have those whose service has a base.callback and nobody has the rest.
        Unless a malloc failed for an empty array, it has served all rounds and ends holding no buffer. */
    method CompletionThread(rounds: seq<Round>, lastMallocs: seq<bool>)
      returns (served: nat, aborted: bool, ghost cs: seq<Completion>)
      requires Valid() && pool.phase == Idle
      requires forall b :: 0 <= b < |rounds| ==> 0 < |rounds[b].answers| <= THREAD_BUFS
      requires SlotsBelow(Flatten(rounds), SLOTS)
      modifies this`pool, this`events, this`freeMsgbufs, this`log, pool.mem.Keys
      ensures Valid() && ServedSoFar(old(log), old(pool), old(events), rounds, served, cs)
      ensures !aborted ==> served == |rounds| && pool.phase == Idle && ThreadSet(pool) == {} && PendingSet(pool) == {}
      ensures aborted ==> FailsFirst(if served < |rounds| then rounds[served].mallocs else lastMallocs)
    {
      var msgbufs := new MsgBuf?[THREAD_BUFS](_ => null);
      Begin();
      var count;
      count, served, aborted, cs := ServeAll(msgbufs, rounds, old(pool), old(events));
      if !aborted {
        aborted := Finish(msgbufs, count, lastMallocs, old(pool), old(events), cs, Flatten(rounds[..served]));
      }
    }

    // ------------------------------------------- what always holds of the objects

    /** The link fields inside the free buffers chain them, each once, from free_msgbufs to null. */
    lemma FreeChain()
      requires Valid()
      ensures freeMsgbufs == (if pool.free == [] then null else pool.free[|pool.free| - 1])
      ensures forall k :: 0 <= k < |pool.free| ==> pool.free[k].content == Link(Below(pool.free, k))
      ensures NoDuplicates(pool.free)
    {
      assert FreeOk(pool) && NoDuplicates(pool.free) by {
        PoolInv();
        NoDoubles(pool);
      }
      forall k | 0 <= k < |pool.free| ensures pool.free[k].content == Link(Below(pool.free, k)) {
        LinkAt(pool.mem, pool.free, k);
      }
    }

    /** A free buffer is no service's peek buffer and no client's. */
    lemma FreeUnshared(b: MsgBuf)
      requires Valid() && b in pool.free
      ensures forall i :: 0 <= i < SLOTS ==> services[i].peekBuf != b
      ensures b !in ClientSet(pool)
    {
      ReachablePartition(events);
      assert b in FreeSet(pool) && b !in PeekSet(pool);
      forall i | 0 <= i < SLOTS ensures services[i].peekBuf != b {
        assert b !in pool.peekBuf && services[i].peekBuf == pool.peekBuf[i];
      }
    }

    /** No two services share a peek buffer. */
    lemma PeekBuffersDiffer(i: nat, j: nat)
      requires Valid() && i < j < SLOTS && services[i].peekBuf != null
      ensures services[i].peekBuf != services[j].peekBuf
    {
      ReachablePartition(events);
      assert services[i].peekBuf == pool.peekBuf[i] && services[j].peekBuf == pool.peekBuf[j];
    }

    /** What the client of slot i has received since its service was created, and then what it can
        still receive, is what the driver has queued for it, in order. */
    lemma ReceivedInOrder(before: seq<Event>, run: seq<Event>, i: nat)
      requires Valid() && i < SLOTS && events == before + [Reset(i, true)] + run && NoReset(run, i)
      ensures ConsumedAll(Step(Exec(START, before), Reset(i, true)), run, i) + AbsQueue(pool, i) == ArrivedAll(run, i)
    {
      ExecAppend(START, before + [Reset(i, true)], run);
      ExecAppend(START, before, [Reset(i, true)]);
      ServiceFifo(before, run, i);
    }

    /** The services' own fields: live ones lie in the used part, none is live without a user, and
        servers with the same fourcc have the same callbacks. */
    lemma ServicesConsistent(i: nat, j: nat)
      requires Valid() && i < SLOTS && j < SLOTS
      ensures services[i].libHandle != T.NO_HANDLE ==> i < usedServices && initialised > 0 && fd in descriptors
      ensures services[i].libHandle != T.NO_HANDLE ==> T.SlotOf(services[i].libHandle) == i
      ensures (&& services[i].libHandle != T.NO_HANDLE && services[j].libHandle != T.NO_HANDLE
               && !services[i].isClient && !services[j].isClient && services[i].fourcc == services[j].fourcc) ==>
        services[i].callback == services[j].callback && services[i].vchiCallback == services[j].vchiCallback
    {
      TableInv();
      assert services[i].View() == table.slots[i] && services[j].View() == table.slots[j];
      if table.slots[i].Live() { TT.LiveSlotOf(table, i); }
      if TT.IsServer(table.slots[i]) && TT.IsServer(table.slots[j]) {
        assert TT.SameCallbacks(table.slots[i], table.slots[j]);
      }
    }
  }
}
