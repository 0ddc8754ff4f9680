/** Where the MMAL buffer headers of one pool are while a preview or an encoder runs: in the
    pool's queue, at the port, in the callback that is running, or lost to a failed send. */
module HeaderCirculation {
  import opened GrabProtocol

  type Header = nat

  datatype Circ = Circ(queue: seq<Header>, port: set<Header>, current: Option<Header>, lost: set<Header>)

  datatype Move =
    | Send(ok: bool)          // take a header from the queue and send it to the port
    | Return(h: Header)       // the port hands a filled header to the callback
    | Release                 // the callback gives it back to the pool

  predicate CanMove(c: Circ, m: Move) {
    match m
    case Send(_) => c.queue != []
    case Return(h) => h in c.port && c.current == None
    case Release => c.current.Some?
  }

  function Apply(c: Circ, m: Move): Circ {
    if !CanMove(c, m) then c else
    match m
    case Send(ok) =>
      if ok then c.(queue := c.queue[1..], port := c.port + {c.queue[0]})
      else c.(queue := c.queue[1..], lost := c.lost + {c.queue[0]})
    case Return(h) => c.(port := c.port - {h}, current := Some(h))
    case Release => c.(queue := c.queue + [c.current.value], current := None)
  }

  function ApplyAll(c: Circ, moves: seq<Move>): Circ
    decreases |moves|
  {
    if moves == [] then c else ApplyAll(Apply(c, moves[0]), moves[1..])
  }

  // ------------------------------------------------------------ conservation

  function Queued(c: Circ): set<Header> { set h | h in c.queue }

  function InCallback(c: Circ): set<Header> {
    if c.current == None then {} else {c.current.value}
  }

  /** Every header of the pool is in exactly one place, once. */
  ghost predicate Whole(c: Circ, all: set<Header>) {
    && (forall j, k :: 0 <= j < k < |c.queue| ==> c.queue[j] != c.queue[k])
    && Queued(c) !! c.port !! InCallback(c) !! c.lost
    && Queued(c) + c.port + InCallback(c) + c.lost == all
  }

  lemma MoveKeepsWhole(c: Circ, m: Move, all: set<Header>)
    requires Whole(c, all)
    ensures Whole(Apply(c, m), all)
  {
    if CanMove(c, m) {
      var d := Apply(c, m);
      match m
      case Send(ok) =>
        assert c.queue == [c.queue[0]] + d.queue;
        assert Queued(c) == Queued(d) + {c.queue[0]};
      case Return(h) =>
      case Release =>
        assert c.current.value in InCallback(c);
        assert Queued(d) == Queued(c) + {c.current.value};
    }
  }

  /** Over any run, with any mixture of failed and successful sends, no header is duplicated and
      none disappears. */
  lemma {:induction false} HeadersConserved(c: Circ, moves: seq<Move>, all: set<Header>)
    requires Whole(c, all)
    ensures Whole(ApplyAll(c, moves), all)
    decreases |moves|
  {
    if moves != [] {
      MoveKeepsWhole(c, moves[0], all);
      HeadersConserved(Apply(c, moves[0]), moves[1..], all);
    }
  }

  /** A callback on an enabled port: the header comes back, goes to the pool, and the header at
      the front of the pool's queue goes to the port. */
  function Callback(c: Circ, h: Header, ok: bool): Circ {
    Apply(Apply(Apply(c, Return(h)), Release), Send(ok))
  }

  function Callbacks(c: Circ, hs: seq<Header>): Circ
    decreases |hs|
  {
    if hs == [] then c else Callbacks(Callback(c, hs[0], true), hs[1..])
  }

  /** A successful callback leaves as many headers at the port as there were; an unsuccessful one
      loses exactly one. */
  lemma CallbackKeepsCount(c: Circ, h: Header, ok: bool, all: set<Header>)
    requires Whole(c, all) && c.current == None && h in c.port
    ensures Whole(Callback(c, h, ok), all) && Callback(c, h, ok).current == None
    ensures |Callback(c, h, ok).port| == if ok then |c.port| else |c.port| - 1
  {
    var next := (c.queue + [h])[0];
    CallbackKeepsWhole(c, h, ok, all);
    CallbackIs(c, h, ok);
    assert next !in c.port - {h} by {
      if c.queue != [] { assert next in Queued(c); }
    }
    SwapCount(c.port, h, next);
  }

  lemma SwapCount(port: set<Header>, h: Header, next: Header)
    requires h in port && next !in port - {h}
    ensures |port - {h}| == |port| - 1 && |port - {h} + {next}| == |port|
  {
  }

  /** The header at the front of the queue, after h has joined it, takes h's place. */
  lemma CallbackIs(c: Circ, h: Header, ok: bool)
    requires c.current == None && h in c.port
    ensures var q := c.queue + [h];
            Callback(c, h, ok) == if ok then c.(queue := q[1..], port := c.port - {h} + {q[0]})
                                  else c.(queue := q[1..], port := c.port - {h}, lost := c.lost + {q[0]})
  {
  }

  lemma CallbackKeepsWhole(c: Circ, h: Header, ok: bool, all: set<Header>)
    requires Whole(c, all)
    ensures Whole(Callback(c, h, ok), all)
  {
    var c1 := Apply(c, Return(h));
    MoveKeepsWhole(c, Return(h), all);
    MoveKeepsWhole(c1, Release, all);
    MoveKeepsWhole(Apply(c1, Release), Send(ok), all);
  }

  /** Each header handed to a callback is at the port by then. */
  ghost predicate Arriving(c: Circ, hs: seq<Header>) {
    forall k :: 0 <= k < |hs| ==> hs[k] in Callbacks(c, hs[..k]).port
  }

  lemma ArrivingRest(c: Circ, hs: seq<Header>)
    requires Arriving(c, hs) && hs != []
    ensures hs[0] in c.port && Arriving(Callback(c, hs[0], true), hs[1..])
  {
    assert hs[0] in Callbacks(c, hs[..0]).port;
    forall k | 0 <= k < |hs| - 1 ensures hs[1..][k] in Callbacks(Callback(c, hs[0], true), hs[1..][..k]).port {
      assert hs[..k + 1][0] == hs[0] && hs[..k + 1][1..] == hs[1..][..k];
      assert hs[k + 1] in Callbacks(c, hs[..k + 1]).port;
    }
  }

  /** From the state the priming loop leaves, any number of successful callbacks keeps the port
      supplied with the same number of headers. */
  lemma {:induction false} SupplyIsSteady(c: Circ, hs: seq<Header>, all: set<Header>)
    requires Whole(c, all) && c.current == None && Arriving(c, hs)
    ensures |Callbacks(c, hs).port| == |c.port| && Callbacks(c, hs).current == None && Whole(Callbacks(c, hs), all)
    decreases |hs|
  {
    if hs != [] {
      ArrivingRest(c, hs);
      CallbackKeepsCount(c, hs[0], true, all);
      SupplyIsSteady(Callback(c, hs[0], true), hs[1..], all);
    }
  }

  // ------------------------------------------------------------ priming

  /** The first n headers of a list. */
  function Firsts(queue: seq<Header>, n: nat): set<Header>
    requires n <= |queue|
  {
    set k | 0 <= k < n :: queue[k]
  }

  lemma {:induction false} FirstsCount(queue: seq<Header>, n: nat)
    requires n <= |queue| && forall j, k :: 0 <= j < k < |queue| ==> queue[j] != queue[k]
    ensures |Firsts(queue, n)| == n
  {
    if n > 0 {
      FirstsCount(queue, n - 1);
      assert Firsts(queue, n) == Firsts(queue, n - 1) + {queue[n - 1]};
    }
  }

  /** A pool whose first n headers have been sent. */
  function Primed(c: Circ, n: nat): Circ
    requires n <= |c.queue|
  {
    c.(queue := c.queue[n..], port := c.port + Firsts(c.queue, n))
  }

  /** How many headers the preview loops and the encoder loops send out of n. */
  function PreviewShare(n: nat): nat { n }

  function EncoderShare(n: nat): nat { (n + 1) / 2 }

  lemma PrimedWhole(c: Circ, n: nat, all: set<Header>)
    requires Whole(c, all) && n <= |c.queue|
    ensures Whole(Primed(c, n), all)
  {
    var p := Primed(c, n);
    assert forall k :: 0 <= k < |p.queue| ==> p.queue[k] == c.queue[n + k];
    assert Queued(c) == Queued(p) + Firsts(c.queue, n);
  }

  /** A pool primed with n of its headers runs on exactly n for as long as sends succeed, and the
      rest stay in its queue. */
  lemma RunsOnPrimedHeaders(c: Circ, n: nat, hs: seq<Header>, all: set<Header>)
    requires Whole(c, all) && c.port == {} && c.current == None && n <= |c.queue|
    requires Arriving(Primed(c, n), hs)
    ensures |Callbacks(Primed(c, n), hs).port| == n
    ensures |Callbacks(Primed(c, n), hs).queue| == |c.queue| - n
  {
    FirstsCount(c.queue, n);
    PrimedWhole(c, n, all);
    SupplyIsSteady(Primed(c, n), hs, all);
    QueueIsSteady(Primed(c, n), hs);
  }

  lemma {:induction false} QueueIsSteady(c: Circ, hs: seq<Header>)
    requires c.current == None && Arriving(c, hs)
    ensures |Callbacks(c, hs).queue| == |c.queue|
    decreases |hs|
  {
    if hs != [] {
      ArrivingRest(c, hs);
      QueueIsSteady(Callback(c, hs[0], true), hs[1..]);
    }
  }

  class Pool {
    var queue: seq<Header>
    var port: set<Header>
    var lost: set<Header>
    var enabled: bool              // port->is_enabled

    ghost function View(): Circ
      reads this
    {
      Circ(queue, port, None, lost)
    }

    /** mmal_queue_get and mmal_port_send_buffer. */
    method SendNext(ok: bool)
      modifies this`queue, this`port, this`lost
      ensures View() == Apply(old(View()), Send(ok))
    {
      if queue != [] {
        if ok { port := port + {queue[0]}; } else { lost := lost + {queue[0]}; }
        queue := queue[1..];
      }
    }

    /** The preview loops: the bound is read once. */
    method PrimePreview(ok: nat -> bool)
      modifies this`queue, this`port, this`lost
      ensures queue == []
      ensures port == old(port) + set k | 0 <= k < |old(queue)| && ok(k) :: old(queue)[k]
      ensures lost == old(lost) + set k | 0 <= k < |old(queue)| && !ok(k) :: old(queue)[k]
      ensures (forall k :: ok(k)) ==> View() == Primed(old(View()), PreviewShare(|old(queue)|))
    {
      var num := |queue|;
      var q := 0;
      while q < num
        invariant 0 <= q <= num && queue == old(queue)[q..]
        invariant port == old(port) + set k | 0 <= k < q && ok(k) :: old(queue)[k]
        invariant lost == old(lost) + set k | 0 <= k < q && !ok(k) :: old(queue)[k]
      {
        SendNext(ok(q));
        q := q + 1;
      }
    }

    /** The encoder loops: the bound is the length of the queue they are emptying, so they stop
        after half of it, rounded up. */
    method PrimeEncoder(ok: nat -> bool)
      modifies this`queue, this`port, this`lost
      ensures var half := EncoderShare(|old(queue)|);
              && queue == old(queue)[half..]
              && port == old(port) + (set k | 0 <= k < half && ok(k) :: old(queue)[k])
              && lost == old(lost) + (set k | 0 <= k < half && !ok(k) :: old(queue)[k])
              && ((forall k :: ok(k)) ==> View() == Primed(old(View()), half))
    {
      var q := 0;
      while q < |queue|
        invariant 0 <= q <= |old(queue)| && queue == old(queue)[q..] && q <= |queue| + 1
        invariant port == old(port) + set k | 0 <= k < q && ok(k) :: old(queue)[k]
        invariant lost == old(lost) + set k | 0 <= k < q && !ok(k) :: old(queue)[k]
      {
        SendNext(ok(q));
        q := q + 1;
      }
    }

    /** What both callbacks do with their buffer header. */
    method BufferCallback(h: Header, ok: bool)
      requires h in port
      modifies this`queue, this`port, this`lost
      ensures View() == if enabled then Callback(old(View()), h, ok) else Apply(Apply(old(View()), Return(h)), Release)
    {
      port := port - {h};
      queue := queue + [h];
      if enabled { SendNext(ok); }
    }

    /** preview_buffer_callback: offer the frame, pass the header on, announce. */
    method PreviewCallback(data: PreviewUserdata, h: Header, frame: Frame, ok: bool)
      requires h in port
      modifies this`queue, this`port, this`lost, data
      ensures View() == if enabled then Callback(old(View()), h, ok) else Apply(Apply(old(View()), Return(h)), Release)
      ensures var before := old(data.View());
              data.View() == if Takes(before, frame) then Offered(before, frame).(ready := true) else before
    {
      var hasGrabbed := data.Offer(frame);
      BufferCallback(h, ok);
      if hasGrabbed { data.Broadcast(); }
    }
  }
}
