/** vchiq_util.c as one caller sees it: a bounded queue in a power-of-two array.

    A call that would block because nobody else can run returns `parked`; what happens when
    the other side does run is RingProtocol. */
module RingQueue {
  import opened Bits
  import opened Limits
  import opened RingCounters

  class Queue<T(0)> {
    var size: nat
    var read: nat
    var write: nat
    var popEvent: bool
    var pushEvent: bool
    var storage: array<T>
    ghost var pushed: seq<T>   // every value ever pushed
    ghost var popped: nat      // how many of them have been popped

    ghost predicate Valid()
      reads this, storage
    {
      && IsPow2(size) && size <= MAX_SIZE && storage.Length == size
      && popped <= |pushed| <= popped + size
      && read == popped % WRAP && write == |pushed| % WRAP
      && Holds(storage[..], size, pushed, popped)
    }

    ghost function Contents(): seq<T>
      requires Valid()
      reads this, storage
    {
      pushed[popped..]
    }

    /** What the tests and the masked indices of the code come to. */
    lemma Positions()
      requires Valid()
      ensures size > 0
      ensures write == (read + size) % WRAP <==> |pushed| == popped + size
      ensures write == read <==> |pushed| == popped
      ensures And(write, size - 1) == |pushed| % size < size
      ensures And(read, size - 1) == popped % size < size
    {
      TestsUnwrap(size, |pushed|, popped);
      MaskIsMod(size, |pushed|);
      MaskIsMod(size, popped);
    }

    constructor (size: nat)
      requires IsPow2(size) && size <= MAX_SIZE
      ensures Valid() && fresh(storage) && this.size == size
      ensures Contents() == [] && !popEvent && !pushEvent
    {
      this.size := size;
      read, write := 0, 0;
      popEvent, pushEvent := false, false;
      storage := new T[size];
      pushed, popped := [], 0;
    }

    method IsEmpty() returns (empty: bool)
      requires Valid()
      ensures empty <==> Contents() == []
    {
      Positions();
      empty := read == write;
    }

    method IsFull() returns (full: bool)
      requires Valid()
      ensures full <==> |Contents()| == size
    {
      Positions();
      full := write == (read + size) % WRAP;
    }

    /** The wait loop of a push: parks, or leaves room; a stale signal is used up either way. */
    method AwaitRoom() returns (parked: bool)
      requires Valid()
      modifies this`popEvent
      ensures Valid()
      ensures parked <==> |Contents()| == size
      ensures popEvent == (old(popEvent) && !parked)
    {
      Positions();
      parked := false;
      while write == (read + size) % WRAP && !parked
        invariant Valid() && (parked ==> !popEvent && |Contents()| == size)
        invariant |Contents()| < size ==> popEvent == old(popEvent)
        invariant |Contents()| == size ==> popEvent ==> old(popEvent)
        decreases !parked, popEvent
      {
        if popEvent { popEvent := false; } else { parked := true; }
      }
    }

    method AwaitValue() returns (parked: bool)
      requires Valid()
      modifies this`pushEvent
      ensures Valid()
      ensures parked <==> Contents() == []
      ensures pushEvent == (old(pushEvent) && !parked)
    {
      Positions();
      parked := false;
      while write == read && !parked
        invariant Valid() && (parked ==> !pushEvent && Contents() == [])
        invariant Contents() != [] ==> pushEvent == old(pushEvent)
        invariant Contents() == [] ==> pushEvent ==> old(pushEvent)
        decreases !parked, pushEvent
      {
        if pushEvent { pushEvent := false; } else { parked := true; }
      }
    }

    method Push(x: T) returns (parked: bool)
      requires Valid()
      modifies this, storage
      ensures Valid() && size == old(size) && storage == old(storage)
      ensures parked <==> |old(Contents())| == size
      ensures Contents() == old(Contents()) + if parked then [] else [x]
      ensures pushEvent == (old(pushEvent) || !parked)
      ensures popEvent == (old(popEvent) && !parked)
    {
      parked := AwaitRoom();
      if !parked {
        Append(x);
        pushEvent := true;
      }
    }

    /** The store and the increment of a push. */
    method Append(x: T)
      requires Valid() && |Contents()| < size
      modifies this`write, this`pushed, storage
      ensures Valid() && Contents() == old(Contents()) + [x]
    {
      Positions();
      StoreElsewhere(storage[..], size, pushed, popped, x);
      ghost var before := storage[..];
      storage[And(write, size - 1)] := x;
      assert storage[..] == before[|pushed| % size := x];
      WrappedSum(|pushed|, 1);
      write := (write + 1) % WRAP;
      pushed := pushed + [x];
    }

    method Peek() returns (parked: bool, x: T)
      requires Valid()
      modifies this`pushEvent
      ensures Valid()
      ensures parked <==> Contents() == []
      ensures !parked ==> x == Contents()[0]
      ensures pushEvent == (old(pushEvent) && !parked)
    {
      parked := AwaitValue();
      Positions();
      x := storage[And(read, size - 1)];
    }

    method Pop() returns (parked: bool, x: T)
      requires Valid()
      modifies this
      ensures Valid() && size == old(size) && storage == old(storage)
      ensures parked <==> old(Contents()) == []
      ensures !parked ==> x == old(Contents())[0]
      ensures Contents() == if parked then [] else old(Contents())[1..]
      ensures popEvent == (old(popEvent) || !parked)
      ensures pushEvent == (old(pushEvent) && !parked)
    {
      parked := AwaitValue();
      Positions();
      x := storage[And(read, size - 1)];
      if !parked {
        WrappedSum(popped, 1);
        read := (read + 1) % WRAP;
        popped := popped + 1;
        popEvent := true;
      }
    }
  }
}
