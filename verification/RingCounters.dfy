/** Free-running 32-bit counters masked into a power-of-two ring. */
module RingCounters {
  import opened Bits
  import opened Limits

  const MAX_SIZE: nat := 0x4000_0000   // the largest power of two an int size can hold

  /** The 32-bit pattern of an int. */
  function Word(i: int): nat { i % WRAP }

  /** is_pow2 on an int: 0 fails, and so does every negative number. */
  predicate SizeTest(i: int) {
    i != 0 && And(Word(i), Word(i - 1)) == 0
  }

  /** For every int whose predecessor does not overflow, the test accepts exactly the powers of two. */
  lemma SizeTestExactly(i: int)
    requires -0x8000_0000 < i < 0x8000_0000
    ensures SizeTest(i) <==> exists k: nat :: i == Pow2(k)
  {
    if i > 0 {
      IsPow2Exactly(i);
      assert Word(i) == i && Word(i - 1) == i - 1;
    } else if i < 0 {
      NegativeFails(i);
    }
  }

  lemma NegativeFails(i: int)
    requires -0x8000_0000 < i < 0
    ensures !SizeTest(i)
  {
    assert Pow2(31) == 0x8000_0000 && Pow2(32) == WRAP by { Pow2Values(); }
    assert Word(i) == i + WRAP && Word(i - 1) == i - 1 + WRAP;
    AndTop(Word(i), Word(i - 1), 31);
  }

  lemma SizeBits(size: nat) returns (k: nat)
    requires IsPow2(size) && size <= MAX_SIZE
    ensures size == Pow2(k) && k <= 30 && 0 < size < WRAP && WRAP % size == 0
  {
    k := LogOf(size);
    Pow2Values();
    if k > 30 { Pow2Divides(31, k); }
    Pow2Divides(k, 32);
  }

  /** Masking a wrapped counter gives the unwrapped position modulo the size. */
  lemma MaskIsMod(size: nat, n: nat)
    requires IsPow2(size) && size <= MAX_SIZE
    ensures size > 0 && And(n % WRAP, size - 1) == n % size < size
  {
    var k := SizeBits(size);
    AndMask(n % WRAP, k);
    ModMod(n, size);
  }

  lemma ModMod(n: nat, size: nat)
    requires 0 < size && WRAP % size == 0
    ensures n % WRAP % size == n % size
  {
    var m, q, r := n % WRAP, n / WRAP, n % WRAP / size;
    var w := WRAP / size;
    assert WRAP == size * w;
    assert n == (size * w) * q + (size * r + m % size);
    assert (size * w) * q == size * (w * q);
    assert size * (w * q) + size * r == size * (w * q + r);
    ModUnique(n, size, w * q + r, m % size);
  }

  lemma WrappedSum(q: nat, d: nat)
    ensures (q % WRAP + d) % WRAP == (q + d) % WRAP
  {
  }

  lemma WrappedDifference(p: nat, q: nat)
    requires p < q + WRAP && q < p + WRAP
    ensures p % WRAP == q % WRAP <==> p == q
    ensures q <= p ==> (p % WRAP - q % WRAP) % WRAP == p - q
  {
  }

  /** Two positions less than size apart use different slots. */
  lemma SlotsDiffer(a: nat, b: nat, size: nat)
    requires a < b < a + size
    ensures a % size != b % size
  {
    if a % size == b % size {
      var qa, qb := a / size, b / size;
      assert b - a == size * qb - size * qa;
      if qb > qa { MulMonotone(size, qa + 1, qb); } else { MulMonotone(size, qb, qa); }
    }
  }

  /** The wrapped full and empty tests are exact, whatever the counters have wrapped to. */
  lemma TestsUnwrap(size: nat, write: nat, read: nat)
    requires IsPow2(size) && size <= MAX_SIZE && read <= write <= read + size
    ensures write % WRAP == (read % WRAP + size) % WRAP <==> write == read + size
    ensures write % WRAP == read % WRAP <==> write == read
    ensures (write % WRAP - read % WRAP) % WRAP == write - read
  {
    assert 0 < size < WRAP by { var k := SizeBits(size); }
    FullUnwraps(size, write, read);
    WrappedDifference(write, read);
  }

  lemma FullUnwraps(size: nat, write: nat, read: nat)
    requires 0 < size < WRAP && read <= write <= read + size
    ensures write % WRAP == (read % WRAP + size) % WRAP <==> write == read + size
  {
    WrappedSum(read, size);
    SameWrapped(write, read + size);
  }

  lemma SameWrapped(p: nat, q: nat)
    requires p <= q < p + WRAP
    ensures p % WRAP == q % WRAP <==> p == q
  {
  }

  /** The values from position `from` on are in their slots. */
  ghost predicate Holds<T>(storage: seq<T>, size: nat, values: seq<T>, from: nat)
    requires size > 0 && |storage| == size
  {
    forall j :: from <= j < |values| ==> storage[j % size] == values[j]
  }

  /** Storing at the write position leaves every unread slot alone. */
  lemma StoreElsewhere<T>(storage: seq<T>, size: nat, values: seq<T>, from: nat, x: T)
    requires size > 0 && |storage| == size && from <= |values| < from + size && Holds(storage, size, values, from)
    ensures Holds(storage[|values| % size := x], size, values, from)
  {
    forall j | from <= j < |values| ensures j % size != |values| % size {
      SlotsDiffer(j, |values|, size);
    }
  }
}
