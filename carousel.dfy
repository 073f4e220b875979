/** The wrap-around sliders: the image gallery, the product page's image
    viewer and the home page's deal banner all keep one index into a list
    and step it forwards and backwards modulo the list's length. */
module Carousel {

  /** JavaScript's `a % n`: the remainder takes the sign of the dividend. */
  function JsRemainder(a: int, n: int): (r: int)
    requires n != 0
    ensures a >= 0 && n > 0 ==> r == a % n
    ensures a >= 0 ==> 0 <= r < (if n > 0 then n else -n)
    ensures a < 0 ==> -(if n > 0 then n else -n) < r <= 0
  {
    var m := (if a >= 0 then a else -a) % (if n > 0 then n else -n);
    if a >= 0 then m else -m
  }

  /** `(prev + 1) % n`. */
  function Succ(i: int, n: int): int
    requires n > 0
  {
    JsRemainder(i + 1, n)
  }

  /** `(prev - 1 + n) % n`. */
  function Pred(i: int, n: int): int
    requires n > 0
  {
    JsRemainder(i - 1 + n, n)
  }

  /** From a position in range, both steps stay in range: forwards from the
      last position is the first, backwards from the first is the last. */
  lemma StepsInRange(i: int, n: int)
    requires 0 <= i < n
    ensures Succ(i, n) == if i == n - 1 then 0 else i + 1
    ensures Pred(i, n) == if i == 0 then n - 1 else i - 1
    ensures 0 <= Succ(i, n) < n && 0 <= Pred(i, n) < n
  {
    if i == n - 1 {
      RemainderOfCount(n);
    } else {
      RemainderOfSmall(i + 1, n);
    }
    if i == 0 {
      RemainderOfSmall(n - 1, n);
    } else {
      RemainderOfCount(n);
      RemainderAfterCount(i - 1, n);
    }
  }

  lemma RemainderOfSmall(a: int, n: int)
    requires 0 <= a < n
    ensures a % n == a
  {
  }

  lemma RemainderOfCount(n: int)
    requires n > 0
    ensures n % n == 0
  {
  }

  /** One more whole lap leaves the remainder of a position as it was. */
  lemma RemainderAfterCount(a: int, n: int)
    requires 0 <= a < n
    ensures (a + n) % n == a
  {
  }

  /** The two steps undo each other. */
  lemma StepsUndo(i: int, n: int)
    requires 0 <= i < n
    ensures Pred(Succ(i, n), n) == i
    ensures Succ(Pred(i, n), n) == i
  {
    StepsInRange(i, n);
    StepsInRange(Succ(i, n), n);
    StepsInRange(Pred(i, n), n);
  }

  /** `k` forward steps in a row. */
  function Advance(i: int, k: nat, n: int): int
    requires n > 0
  {
    if k == 0 then i else Succ(Advance(i, k - 1, n), n)
  }

  /** Up to one full lap of forward steps from a position in range lands
      that many places on, wrapping past the end: `(i + k) % n` for
      `k <= n`. */
  lemma {:induction false} AdvanceWraps(i: int, k: nat, n: int)
    requires 0 <= i < n && k <= n
    ensures Advance(i, k, n) == if i + k < n then i + k else i + k - n
  {
    if k > 0 {
      AdvanceWraps(i, k - 1, n);
      StepsInRange(Advance(i, k - 1, n), n);
    }
  }

  /** Stepping forwards once per item brings the slider back to where it
      started. */
  lemma FullCycle(i: int, n: int)
    requires 0 <= i < n
    ensures Advance(i, n, n) == i
  {
    AdvanceWraps(i, n, n);
  }

  /** One slider: the selected position in a list of `count` items. */
  class Slider {
    var index: int
    const count: int

    /** The selected position lies inside the list; an empty list keeps the
        initial position 0. */
    predicate Valid()
      reads this
    {
      0 <= index && (index < count || (count == 0 && index == 0))
    }

    /** A freshly mounted slider shows the first item. */
    constructor (count: nat)
      ensures Valid() && index == 0 && this.count == count
    {
      index := 0;
      this.count := count;
    }

    /** The next arrow. */
    method Next()
      requires Valid() && count > 0
      modifies this
      ensures Valid()
      ensures index == Succ(old(index), count)
      ensures index == if old(index) == count - 1 then 0 else old(index) + 1
    {
      StepsInRange(index, count);
      index := JsRemainder(index + 1, count);
    }

    /** The previous arrow. */
    method Prev()
      requires Valid() && count > 0
      modifies this
      ensures Valid()
      ensures index == Pred(old(index), count)
      ensures index == if old(index) == 0 then count - 1 else old(index) - 1
    {
      StepsInRange(index, count);
      index := JsRemainder(index - 1 + count, count);
    }

    /** A thumbnail or dot click selects its own position. */
    method Select(i: int)
      requires Valid() && 0 <= i < count
      modifies this
      ensures Valid() && index == i
    {
      index := i;
    }

    /** The counter `{index + 1} / {count}`. */
    function Counter(): (r: (int, int))
      requires Valid() && count > 0
      reads this
      ensures 1 <= r.0 <= r.1 == count
      ensures r.0 == index + 1
    {
      (index + 1, count)
    }
  }
}
