/** The round-robin `Ring[T]` of ring.go: a fixed non-empty sequence and a
    cursor that `Next` advances cyclically. */
module Rings {
  import opened Errors

  /** The error `NewRing` returns for an empty slice. */
  const EmptyArray := Error("array is empty")

  /** One cursor step of `Next`: wrap to 0 after the last index, otherwise increment. */
  function Step(idx: int, size: int): (r: int)
    requires 0 <= idx < size
    ensures r == (idx + 1) % size
  {
    if idx == size - 1 then
      ModUnique(idx + 1, size, 1, 0); 0
    else
      ModUnique(idx + 1, size, 0, idx + 1); idx + 1
  }

  /** The cursor after `k` calls to `Next` starting from `idx`. */
  function Advance(idx: int, size: int, k: nat): (r: int)
    requires 0 <= idx < size
    ensures 0 <= r < size
    decreases k
  {
    if k == 0 then idx else Advance(Step(idx, size), size, k - 1)
  }

  /** The values returned by `k` successive calls to `Next` starting from `idx`. */
  function Emitted<T>(elements: seq<T>, idx: int, k: nat): (r: seq<T>)
    requires 0 <= idx < |elements|
    ensures |r| == k
    decreases k
  {
    if k == 0 then [] else [elements[idx]] + Emitted(elements, Step(idx, |elements|), k - 1)
  }

  /** Multiplication distributes over addition. */
  lemma Distr(a: int, b: int, n: int)
    ensures (a + b) * n == a * n + b * n
  {
  }

  /** A positive multiple of n is at least n. */
  lemma MulAtLeast(d: int, n: int)
    requires 1 <= d && 0 < n
    ensures d * n >= n
  {
  }

  /** Quotient and remainder are determined by `x == q * n + r` with `0 <= r < n`. */
  lemma ModUnique(x: int, n: int, q: int, r: int)
    requires 0 < n && 0 <= r < n && x == q * n + r
    ensures x % n == r && x / n == q
  {
    var q', r' := x / n, x % n;
    assert x == q' * n + r';
    if q' < q {
      Distr(q', q - q', n);
      MulAtLeast(q - q', n);
      assert false;
    } else if q < q' {
      Distr(q, q' - q, n);
      MulAtLeast(q' - q, n);
      assert false;
    }
  }

  /** How quotient and remainder move when the dividend grows by one. */
  lemma DivModSucc(n: int, k: int)
    requires 0 <= n && 0 < k
    ensures n % k == k - 1 ==> (n + 1) / k == n / k + 1 && (n + 1) % k == 0
    ensures n % k < k - 1 ==> (n + 1) / k == n / k && (n + 1) % k == n % k + 1
  {
    var q, r := n / k, n % k;
    ModUnique(n, k, q, r);
    Distr(q, 1, k);
    if r == k - 1 {
      ModUnique(n + 1, k, q + 1, 0);
    } else {
      ModUnique(n + 1, k, q, r + 1);
    }
  }

  /** Adding a multiple of n does not change a value modulo n. */
  lemma ModMultiple(c: int, q: int, n: int)
    requires 0 < n
    ensures (q * n + c) % n == c % n
  {
    Distr(q, c / n, n);
    ModUnique(q * n + c, n, q + c / n, c % n);
  }

  /** Reducing the left operand first does not change a sum modulo n. */
  lemma ModAddLeft(a: int, b: int, n: int)
    requires 0 < n
    ensures (a % n + b) % n == (a + b) % n
  {
    ModMultiple(a % n + b, a / n, n);
  }

  /** After `k` calls the cursor is `(idx + k) mod size`. */
  lemma {:induction false} AdvanceIsMod(idx: int, size: int, k: nat)
    requires 0 <= idx < size
    ensures Advance(idx, size, k) == (idx + k) % size
    decreases k
  {
    if k > 0 {
      AdvanceIsMod(Step(idx, size), size, k - 1);
      ModAddLeft(idx + 1, k - 1, size);
    }
  }

  /** After any whole number of cycles the cursor is back where it started
      (ring_test.go checks this for two cycles). */
  lemma FullCyclesRestoreCursor(idx: int, size: int, m: nat)
    requires 0 <= idx < size
    ensures Advance(idx, size, m * size) == idx
  {
    AdvanceIsMod(idx, size, m * size);
    ModMultiple(idx, m, size);
    ModUnique(idx, size, 0, idx);
  }

  /** The j-th value returned from cursor `idx` is `elements[(idx + j) mod size]`. */
  lemma {:induction false} EmittedAt<T>(elements: seq<T>, idx: int, k: nat, j: nat)
    requires 0 <= idx < |elements|
    requires j < k
    ensures Emitted(elements, idx, k)[j] == elements[(idx + j) % |elements|]
    decreases j
  {
    var n := |elements|;
    if j == 0 {
      ModUnique(idx, n, 0, idx);
    } else {
      var next := Step(idx, n);
      assert Emitted(elements, idx, k) == [elements[idx]] + Emitted(elements, next, k - 1);
      EmittedAt(elements, next, k - 1, j - 1);
      ModAddLeft(idx + 1, j - 1, n);
    }
  }

  /** The j-th of the first 2·size values from a fresh ring is the j-th of
      the elements repeated twice. */
  lemma TwoCyclesAt<T>(elements: seq<T>, j: nat)
    requires j < 2 * |elements|
    ensures Emitted(elements, 0, 2 * |elements|)[j] == (elements + elements)[j]
  {
    var n := |elements|;
    EmittedAt(elements, 0, 2 * n, j);
    if j < n {
      ModUnique(j, n, 0, j);
    } else {
      ModUnique(j, n, 1, j - n);
    }
  }

  /** From a fresh ring, 2·size calls return the elements twice in order,
      e.g. 1,2,3,4,5,1,2,3,4,5 (ring_test.go). */
  lemma TwoCyclesFromStart<T>(elements: seq<T>)
    requires |elements| > 0
    ensures Emitted(elements, 0, 2 * |elements|) == elements + elements
  {
    var e := Emitted(elements, 0, 2 * |elements|);
    forall j | 0 <= j < 2 * |elements|
      ensures e[j] == (elements + elements)[j]
    {
      TwoCyclesAt(elements, j);
    }
  }

  class Ring<T> {
    var elements: seq<T>
    var size: int
    var idx: int
    /** Number of `Next` calls since construction. */
    ghost var calls: nat

    ghost predicate Valid()
      reads this
    {
      size == |elements| && 0 < size && 0 <= idx < size && idx == calls % size
    }

    /** The struct literal of `NewRing`: no check of its own. */
    constructor (elements: seq<T>)
      requires |elements| > 0
      ensures Valid()
      ensures this.elements == elements && size == |elements| && idx == 0 && calls == 0
    {
      this.elements := elements;
      size := |elements|;
      idx := 0;
      calls := 0;
    }

    /** Returns the element under the cursor and moves the cursor on, wrapping
        after the last element. The k-th call (0-based) returns `elements[k mod size]`. */
    method Next() returns (n: T)
      requires Valid()
      modifies this`idx, this`calls
      ensures Valid()
      ensures n == elements[old(idx)]
      ensures idx == (old(idx) + 1) % size
      ensures calls == old(calls) + 1
      ensures n == elements[old(calls) % size]
    {
      n := elements[idx];
      if idx == size - 1 {
        idx := 0;
      } else {
        idx := idx + 1;
      }
      calls := calls + 1;
      ModAddLeft(calls - 1, 1, size);
      assert idx == Step(old(idx), size);
    }
  }

  /** `NewRing`: an error and no ring for an empty slice, otherwise a fresh
      ring over `elements` with the cursor at 0. */
  method NewRing<T>(elements: seq<T>) returns (r: Ring?<T>, err: Option<Error>)
    ensures |elements| == 0 ==> r == null && err == Some(EmptyArray)
    ensures |elements| > 0 ==> err == None && r != null && fresh(r) && r.Valid()
    ensures |elements| > 0 ==> r.elements == elements && r.size == |elements| && r.idx == 0 && r.calls == 0
  {
    if |elements| == 0 {
      return null, Some(EmptyArray);
    }
    r := new Ring(elements);
    err := None;
  }

  /** A fresh ring called 2·size times returns the elements twice, in order,
      and its cursor is back at 0 (ring_test.go). */
  method NextTwoCycles<T>(elements: seq<T>) returns (got: seq<T>, cursor: int)
    requires |elements| > 0
    ensures got == Emitted(elements, 0, 2 * |elements|)
    ensures got == elements + elements
    ensures cursor == 0
  {
    var n := |elements|;
    var ring := new Ring(elements);
    got := [];
    var i := 0;
    while i < 2 * n
      invariant 0 <= i <= 2 * n
      invariant ring.Valid() && ring.elements == elements && ring.size == n && ring.calls == i
      invariant |got| == i
      invariant forall j :: 0 <= j < i ==> got[j] == elements[j % n]
    {
      var x := ring.Next();
      got := got + [x];
      i := i + 1;
    }
    forall j | 0 <= j < 2 * n
      ensures got[j] == Emitted(elements, 0, 2 * n)[j]
    {
      EmittedAt(elements, 0, 2 * n, j);
    }
    TwoCyclesFromStart(elements);
    ModUnique(2 * n, n, 2, 0);
    cursor := ring.idx;
  }

  /** The cursor of a valid ring is the cursor reached by `calls` steps from 0,
      so `size` more calls bring it back. */
  lemma CursorIsAdvance<T>(r: Ring<T>)
    requires r.Valid()
    ensures r.idx == Advance(0, r.size, r.calls)
    ensures Advance(r.idx, r.size, r.size) == r.idx
  {
    AdvanceIsMod(0, r.size, r.calls);
    FullCyclesRestoreCursor(r.idx, r.size, 1);
  }
}
