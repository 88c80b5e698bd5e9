/** The combinators of pipes.go, each seen from its worker as a transformer of
    the finite sequences its channels carry (see module Streams).

    `cause` is what `ctx.Err()` returns once the context has fired. Caller
    functions (`predicate`, `fn`, `process`, `sink`) are total Dafny functions;
    a Go error result is an `Option<Error>`. */
module Pipes {
  import opened Errors
  import opened Results
  import opened Streams
  import Rings

  // ---------------------------------------------------------------- Collect, Pour

  /** `Collect`: appends every received value to `initial`, in arrival order;
      the error is the context's when Done won, nil when the input closed. */
  method Collect<T>(input: Channel<T>, cause: Error, initial: seq<T>) returns (result: seq<T>, err: Option<Error>)
    ensures result == initial + Received(input)
    ensures err == if Cancelled(input) then Some(cause) else None
  {
    result := initial;
    var i := 0;
    while true
      invariant i <= |Received(input)|
      invariant result == initial + Received(input)[..i]
      decreases |input.sent| - i
    {
      SelectsUntilStop(input, i);
      match Select(input, i)
      case Done =>
        return result, Some(cause);
      case Closed =>
        return result, None;
      case Recv(v) =>
        assert Received(input)[..i + 1] == Received(input)[..i] + [v];
        result := result + [v];
        i := i + 1;
    }
  }

  /** `Pour`: Collect, then hand the collected values to `sink`. `sunk` is the
      argument `sink` was called with, None when it was not called: a Collect
      error is returned as it is and `sink` is skipped. */
  method Pour<T>(input: Channel<T>, cause: Error, sink: seq<T> -> Option<Error>, initial: seq<T>)
    returns (err: Option<Error>, sunk: Option<seq<T>>)
    ensures Cancelled(input) ==> err == Some(cause) && sunk == None
    ensures !Cancelled(input) ==> sunk == Some(initial + input.sent) && err == sink(initial + input.sent)
  {
    var collected, e := Collect(input, cause, initial);
    if e.Some? {
      return e, None;
    }
    sunk := Some(collected);
    err := sink(collected);
  }

  // ---------------------------------------------------------------- Filter

  /** The values of `xs` that satisfy `p`, in order. */
  function Filtered<T>(xs: seq<T>, p: T -> bool): (r: seq<T>)
    ensures forall x :: x in r ==> p(x)
    ensures |r| <= |xs|
    decreases |xs|
  {
    if xs == [] then []
    else Filtered(xs[..|xs| - 1], p) + (if p(xs[|xs| - 1]) then [xs[|xs| - 1]] else [])
  }

  /** Filtering keeps each satisfying value exactly as often as it occurs and
      drops every other value. */
  lemma {:induction false} FilteredCounts<T>(xs: seq<T>, p: T -> bool, x: T)
    ensures multiset(Filtered(xs, p))[x] == if p(x) then multiset(xs)[x] else 0
    decreases |xs|
  {
    if xs != [] {
      var init, last := xs[..|xs| - 1], xs[|xs| - 1];
      FilteredCounts(init, p, x);
      assert xs == init + [last];
    }
  }

  /** Filtering keeps the relative order of what it keeps. */
  lemma {:induction false} FilteredIsSubsequence<T>(xs: seq<T>, p: T -> bool)
    ensures Subsequence(Filtered(xs, p), xs)
    decreases |xs|
  {
    if xs != [] {
      var init, last := xs[..|xs| - 1], xs[|xs| - 1];
      FilteredIsSubsequence(init, p);
      var r := Filtered(xs, p);
      assert xs[..|xs| - 1] == init;
      if p(last) {
        assert r[..|r| - 1] == Filtered(init, p) && r[|r| - 1] == last;
      } else {
        assert r == Filtered(init, p);
      }
    }
  }

  /** The integers lo, lo+1, ..., hi-1. */
  function Range(lo: int, hi: int): (r: seq<int>)
    requires lo <= hi
    ensures |r| == hi - lo
  {
    seq(hi - lo, i => lo + i)
  }

  /** A range ends with its last integer. */
  lemma RangeSnoc(lo: int, hi: int)
    requires lo < hi
    ensures Range(lo, hi)[..hi - 1 - lo] == Range(lo, hi - 1)
    ensures Range(lo, hi)[hi - 1 - lo] == hi - 1
    ensures Range(lo, hi) == Range(lo, hi - 1) + [hi - 1]
  {
  }

  /** Filtering a range with a threshold keeps the range from the threshold on;
      pipes_test.go filters 0..99 with `x >= 50` and expects 50 values. */
  lemma {:induction false} FilteredRangeThreshold(lo: int, hi: int, m: int, p: int -> bool)
    requires lo <= m <= hi
    requires forall x :: p(x) == (x >= m)
    ensures Filtered(Range(lo, hi), p) == Range(m, hi)
    decreases hi - lo
  {
    if hi == m {
      FilteredAllRejected(Range(lo, hi), p);
    } else {
      var r := Range(lo, hi);
      FilteredRangeThreshold(lo, hi - 1, m, p);
      RangeSnoc(lo, hi);
      RangeSnoc(m, hi);
      assert p(hi - 1);
    }
  }

  /** A sequence none of whose values satisfies `p` filters to nothing. */
  lemma {:induction false} FilteredAllRejected<T>(xs: seq<T>, p: T -> bool)
    requires forall i :: 0 <= i < |xs| ==> !p(xs[i])
    ensures Filtered(xs, p) == []
    decreases |xs|
  {
    if xs != [] {
      FilteredAllRejected(xs[..|xs| - 1], p);
    }
  }

  /** `Filter`: forwards, in order, exactly the received values that satisfy
      `predicate`; stops without draining when Done wins. */
  method Filter<T>(input: Channel<T>, keep: T -> bool) returns (out: seq<T>)
    ensures out == Filtered(Received(input), keep)
  {
    out := [];
    var i := 0;
    while true
      invariant i <= |Received(input)|
      invariant out == Filtered(Received(input)[..i], keep)
      decreases |input.sent| - i
    {
      SelectsUntilStop(input, i);
      match Select(input, i)
      case Done =>
        assert Received(input)[..i] == Received(input);
        return;
      case Closed =>
        assert Received(input)[..i] == Received(input);
        return;
      case Recv(v) =>
        assert Received(input)[..i + 1][..i] == Received(input)[..i];
        if keep(v) {
          out := out + [v];
        }
        i := i + 1;
    }
  }

  // ---------------------------------------------------------------- FilterError

  /** The values of the results without an error, in order. */
  function Successes<T>(rs: seq<Result<T>>): (vs: seq<T>)
    ensures |vs| <= |rs|
    ensures forall v :: v in vs ==> exists i :: 0 <= i < |rs| && rs[i].Err.None? && rs[i].Val == v
    decreases |rs|
  {
    if rs == [] then []
    else
      var last := rs[|rs| - 1];
      Successes(rs[..|rs| - 1]) + (if last.Err.None? then [last.Val] else [])
  }

  /** The errors of the failed results, in order. */
  function Failures<T>(rs: seq<Result<T>>): (es: seq<Error>)
    ensures |es| <= |rs|
    ensures forall e :: e in es ==> exists i :: 0 <= i < |rs| && rs[i].Err == Some(e)
    decreases |rs|
  {
    if rs == [] then []
    else
      var last := rs[|rs| - 1];
      Failures(rs[..|rs| - 1]) + (match last.Err case Some(e) => [e] case None => [])
  }

  /** Every result is either forwarded or reported, never both and never neither. */
  lemma {:induction false} SuccessesAndFailuresPartition<T>(rs: seq<Result<T>>)
    ensures |Successes(rs)| + |Failures(rs)| == |rs|
    ensures |Failures(rs)| == |Filtered(rs, (r: Result<T>) => r.Err.Some?)|
    decreases |rs|
  {
    if rs != [] {
      SuccessesAndFailuresPartition(rs[..|rs| - 1]);
    }
  }

  /** The successes of a concatenation are those of the parts. */
  lemma {:induction false} SuccessesAppend<T>(a: seq<Result<T>>, b: seq<Result<T>>)
    ensures Successes(a + b) == Successes(a) + Successes(b)
    decreases |b|
  {
    if b == [] {
      assert a + b == a;
    } else {
      var b' := b[..|b| - 1];
      SuccessesAppend(a, b');
      assert (a + b)[..|a + b| - 1] == a + b';
      assert (a + b)[|a + b| - 1] == b[|b| - 1];
    }
  }

  /** The failures of a concatenation are those of the parts. */
  lemma {:induction false} FailuresAppend<T>(a: seq<Result<T>>, b: seq<Result<T>>)
    ensures Failures(a + b) == Failures(a) + Failures(b)
    decreases |b|
  {
    if b == [] {
      assert a + b == a;
    } else {
      var b' := b[..|b| - 1];
      FailuresAppend(a, b');
      assert (a + b)[..|a + b| - 1] == a + b';
      assert (a + b)[|a + b| - 1] == b[|b| - 1];
    }
  }

  /** pipes_test.go: one failure, ten successes, one failure give ten
      forwarded values and two `onError` calls. */
  lemma FilterErrorScenario(e1: Error, e2: Error, zero: int)
    ensures var rs := [Result(zero, Some(e1))] + seq(10, _ => Result(1, None)) + [Result(zero, Some(e2))];
      Successes(rs) == seq(10, _ => 1) && Failures(rs) == [e1, e2]
  {
    var oks := seq(10, _ => Result(1, None));
    AllSucceeded(oks);
    SuccessesAppend([Result(zero, Some(e1))], oks);
    SuccessesAppend([Result(zero, Some(e1))] + oks, [Result(zero, Some(e2))]);
    FailuresAppend([Result(zero, Some(e1))], oks);
    FailuresAppend([Result(zero, Some(e1))] + oks, [Result(zero, Some(e2))]);
    assert Successes([Result(zero, Some(e2))]) == [];
    assert Failures([Result(zero, Some(e1))]) == [e1];
  }

  /** Results that all succeeded are forwarded value for value, with no error. */
  lemma {:induction false} AllSucceeded<T>(rs: seq<Result<T>>)
    requires forall i :: 0 <= i < |rs| ==> rs[i].Err.None?
    ensures Successes(rs) == seq(|rs|, i requires 0 <= i < |rs| => rs[i].Val)
    ensures Failures(rs) == []
    decreases |rs|
  {
    if rs != [] {
      AllSucceeded(rs[..|rs| - 1]);
    }
  }

  /** `FilterError`: forwards the value of every received result without an
      error and calls `onError` with the error of every other one, both in
      order. `onErrorCalls` lists the arguments of those calls. */
  method FilterError<T>(input: Channel<Result<T>>) returns (out: seq<T>, onErrorCalls: seq<Error>)
    ensures out == Successes(Received(input))
    ensures onErrorCalls == Failures(Received(input))
  {
    out, onErrorCalls := [], [];
    var i := 0;
    while true
      invariant i <= |Received(input)|
      invariant out == Successes(Received(input)[..i])
      invariant onErrorCalls == Failures(Received(input)[..i])
      decreases |input.sent| - i
    {
      SelectsUntilStop(input, i);
      match Select(input, i)
      case Done =>
        assert Received(input)[..i] == Received(input);
        return;
      case Closed =>
        assert Received(input)[..i] == Received(input);
        return;
      case Recv(res) =>
        assert Received(input)[..i + 1][..i] == Received(input)[..i];
        if res.Err.Some? {
          onErrorCalls := onErrorCalls + [res.Err.value];
        } else {
          out := out + [res.Val];
        }
        i := i + 1;
    }
  }

  // ---------------------------------------------------------------- Map

  /** The result `Map` sends for one value: `fn`'s value and error together. */
  function Apply<T, O>(fn: T -> (O, Option<Error>), v: T): (r: Result<O>)
    ensures r == NewResult(fn(v).0).WithError(fn(v).1)
    ensures r.Err.None? ==> r == NewResult(fn(v).0)
  {
    Result(fn(v).0, fn(v).1)
  }

  /** The results `Map` sends for `xs`, leaving out those whose send lost its
      `select` against Done (their indices are in `lost`). */
  function Mapped<T, O>(xs: seq<T>, fn: T -> (O, Option<Error>), lost: set<nat>): (r: seq<Result<O>>)
    ensures |r| <= |xs|
    decreases |xs|
  {
    if xs == [] then []
    else
      Mapped(xs[..|xs| - 1], fn, lost)
        + (if |xs| - 1 in lost then [] else [Apply(fn, xs[|xs| - 1])])
  }

  /** Without lost sends there is one result per value, in input order. */
  lemma {:induction false} MappedOnePerValue<T, O>(xs: seq<T>, fn: T -> (O, Option<Error>))
    ensures |Mapped(xs, fn, {})| == |xs|
    ensures forall i :: 0 <= i < |xs| ==> Mapped(xs, fn, {})[i] == Apply(fn, xs[i])
    decreases |xs|
  {
    if xs != [] {
      MappedOnePerValue(xs[..|xs| - 1], fn);
    }
  }

  /** A lost send only drops results: what is sent is a subsequence of the
      results without losses. */
  lemma {:induction false} MappedLossOnlyDrops<T, O>(xs: seq<T>, fn: T -> (O, Option<Error>), lost: set<nat>)
    ensures Subsequence(Mapped(xs, fn, lost), Mapped(xs, fn, {}))
    decreases |xs|
  {
    if xs != [] {
      var init := xs[..|xs| - 1];
      MappedLossOnlyDrops(init, fn, lost);
      var r, all := Mapped(xs, fn, lost), Mapped(xs, fn, {});
      assert all[..|all| - 1] == Mapped(init, fn, {});
      if |xs| - 1 !in lost {
        assert r[..|r| - 1] == Mapped(init, fn, lost) && r[|r| - 1] == all[|all| - 1];
      } else {
        assert r == Mapped(init, fn, lost);
      }
    }
  }

  /** `Map` (the path where `fn` does not panic): one `Result` per received
      value with `fn`'s value and error, in order, except those whose send lost
      against Done; when Done wins a receive, one last result carrying `cause`
      and the zero value of O. */
  method Map<T, O>(input: Channel<T>, fn: T -> (O, Option<Error>), lostSends: set<nat>, cause: Error, zero: O)
    returns (out: seq<Result<O>>)
    ensures out == Mapped(Received(input), fn, lostSends)
      + (if Cancelled(input) then [NewErrResult(Some(cause), zero)] else [])
  {
    out := [];
    var i := 0;
    while true
      invariant i <= |Received(input)|
      invariant out == Mapped(Received(input)[..i], fn, lostSends)
      decreases |input.sent| - i
    {
      SelectsUntilStop(input, i);
      match Select(input, i)
      case Done =>
        assert Received(input)[..i] == Received(input);
        out := out + [NewErrResult(Some(cause), zero)];
        return;
      case Closed =>
        assert Received(input)[..i] == Received(input);
        return;
      case Recv(v) =>
        assert Received(input)[..i + 1][..i] == Received(input)[..i];
        var (mapped, err) := fn(v);
        if i !in lostSends {
          out := out + [Result(mapped, err)];
        }
        i := i + 1;
    }
  }

  /** Uncancelled and without lost sends, `Map` sends one result per value
      sent, each `fn`'s value and error, in order (pipes_test.go). */
  lemma MapUncancelled<T, O>(input: Channel<T>, fn: T -> (O, Option<Error>), cause: Error, zero: O)
    requires !Cancelled(input)
    ensures var out := Mapped(Received(input), fn, {});
      |out| == |input.sent| && forall i :: 0 <= i < |out| ==> out[i] == Result(fn(input.sent[i]).0, fn(input.sent[i]).1)
  {
    MappedOnePerValue(input.sent, fn);
  }

  // ---------------------------------------------------------------- FanOut

  /** The receive loop of `FanOut`'s first worker: everything received, until
      the close or Done. */
  method Drain<T>(input: Channel<T>) returns (arr: seq<T>)
    ensures arr == Received(input)
  {
    arr := [];
    var i := 0;
    while true
      invariant i <= |Received(input)|
      invariant arr == Received(input)[..i]
      decreases |input.sent| - i
    {
      SelectsUntilStop(input, i);
      match Select(input, i)
      case Done =>
        return;
      case Closed =>
        return;
      case Recv(v) =>
        assert Received(input)[..i + 1] == Received(input)[..i] + [v];
        arr := arr + [v];
        i := i + 1;
    }
  }

  /** A replay worker of `FanOut`: sends `arr` in order until its send
      `select` number `stop` picks Done. */
  method Replay<T>(arr: seq<T>, stop: Option<nat>) returns (sent: seq<T>)
    ensures sent == Prefix(arr, stop)
  {
    sent := [];
    var i := 0;
    while i < |arr|
      invariant i <= |arr|
      invariant sent == arr[..i]
      invariant stop.Some? ==> i <= stop.value
    {
      if stop == Some(i) {
        return;
      }
      sent := sent + [arr[i]];
      i := i + 1;
    }
    assert arr[..i] == arr;
  }

  /** `FanOut`: drains the input into `arr`, then replays `arr` to both
      outputs, each replay stopping where its own `select` picks Done. */
  method FanOut<T>(input: Channel<T>, stop1: Option<nat>, stop2: Option<nat>) returns (o1: seq<T>, o2: seq<T>)
    ensures o1 == Prefix(Received(input), stop1)
    ensures o2 == Prefix(Received(input), stop2)
  {
    var arr := Drain(input);
    o1 := Replay(arr, stop1);
    o2 := Replay(arr, stop2);
  }

  /** Both outputs are prefixes of the same drained sequence, so one is a
      prefix of the other; uncancelled, both are the whole input (pipes_test.go
      compares them with `reflect.DeepEqual`). */
  lemma FanOutOutputsAgree<T>(input: Channel<T>, stop1: Option<nat>, stop2: Option<nat>)
    ensures var o1, o2 := Prefix(Received(input), stop1), Prefix(Received(input), stop2);
      (o1 <= o2 || o2 <= o1)
      && (!Cancelled(input) && stop1.None? && stop2.None? ==> o1 == o2 == input.sent)
  {
    var arr := Received(input);
    var o1, o2 := Prefix(arr, stop1), Prefix(arr, stop2);
    if |o1| <= |o2| {
      assert o1 == arr[..|o1|] && o2 == arr[..|o2|];
      assert o1 == o2[..|o1|];
    } else {
      assert o2 == arr[..|o2|] && o1 == arr[..|o1|];
      assert o2 == o1[..|o2|];
    }
  }

  // ---------------------------------------------------------------- RoundRobinFanOut

  /** The panic of `make` for a negative length. */
  const MakeSliceLen := Error("runtime error: makeslice: len out of range")

  /** The values of `xs` at the positions congruent to j modulo k, in order:
      what output j of a round-robin split over k outputs receives. */
  function Column<T>(xs: seq<T>, k: nat, j: nat): (r: seq<T>)
    requires k > 0
    ensures |r| <= |xs|
    decreases |xs|
  {
    if xs == [] then []
    else
      Column(xs[..|xs| - 1], k, j)
        + (if (|xs| - 1) % k == j then [xs[|xs| - 1]] else [])
  }

  /** All k outputs of a round-robin split. */
  function Columns<T>(xs: seq<T>, k: nat): (r: seq<seq<T>>)
    requires k > 0
    ensures |r| == k
    ensures forall j :: 0 <= j < k ==> r[j] == Column(xs, k, j)
  {
    seq(k, j requires 0 <= j < k => Column(xs, k, j))
  }

  /** One more value goes to output `n mod k`, where n values came before it. */
  lemma ColumnsSnoc<T>(xs: seq<T>, x: T, k: nat)
    requires k > 0
    ensures Columns(xs + [x], k) == Columns(xs, k)[|xs| % k := Columns(xs, k)[|xs| % k] + [x]]
  {
    var before, after := Columns(xs, k), Columns(xs + [x], k);
    var upd := before[|xs| % k := before[|xs| % k] + [x]];
    assert (xs + [x])[..|xs|] == xs;
    forall j | 0 <= j < k
      ensures after[j] == upd[j]
    {
      assert after[j] == Column(xs + [x], k, j);
    }
  }

  /** Output j holds `n / k` values, plus one when j is below `n mod k`; so the
      outputs' lengths differ by at most one. */
  lemma {:induction false} ColumnLength<T>(xs: seq<T>, k: nat, j: nat)
    requires 0 <= j < k
    ensures |Column(xs, k, j)| == |xs| / k + (if j < |xs| % k then 1 else 0)
    decreases |xs|
  {
    if xs == [] {
      Rings.ModUnique(0, k, 0, 0);
    } else {
      var n := |xs| - 1;
      ColumnLength(xs[..n], k, j);
      Rings.DivModSucc(n, k);
    }
  }

  /** The outputs of a round-robin split differ in length by at most one. */
  lemma ColumnsBalanced<T>(xs: seq<T>, k: nat, i: nat, j: nat)
    requires i < k && j < k
    ensures |Column(xs, k, i)| <= |Column(xs, k, j)| + 1
  {
    ColumnLength(xs, k, i);
    ColumnLength(xs, k, j);
  }

  /** Column of a prefix is a prefix of the column. */
  lemma {:induction false} ColumnOfPrefix<T>(xs: seq<T>, m: nat, k: nat, j: nat)
    requires k > 0 && m <= |xs|
    ensures Column(xs[..m], k, j) <= Column(xs, k, j)
    decreases |xs| - m
  {
    if m < |xs| {
      ColumnOfPrefix(xs[..|xs| - 1], m, k, j);
      assert xs[..|xs| - 1][..m] == xs[..m];
    } else {
      assert xs[..m] == xs;
    }
  }

  /** The i-th value (0-based) lands in output `i mod k`, at position `i / k`. */
  lemma ValueLandsInOutput<T>(xs: seq<T>, k: nat, i: nat)
    requires k > 0 && i < |xs|
    ensures i / k < |Column(xs, k, i % k)|
    ensures Column(xs, k, i % k)[i / k] == xs[i]
  {
    Rings.ModUnique(i, k, i / k, i % k);
    ColumnLength(xs[..i], k, i % k);
    ColumnOfPrefix(xs, i + 1, k, i % k);
    assert xs[..i + 1][..i] == xs[..i];
  }

  /** The outputs together hold exactly the values of the input. */
  lemma {:induction false} ColumnsKeepValues<T>(xs: seq<T>, k: nat)
    requires k > 0
    ensures Union(Columns(xs, k)) == multiset(xs)
    ensures TotalLength(Columns(xs, k)) == |xs|
    decreases |xs|
  {
    if xs == [] {
      UnionOfEmpty(Columns(xs, k));
    } else {
      var init, last := xs[..|xs| - 1], xs[|xs| - 1];
      ColumnsKeepValues(init, k);
      assert xs == init + [last];
      ColumnsSnoc(init, last, k);
      var cs, t := Columns(init, k), |init| % k;
      UnionUpdate(cs, t, cs[t] + [last]);
      assert multiset(cs[t] + [last]) == multiset(cs[t]) + multiset{last};
      CancelRight(Union(Columns(xs, k)), multiset(cs[t]), Union(cs) + multiset{last}, multiset(cs[t]), multiset{});
    }
    UnionSize(Columns(xs, k));
  }

  /** pipes_test.go: 100 values over 4 outputs give 25 to each. */
  lemma RoundRobinScenario<T>(xs: seq<T>, j: nat)
    requires |xs| == 100 && j < 4
    ensures |Column(xs, 4, j)| == 25
  {
    ColumnLength(xs, 4, j);
  }

  /** `RoundRobinFanOut`: `count` outputs; a negative count panics in `make`,
      a zero count makes `NewRing` fail and the worker panic (both reported in
      `crash`, with no outputs). Otherwise the worker sends each received value
      to the output a `Ring` over the outputs names next, so the i-th value
      goes to output `i mod count`. */
  method RoundRobinFanOut<T>(input: Channel<T>, count: int) returns (outs: seq<seq<T>>, crash: Option<Error>)
    ensures count < 0 ==> outs == [] && crash == Some(MakeSliceLen)
    ensures count == 0 ==> outs == [] && crash == Some(Rings.EmptyArray)
    ensures count > 0 ==> crash == None && outs == Columns(Received(input), count)
  {
    if count < 0 {
      return [], Some(MakeSliceLen);
    }
    var channels := seq(count, j => j);
    var ring, err := Rings.NewRing(channels);
    if err.Some? {
      return [], err;
    }
    crash := None;
    outs := seq(count, _ => []);
    var i := 0;
    assert outs == Columns(Received(input)[..0], count);
    while true
      invariant i <= |Received(input)|
      invariant ring != null && ring.Valid() && fresh(ring)
      invariant ring.elements == channels && ring.size == count && ring.calls == i
      invariant outs == Columns(Received(input)[..i], count)
      decreases |input.sent| - i
    {
      SelectsUntilStop(input, i);
      match Select(input, i)
      case Done =>
        assert Received(input)[..i] == Received(input);
        return;
      case Closed =>
        assert Received(input)[..i] == Received(input);
        return;
      case Recv(v) =>
        var target := ring.Next();
        ColumnsSnoc(Received(input)[..i], v, count);
        assert Received(input)[..i + 1] == Received(input)[..i] + [v];
        outs := outs[target := outs[target] + [v]];
        i := i + 1;
    }
  }

  // ---------------------------------------------------------------- FanIn

  /** What each worker of a merge receives, channel by channel. */
  function ReceivedAll<T>(chans: seq<Channel<T>>): (r: seq<seq<T>>)
    ensures |r| == |chans|
    ensures forall j :: 0 <= j < |chans| ==> r[j] <= chans[j].sent
    ensures forall j :: 0 <= j < |chans| && !Cancelled(chans[j]) ==> r[j] == chans[j].sent
  {
    seq(|chans|, j requires 0 <= j < |chans| => Received(chans[j]))
  }

  /** `FanIn`: one worker per channel forwards what it receives to the shared
      output, so the output is a merge of the received sequences. The merge
      order is the scheduler's; this method produces one possible order (each
      worker in turn), and every order satisfies the same postcondition. */
  method FanIn<T>(chans: seq<Channel<T>>) returns (out: seq<T>)
    ensures Interleaving(out, ReceivedAll(chans))
  {
    var parts := ReceivedAll(chans);
    out := [];
    for j := 0 to |chans|
      invariant out == Concat(parts[..j])
    {
      var got := Drain(chans[j]);
      ConcatSnoc(parts, j);
      out := out + got;
    }
    assert parts[..|chans|] == parts;
    ConcatIsInterleaving(parts);
  }

  /** Whatever the merge order, `FanIn` delivers the multiset union of what its
      workers receive. */
  lemma FanInDeliversUnion<T>(chans: seq<Channel<T>>, out: seq<T>)
    requires Interleaving(out, ReceivedAll(chans))
    ensures multiset(out) == Union(ReceivedAll(chans))
    ensures |out| == TotalLength(ReceivedAll(chans))
  {
    InterleavingKeepsValues(out, ReceivedAll(chans));
    InterleavingKeepsCount(out, ReceivedAll(chans));
  }

  /** k parts of m values each hold k·m values. */
  lemma {:induction false} TotalLengthUniform<T>(parts: seq<seq<T>>, m: nat)
    requires forall j :: 0 <= j < |parts| ==> |parts[j]| == m
    ensures TotalLength(parts) == |parts| * m
  {
    if parts != [] {
      TotalLengthUniform(parts[1..], m);
    }
  }

  /** pipes_test.go: uncancelled channels of m values each merge into |chans|·m values. */
  lemma FanInCount<T>(chans: seq<Channel<T>>, m: nat, out: seq<T>)
    requires forall j :: 0 <= j < |chans| ==> !Cancelled(chans[j]) && |chans[j].sent| == m
    requires Interleaving(out, ReceivedAll(chans))
    ensures |out| == |chans| * m
  {
    FanInDeliversUnion(chans, out);
    TotalLengthUniform(ReceivedAll(chans), m);
  }

  // ---------------------------------------------------------------- ParMap

  /** The index of the first value `process` fails on, or |xs| if none. */
  function FirstFailure<T, O>(xs: seq<T>, process: T -> (O, Option<Error>)): (k: nat)
    ensures k <= |xs|
    ensures forall j :: 0 <= j < k ==> process(xs[j]).1.None?
    ensures k < |xs| ==> process(xs[k]).1.Some?
  {
    if xs == [] then 0
    else if process(xs[0]).1.Some? then 0
    else 1 + FirstFailure(xs[1..], process)
  }

  /** The values `process` produces for `xs`. */
  function Outputs<T, O>(xs: seq<T>, process: T -> (O, Option<Error>)): (r: seq<O>)
    ensures |r| == |xs|
    ensures forall i :: 0 <= i < |xs| ==> r[i] == process(xs[i]).0
  {
    seq(|xs|, i requires 0 <= i < |xs| => process(xs[i]).0)
  }

  /** What one `ParMap` worker sends to `out`: the values of the items before
      the first failure among those it receives. */
  function WorkerValues<T, O>(c: Channel<T>, process: T -> (O, Option<Error>)): (r: seq<O>)
    ensures |r| <= |Received(c)|
    ensures forall i :: 0 <= i < |r| ==> process(Received(c)[i]).1.None? && r[i] == process(Received(c)[i]).0
  {
    var xs := Received(c);
    Outputs(xs[..FirstFailure(xs, process)], process)
  }

  /** What one `ParMap` worker sends to `errs`: the first failure, else the
      context's error when Done won, else nothing. */
  function WorkerError<T, O>(c: Channel<T>, process: T -> (O, Option<Error>), cause: Error): (r: Option<Error>)
    ensures r.None? <==> !Cancelled(c) && forall i :: 0 <= i < |Received(c)| ==> process(Received(c)[i]).1.None?
    ensures r.Some? && r != Some(cause) ==> exists i :: 0 <= i < |Received(c)| && process(Received(c)[i]).1 == r
  {
    var xs := Received(c);
    var k := FirstFailure(xs, process);
    if k < |xs| then process(xs[k]).1
    else if Cancelled(c) then Some(cause)
    else None
  }

  /** The worker loop of `ParMap` for one channel: stops at the first failure
      (after posting it) or when Done wins (after posting the context's error). */
  method ParMapWorker<T, O>(c: Channel<T>, process: T -> (O, Option<Error>), cause: Error)
    returns (values: seq<O>, err: Option<Error>)
    ensures values == WorkerValues(c, process)
    ensures err == WorkerError(c, process, cause)
  {
    ghost var xs := Received(c);
    ghost var k := FirstFailure(xs, process);
    values := [];
    var i := 0;
    while true
      invariant i <= k && i <= |xs|
      invariant values == Outputs(xs[..i], process)
      decreases |c.sent| - i
    {
      SelectsUntilStop(c, i);
      match Select(c, i)
      case Done =>
        return values, Some(cause);
      case Closed =>
        return values, None;
      case Recv(v) =>
        var (nv, e) := process(v);
        if e.Some? {
          return values, e;
        }
        values := values + [nv];
        i := i + 1;
    }
  }

  /** A worker posts at most one error. */
  function ErrorList(e: Option<Error>): (r: seq<Error>)
    ensures |r| <= 1
  {
    match e
    case Some(x) => [x]
    case None => []
  }

  /** Each worker's values, channel by channel. */
  function AllValues<T, O>(channels: seq<Channel<T>>, process: T -> (O, Option<Error>)): (r: seq<seq<O>>)
    ensures |r| == |channels|
    ensures forall j :: 0 <= j < |channels| ==> |r[j]| <= |Received(channels[j])|
  {
    seq(|channels|, j requires 0 <= j < |channels| => WorkerValues(channels[j], process))
  }

  /** Each worker's errors, channel by channel. */
  function AllErrors<T, O>(channels: seq<Channel<T>>, process: T -> (O, Option<Error>), cause: Error): (r: seq<seq<Error>>)
    ensures |r| == |channels|
    ensures forall j :: 0 <= j < |channels| ==> |r[j]| <= 1
  {
    seq(|channels|, j requires 0 <= j < |channels| => ErrorList(WorkerError(channels[j], process, cause)))
  }

  /** Parts of at most one value hold at most as many values as there are parts. */
  lemma {:induction false} TotalLengthAtMostOneEach<T>(parts: seq<seq<T>>)
    requires forall j :: 0 <= j < |parts| ==> |parts[j]| <= 1
    ensures TotalLength(parts) <= |parts|
  {
    if parts != [] {
      TotalLengthAtMostOneEach(parts[1..]);
    }
  }

  /** `ParMap`: one worker per channel; `out` merges the workers' values and
      `errs` their errors. The order is the scheduler's; this method produces
      one possible order. `errs` never holds more than one error per channel,
      which is why its capacity of `len(channels)` never blocks a worker. */
  method ParMap<T, O>(process: T -> (O, Option<Error>), channels: seq<Channel<T>>, cause: Error)
    returns (out: seq<O>, errs: seq<Error>)
    ensures Interleaving(out, AllValues(channels, process))
    ensures Interleaving(errs, AllErrors(channels, process, cause))
    ensures |errs| <= |channels|
  {
    var vs, es := AllValues(channels, process), AllErrors(channels, process, cause);
    out, errs := [], [];
    for j := 0 to |channels|
      invariant out == Concat(vs[..j])
      invariant errs == Concat(es[..j])
    {
      var values, err := ParMapWorker(channels[j], process, cause);
      ConcatSnoc(vs, j);
      ConcatSnoc(es, j);
      out := out + values;
      errs := errs + ErrorList(err);
    }
    assert vs[..|channels|] == vs && es[..|channels|] == es;
    ConcatIsInterleaving(vs);
    ConcatIsInterleaving(es);
    TotalLengthAtMostOneEach(es);
  }

  /** A channel whose k-th item (1-based) is the first `process` fails on, with
      Done not winning before it, contributes exactly k-1 values and that error. */
  lemma ParMapChannelFailure<T, O>(c: Channel<T>, process: T -> (O, Option<Error>), cause: Error, k: nat)
    requires 1 <= k <= |Received(c)|
    requires process(Received(c)[k - 1]).1.Some?
    requires forall j :: 0 <= j < k - 1 ==> process(Received(c)[j]).1.None?
    ensures |WorkerValues(c, process)| == k - 1
    ensures WorkerValues(c, process) == Outputs(Received(c)[..k - 1], process)
    ensures WorkerError(c, process, cause) == process(Received(c)[k - 1]).1
  {
    var xs := Received(c);
    var f := FirstFailure(xs, process);
    assert f == k - 1;
  }

  /** An uncancelled channel `process` never fails on contributes all its
      values and no error. */
  lemma ParMapChannelSuccess<T, O>(c: Channel<T>, process: T -> (O, Option<Error>), cause: Error)
    requires !Cancelled(c)
    requires forall j :: 0 <= j < |c.sent| ==> process(c.sent[j]).1.None?
    ensures WorkerValues(c, process) == Outputs(c.sent, process)
    ensures WorkerError(c, process, cause) == None
  {
    assert FirstFailure(c.sent, process) == |c.sent|;
    assert c.sent[..|c.sent|] == c.sent;
  }

  /** pipes_test.go: uncancelled channels of m values each, with `process`
      never failing, give |channels|·m values and no error, in any merge order. */
  lemma ParMapCount<T, O>(channels: seq<Channel<T>>, process: T -> (O, Option<Error>), cause: Error, m: nat,
                          out: seq<O>, errs: seq<Error>)
    requires forall j :: 0 <= j < |channels| ==> !Cancelled(channels[j]) && |channels[j].sent| == m
    requires forall j, i :: 0 <= j < |channels| && 0 <= i < m ==> process(channels[j].sent[i]).1.None?
    requires Interleaving(out, AllValues(channels, process))
    requires Interleaving(errs, AllErrors(channels, process, cause))
    ensures |out| == |channels| * m
    ensures errs == []
  {
    var vs, es := AllValues(channels, process), AllErrors(channels, process, cause);
    forall j | 0 <= j < |channels|
      ensures |vs[j]| == m && es[j] == []
    {
      ParMapChannelSuccess(channels[j], process, cause);
    }
    InterleavingKeepsCount(out, vs);
    TotalLengthUniform(vs, m);
    InterleavingKeepsCount(errs, es);
    TotalLengthUniform(es, 0);
  }
}
