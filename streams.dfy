/** The sequential view of a channel that this model takes.

    A worker of pipes.go loops over a `select` that races a receive from its
    input against `ctx.Done()`. Seen from that worker, a run is fixed by
    - `sent`: the values the producer sends before it closes the channel, and
    - `doneAt`: `Some(k)` when the worker's k-th receive `select` (0-based) is
      the one that picks `ctx.Done()`. Go picks at random among ready cases,
      so once the context has fired a worker may still receive for a while;
      each worker therefore gets its own `doneAt`. `Some(|sent|)` means Done
      won against the close; a `doneAt` beyond `|sent|` is never reached.

    Merging workers (FanIn, ParMap) interleave their sends in an order the
    scheduler picks; `Interleaving` is the relation every such order satisfies. */
module Streams {
  import opened Errors

  datatype Channel<T> = Channel(sent: seq<T>, doneAt: Option<nat>)

  /** The outcome of one receive `select`. */
  datatype Event<T> = Done | Closed | Recv(value: T)

  /** The outcome of the i-th receive `select` of a worker reading `c`. */
  function Select<T>(c: Channel<T>, i: nat): (e: Event<T>)
    requires i <= |c.sent|
    ensures e.Done? <==> c.doneAt == Some(i)
    ensures e.Closed? <==> i == |c.sent| && c.doneAt != Some(i)
    ensures e.Recv? ==> i < |c.sent| && e.value == c.sent[i]
  {
    if c.doneAt == Some(i) then Done
    else if i == |c.sent| then Closed
    else Recv(c.sent[i])
  }

  /** `s` cut at `stop` when `stop` falls inside it. */
  function Prefix<T>(s: seq<T>, stop: Option<nat>): (r: seq<T>)
    ensures r <= s
    ensures stop.None? ==> r == s
    ensures stop.Some? && stop.value <= |s| ==> |r| == stop.value
    ensures stop.Some? && stop.value > |s| ==> r == s
  {
    match stop
    case None => s
    case Some(k) => if k <= |s| then s[..k] else s
  }

  /** The worker stops on `ctx.Done()` rather than on the close: one of the
      selects it reaches picks Done. */
  predicate Cancelled<T>(c: Channel<T>): (b: bool)
    ensures b <==> exists i: nat :: i <= |c.sent| && Select(c, i).Done?
  {
    if c.doneAt.Some? && c.doneAt.value <= |c.sent| then
      assert Select(c, c.doneAt.value).Done?; true
    else
      false
  }

  /** The values the worker receives: everything sent, or the prefix before Done won. */
  function Received<T>(c: Channel<T>): (r: seq<T>)
    ensures r <= c.sent
    ensures Cancelled(c) ==> |r| == c.doneAt.value
    ensures !Cancelled(c) ==> r == c.sent
  {
    Prefix(c.sent, c.doneAt)
  }

  /** A worker that selects until Done or the close receives exactly `Received(c)`:
      every select before that point delivers the next value, and the select at
      that point is Done when cancelled and Closed otherwise. */
  lemma SelectsUntilStop<T>(c: Channel<T>, i: nat)
    requires i <= |Received(c)|
    ensures i < |Received(c)| ==> Select(c, i) == Recv(Received(c)[i])
    ensures i == |Received(c)| ==> Select(c, i) == if Cancelled(c) then Done else Closed
  {
  }

  /** The total number of values in `parts`. */
  function TotalLength<T>(parts: seq<seq<T>>): nat
  {
    if parts == [] then 0 else |parts[0]| + TotalLength(parts[1..])
  }

  /** `parts` one after the other. */
  function Concat<T>(parts: seq<seq<T>>): (r: seq<T>)
    ensures |r| == TotalLength(parts)
  {
    if parts == [] then [] else parts[0] + Concat(parts[1..])
  }

  /** The multiset union of `parts`. */
  ghost function Union<T>(parts: seq<seq<T>>): multiset<T>
  {
    if parts == [] then multiset{} else multiset(parts[0]) + Union(parts[1..])
  }

  /** `out` is a merge of `parts` that keeps the order within each part:
      its first value is the head of one part, and the rest merges what is left. */
  ghost predicate Interleaving<T>(out: seq<T>, parts: seq<seq<T>>)
    decreases |out|
  {
    if out == [] then
      forall j :: 0 <= j < |parts| ==> parts[j] == []
    else
      exists j :: 0 <= j < |parts| && parts[j] != [] && parts[j][0] == out[0]
        && Interleaving(out[1..], parts[j := parts[j][1..]])
  }

  /** An extra empty part does not change which merges are possible. */
  lemma {:induction false} InterleavingWithEmptyPart<T>(out: seq<T>, parts: seq<seq<T>>)
    requires Interleaving(out, parts)
    ensures Interleaving(out, [[]] + parts)
    decreases |out|
  {
    if out != [] {
      var j :| 0 <= j < |parts| && parts[j] != [] && parts[j][0] == out[0]
        && Interleaving(out[1..], parts[j := parts[j][1..]]);
      InterleavingWithEmptyPart(out[1..], parts[j := parts[j][1..]]);
      var ext := [[]] + parts;
      assert ext[j + 1 := ext[j + 1][1..]] == [[]] + parts[j := parts[j][1..]];
      assert ext[j + 1] != [] && ext[j + 1][0] == out[0];
    }
  }

  /** Draining the parts one after another is one of the possible merges. */
  lemma {:induction false} ConcatIsInterleaving<T>(parts: seq<seq<T>>)
    ensures Interleaving(Concat(parts), parts)
    decreases TotalLength(parts), |parts|
  {
    if parts == [] {
    } else if parts[0] == [] {
      ConcatIsInterleaving(parts[1..]);
      InterleavingWithEmptyPart(Concat(parts[1..]), parts[1..]);
      assert [[]] + parts[1..] == parts;
      assert Concat(parts) == Concat(parts[1..]);
    } else {
      var rest := parts[0 := parts[0][1..]];
      assert rest[1..] == parts[1..];
      ConcatIsInterleaving(rest);
      var out := Concat(parts);
      assert out[1..] == Concat(rest);
      assert parts[0][0] == out[0];
    }
  }

  /** Replacing one part changes the union by exactly that part. */
  lemma {:induction false} UnionUpdate<T>(parts: seq<seq<T>>, j: nat, s: seq<T>)
    requires j < |parts|
    ensures Union(parts[j := s]) + multiset(parts[j]) == Union(parts) + multiset(s)
    decreases j
  {
    if j == 0 {
      assert parts[0 := s][1..] == parts[1..];
    } else {
      UnionUpdate(parts[1..], j - 1, s);
      var upd := parts[j := s];
      assert upd[0] == parts[0] && upd[1..] == parts[1..][j - 1 := s];
      assert parts[1..][j - 1] == parts[j];
      var a, b := Union(parts[1..][j - 1 := s]), Union(parts[1..]);
      assert Union(upd) == multiset(parts[0]) + a;
      assert Union(parts) == multiset(parts[0]) + b;
      AddOnLeft(multiset(parts[0]), a, multiset(parts[j]), b, multiset(s));
    }
  }

  /** A union of empty parts is empty. */
  lemma {:induction false} UnionOfEmpty<T>(parts: seq<seq<T>>)
    requires forall j :: 0 <= j < |parts| ==> parts[j] == []
    ensures Union(parts) == multiset{}
  {
    if parts != [] {
      UnionOfEmpty(parts[1..]);
    }
  }

  /** The union has as many values as the parts together. */
  lemma {:induction false} UnionSize<T>(parts: seq<seq<T>>)
    ensures |Union(parts)| == TotalLength(parts)
  {
    if parts != [] {
      UnionSize(parts[1..]);
    }
  }

  /** Every merge delivers exactly the multiset union of the parts: nothing is
      lost or duplicated. */
  lemma {:induction false} InterleavingKeepsValues<T>(out: seq<T>, parts: seq<seq<T>>)
    requires Interleaving(out, parts)
    ensures multiset(out) == Union(parts)
    decreases |out|
  {
    if out == [] {
      UnionOfEmpty(parts);
    } else {
      var j :| 0 <= j < |parts| && parts[j] != [] && parts[j][0] == out[0]
        && Interleaving(out[1..], parts[j := parts[j][1..]]);
      var tail := parts[j][1..];
      InterleavingKeepsValues(out[1..], parts[j := tail]);
      UnionUpdate(parts, j, tail);
      MultisetOfCons(parts[j]);
      MultisetOfCons(out);
      CancelRight(Union(parts[j := tail]), multiset(parts[j]), Union(parts), multiset(tail), multiset{out[0]});
    }
  }

  lemma AddOnLeft<T>(m: multiset<T>, a: multiset<T>, p: multiset<T>, b: multiset<T>, s: multiset<T>)
    requires a + p == b + s
    ensures m + a + p == m + b + s
  {
    forall x ensures (m + a + p)[x] == (m + b + s)[x] {
      assert (a + p)[x] == (b + s)[x];
    }
  }

  lemma CancelRight<T>(u: multiset<T>, p: multiset<T>, v: multiset<T>, t: multiset<T>, e: multiset<T>)
    requires u + p == v + t
    requires p == e + t
    ensures e + u == v
  {
    forall x ensures (e + u)[x] == v[x] {
      assert (u + p)[x] == (v + t)[x];
    }
  }

  lemma MultisetOfCons<T>(s: seq<T>)
    requires s != []
    ensures multiset(s) == multiset{s[0]} + multiset(s[1..])
  {
    assert s == [s[0]] + s[1..];
  }

  /** Every merge carries as many values as the parts together. */
  lemma InterleavingKeepsCount<T>(out: seq<T>, parts: seq<seq<T>>)
    requires Interleaving(out, parts)
    ensures |out| == TotalLength(parts)
  {
    InterleavingKeepsValues(out, parts);
    UnionSize(parts);
    assert |multiset(out)| == |out|;
  }

  /** Concatenation distributes over appending lists of parts. */
  lemma {:induction false} ConcatAppend<T>(a: seq<seq<T>>, b: seq<seq<T>>)
    ensures Concat(a + b) == Concat(a) + Concat(b)
  {
    if a == [] {
      assert a + b == b;
    } else {
      ConcatAppend(a[1..], b);
      assert (a + b)[1..] == a[1..] + b;
      assert (a + b)[0] == a[0];
    }
  }

  /** `s` is `t` with some values left out, the rest kept in order. */
  ghost predicate Subsequence<T>(s: seq<T>, t: seq<T>)
    decreases |t|
  {
    if t == [] then s == []
    else
      (s != [] && s[|s| - 1] == t[|t| - 1] && Subsequence(s[..|s| - 1], t[..|t| - 1]))
      || Subsequence(s, t[..|t| - 1])
  }

  /** Concatenating one more part appends it. */
  lemma ConcatSnoc<T>(parts: seq<seq<T>>, j: nat)
    requires j < |parts|
    ensures Concat(parts[..j + 1]) == Concat(parts[..j]) + parts[j]
  {
    ConcatAppend(parts[..j], [parts[j]]);
    assert parts[..j + 1] == parts[..j] + [parts[j]];
    assert Concat([parts[j]]) == parts[j] + Concat([]);
  }
}
