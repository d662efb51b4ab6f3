/** `parallelSequence`: aggregates a list of independent tri-states into one.

    The policy: every error is kept, its message joined to the others with
    "; " in list order; failing that, all payloads in order when every element
    has one; failing that, a single `Idle` that forgets which elements were
    pending. The Kotlin standard-library functions the source builds it from
    (`partition`, `mapNotNull`, `all`, `joinToString`) are modelled first. */
module ParallelSequencing {
  import opened Optional
  import opened TriStates

  /** The separator `parallelSequence` puts between error messages. */
  const Separator: string := "; "

  // ---------------------------------------------------------------------------
  // Kotlin collection functions

  /** `partition`: the elements satisfying `p` and the others, each in list order. */
  function Partition<A>(xs: seq<A>, p: A -> bool): (r: (seq<A>, seq<A>))
    ensures forall a <- r.0 :: p(a)
    ensures forall a <- r.1 :: !p(a)
    ensures |r.0| + |r.1| == |xs|
    ensures r.0 == [] <==> forall i | 0 <= i < |xs| :: !p(xs[i])
    ensures r.0 == [] ==> r.1 == xs
    ensures |xs| == 1 ==> r == (if p(xs[0]) then (xs, []) else ([], xs))
    decreases |xs|
  {
    if |xs| == 0 then ([], [])
    else
      var x, tail := xs[0], xs[1..];
      var rest := Partition(tail, p);
      assert forall i | 1 <= i < |xs| :: xs[i] == tail[i - 1];
      assert rest.0 == [] ==> xs == [x] + rest.1;
      if p(x) then ([x] + rest.0, rest.1) else (rest.0, [x] + rest.1)
  }

  /** `mapNotNull`: the present results of `f`, in list order. */
  function MapNotNull<A, B>(xs: seq<A>, f: A -> Option<B>): (r: seq<B>)
    ensures |r| <= |xs|
    ensures (forall i | 0 <= i < |xs| :: f(xs[i]).Some?) ==>
              |r| == |xs| && forall i | 0 <= i < |xs| :: r[i] == f(xs[i]).value
    ensures |xs| == 1 ==> r == (if f(xs[0]).Some? then [f(xs[0]).value] else [])
    decreases |xs|
  {
    if |xs| == 0 then []
    else
      var rest := MapNotNull(xs[1..], f);
      assert forall i | 1 <= i < |xs| :: xs[i] == xs[1..][i - 1];
      match f(xs[0])
      case Some(b) => [b] + rest
      case None => rest
  }

  /** Kotlin `filter` (`keep` true) and `filterNot` (`keep` false): the
      elements on which `p` gives `keep`, in list order. */
  function Filter<A>(xs: seq<A>, p: A -> bool, keep: bool): seq<A>
    decreases |xs|
  {
    if |xs| == 0 then [] else (if p(xs[0]) == keep then [xs[0]] else []) + Filter(xs[1..], p, keep)
  }

  /** `partition` is `filter` paired with `filterNot`. */
  lemma {:induction false} PartitionIsFilters<A>(xs: seq<A>, p: A -> bool)
    ensures Partition(xs, p) == (Filter(xs, p, true), Filter(xs, p, false))
    decreases |xs|
  {
    if |xs| > 0 {
      PartitionIsFilters(xs[1..], p);
      var rest := Partition(xs[1..], p);
      assert [] + rest.0 == rest.0 && [] + rest.1 == rest.1;
    }
  }

  /** `filter` of a concatenation is the concatenation of the filtered parts. */
  lemma {:induction false} FilterAppend<A>(xs: seq<A>, ys: seq<A>, p: A -> bool, keep: bool)
    ensures Filter(xs + ys, p, keep) == Filter(xs, p, keep) + Filter(ys, p, keep)
    decreases |xs|
  {
    if |xs| == 0 {
      assert xs + ys == ys;
    } else {
      assert (xs + ys)[0] == xs[0] && (xs + ys)[1..] == xs[1..] + ys;
      FilterAppend(xs[1..], ys, p, keep);
      var h := if p(xs[0]) == keep then [xs[0]] else [];
      assert h + (Filter(xs[1..], p, keep) + Filter(ys, p, keep)) == (h + Filter(xs[1..], p, keep)) + Filter(ys, p, keep);
    }
  }

  /** `partition` of a concatenation is the concatenation of the parts: each
      side keeps the list order of its elements. With the one-element case in
      `Partition`'s contract this determines `partition` completely. */
  lemma PartitionAppend<A>(xs: seq<A>, ys: seq<A>, p: A -> bool)
    ensures Partition(xs + ys, p).0 == Partition(xs, p).0 + Partition(ys, p).0
    ensures Partition(xs + ys, p).1 == Partition(xs, p).1 + Partition(ys, p).1
  {
    PartitionIsFilters(xs + ys, p);
    PartitionIsFilters(xs, p);
    PartitionIsFilters(ys, p);
    FilterAppend(xs, ys, p, true);
    FilterAppend(xs, ys, p, false);
  }

  /** `partition` loses and duplicates nothing: the two sides together are a
      permutation of the input. */
  lemma {:induction false} PartitionPermutes<A>(xs: seq<A>, p: A -> bool)
    ensures multiset(Partition(xs, p).0) + multiset(Partition(xs, p).1) == multiset(xs)
    decreases |xs|
  {
    if |xs| > 0 {
      var x, tail := xs[0], xs[1..];
      PartitionPermutes(tail, p);
      var rest := Partition(tail, p);
      assert xs == [x] + tail;
      assert multiset(xs) == multiset([x]) + multiset(tail);
      if p(x) {
        assert Partition(xs, p) == ([x] + rest.0, rest.1);
        assert multiset([x] + rest.0) == multiset([x]) + multiset(rest.0);
      } else {
        assert Partition(xs, p) == (rest.0, [x] + rest.1);
        assert multiset([x] + rest.1) == multiset([x]) + multiset(rest.1);
      }
    }
  }

  /** `mapNotNull` of a concatenation is the concatenation of the results.
      With the one-element case in `MapNotNull`'s contract this determines
      `mapNotNull` completely. */
  lemma {:induction false} MapNotNullAppend<A, B>(xs: seq<A>, ys: seq<A>, f: A -> Option<B>)
    ensures MapNotNull(xs + ys, f) == MapNotNull(xs, f) + MapNotNull(ys, f)
    decreases |xs|
  {
    if |xs| == 0 {
      assert xs + ys == ys;
    } else {
      assert (xs + ys)[0] == xs[0] && (xs + ys)[1..] == xs[1..] + ys;
      MapNotNullAppend(xs[1..], ys, f);
    }
  }

  /** `all`. */
  predicate All<A>(xs: seq<A>, p: A -> bool)
  {
    forall i | 0 <= i < |xs| :: p(xs[i])
  }

  /** `joinToString(separator)`: the parts with the separator between
      neighbours; nothing for no parts. */
  function JoinToString(parts: seq<string>, separator: string): (r: string)
    ensures |parts| == 0 ==> r == []
    ensures |parts| == 1 ==> r == parts[0]
    ensures |parts| >= 1 ==> parts[0] <= r
    ensures |parts| >= 2 ==> parts[0] + separator <= r
    decreases |parts|
  {
    if |parts| == 0 then []
    else if |parts| == 1 then parts[0]
    else parts[0] + separator + JoinToString(parts[1..], separator)
  }

  /** Appending a part to a non-empty list appends the separator and the
      part. With the empty and one-part cases in `JoinToString`'s contract
      this determines `joinToString` completely. */
  lemma {:induction false} JoinToStringAppend(parts: seq<string>, part: string, separator: string)
    requires |parts| >= 1
    ensures JoinToString(parts + [part], separator) == JoinToString(parts, separator) + separator + part
    decreases |parts|
  {
    var ps := parts + [part];
    assert ps[0] == parts[0] && ps[1..] == parts[1..] + [part];
    if |parts| == 1 {
      assert ps[1..] == [part];
    } else {
      JoinToStringAppend(parts[1..], part, separator);
      var tail := JoinToString(parts[1..], separator);
      assert parts[0] + separator + (tail + separator + part) == (parts[0] + separator + tail) + separator + part;
    }
  }

  // ---------------------------------------------------------------------------
  // parallelSequence

  /** `parallelSequence`, built as the source builds it: partition into errors
      and others, then decide. */
  function ParallelSequence<T>(xs: seq<TriState<T>>): (r: TriState<seq<T>>)
    ensures r.Error? <==> exists i | 0 <= i < |xs| :: xs[i].Error?
    ensures r.Content? <==> forall i | 0 <= i < |xs| :: xs[i].Content?
    ensures r.Idle? <==> (forall i | 0 <= i < |xs| :: !xs[i].Error?) && exists i | 0 <= i < |xs| :: xs[i].Idle?
    ensures r.Content? ==> |r.data| == |xs| && forall i | 0 <= i < |xs| :: r.data[i] == xs[i].data
  {
    var parts := Partition(xs, IsError);
    var errors := parts.0;
    var others := parts.1;
    if |errors| > 0 then
      Error(JoinToString(MapNotNull(errors, GetErrorMessage), Separator))
    else if All(others, IsContent) then
      Pure(MapNotNull(others, GetOrNull))
    else
      Idle
  }

  // ---------------------------------------------------------------------------
  // An independent, single-pass reference

  /** Adds one element in front of an already aggregated tail. Errors win and
      accumulate; otherwise any pending element makes the whole pending. */
  function Merge<T>(x: TriState<T>, acc: TriState<seq<T>>): TriState<seq<T>>
  {
    match (x, acc)
    case (Error(m), Error(n)) => Error(m + Separator + n)
    case (Error(m), _) => Error(m)
    case (_, Error(n)) => Error(n)
    case (Idle, _) => Idle
    case (Content(_), Idle) => Idle
    case (Content(v), Content(vs)) => Content([v] + vs)
  }

  /** The aggregation as a right fold of `Merge`. */
  function Accumulate<T>(xs: seq<TriState<T>>): TriState<seq<T>>
    decreases |xs|
  {
    if |xs| == 0 then Content([]) else Merge(xs[0], Accumulate(xs[1..]))
  }

  /** Unfolds the source's construction for a list with a first element. */
  lemma {:induction false} ParallelSequenceCons<T>(xs: seq<TriState<T>>)
    requires |xs| > 0
    ensures ParallelSequence(xs) == Merge(xs[0], ParallelSequence(xs[1..]))
  {
    var x, rest := xs[0], xs[1..];
    var p, q := Partition(xs, IsError), Partition(rest, IsError);
    if x.Error? {
      assert p == ([x] + q.0, q.1);
      assert MapNotNull(p.0, GetErrorMessage) == [x.message] + MapNotNull(q.0, GetErrorMessage) by {
        assert p.0[0] == x && p.0[1..] == q.0;
      }
      var ms := MapNotNull(q.0, GetErrorMessage);
      if |q.0| == 0 {
        assert ms == [];
      } else {
        forall i | 0 <= i < |q.0|
          ensures GetErrorMessage(q.0[i]).Some?
        {
          assert q.0[i] in q.0;
        }
        assert ([x.message] + ms)[1..] == ms;
      }
    } else {
      assert p == (q.0, [x] + q.1);
      if |q.0| == 0 {
        assert All(p.1, IsContent) <==> IsContent(x) && All(q.1, IsContent) by {
          assert forall i | 1 <= i < |p.1| :: p.1[i] == q.1[i - 1];
        }
        if x.Content? && All(q.1, IsContent) {
          assert MapNotNull(p.1, GetOrNull) == [x.data] + MapNotNull(q.1, GetOrNull) by {
            assert p.1[0] == x && p.1[1..] == q.1;
          }
        }
      }
    }
  }

  /** The source's partition-based construction equals the single-pass
      reference on every list. */
  lemma {:induction false} ParallelSequenceIsAccumulate<T>(xs: seq<TriState<T>>)
    ensures ParallelSequence(xs) == Accumulate(xs)
    decreases |xs|
  {
    if |xs| == 0 {
      assert Partition(xs, IsError) == ([], []);
    } else {
      ParallelSequenceCons(xs);
      ParallelSequenceIsAccumulate(xs[1..]);
    }
  }

  /** The reference with exactly one error gives that error's message. */
  lemma {:induction false} AccumulateSingleError<T>(xs: seq<TriState<T>>, k: nat)
    requires k < |xs| && xs[k].Error?
    requires forall i | 0 <= i < |xs| && i != k :: !xs[i].Error?
    ensures Accumulate(xs) == Error(xs[k].message)
    decreases |xs|
  {
    var rest := xs[1..];
    assert forall i | 0 <= i < |rest| :: rest[i] == xs[i + 1];
    if k == 0 {
      // The rest holds no error, so neither does its aggregate.
      ParallelSequenceIsAccumulate(rest);
    } else {
      AccumulateSingleError(rest, k - 1);
    }
  }

  /** The reference extends a failed aggregate's message at the end. */
  lemma {:induction false} AccumulateAppendError<T>(xs: seq<TriState<T>>, m: string)
    requires Accumulate(xs).Error?
    ensures Accumulate(xs + [Error(m)]) == Error(Accumulate(xs).message + Separator + m)
    decreases |xs|
  {
    var ys := xs + [Error(m)];
    var rest := xs[1..];
    assert ys[0] == xs[0] && ys[1..] == rest + [Error(m)];
    if Accumulate(rest).Error? {
      AccumulateAppendError(rest, m);
      var n := Accumulate(rest).message;
      if xs[0].Error? {
        var a := xs[0].message;
        assert a + Separator + (n + Separator + m) == (a + Separator + n) + Separator + m;
      }
    } else {
      // Only the first element failed.
      ParallelSequenceIsAccumulate(rest);
      assert forall i | 0 <= i < |rest| :: !rest[i].Error?;
      AccumulateSingleError(rest + [Error(m)], |rest|);
    }
  }

  /** A single error anywhere yields exactly its message. */
  lemma SingleErrorKeepsMessage<T>(xs: seq<TriState<T>>, k: nat)
    requires k < |xs| && xs[k].Error?
    requires forall i | 0 <= i < |xs| && i != k :: !xs[i].Error?
    ensures ParallelSequence(xs) == Error(xs[k].message)
  {
    ParallelSequenceIsAccumulate(xs);
    AccumulateSingleError(xs, k);
  }

  /** Appending an error to a list whose aggregate already failed extends
      the message at the end: errors accumulate left to right. */
  lemma ErrorsAccumulateInOrder<T>(xs: seq<TriState<T>>, m: string)
    requires ParallelSequence(xs).Error?
    ensures ParallelSequence(xs + [Error(m)]) == Error(ParallelSequence(xs).message + Separator + m)
  {
    ParallelSequenceIsAccumulate(xs);
    ParallelSequenceIsAccumulate(xs + [Error(m)]);
    AccumulateAppendError(xs, m);
  }

  /** Worked example: all payloads, in order. */
  lemma ExampleAllContent()
    ensures ParallelSequence([Content(1), Content(2), Content(3)]) == Content([1, 2, 3])
  {
    var one: seq<TriState<int>> := [Content(3)];
    var two: seq<TriState<int>> := [Content(2)] + one;
    var three: seq<TriState<int>> := [Content(1)] + two;
    assert one[1..] == [] && two[1..] == one && three[1..] == two;
    assert [3] + [] == [3] && [2] + [3] == [2, 3] && [1] + [2, 3] == [1, 2, 3];
    assert Accumulate(one) == Content([3]);
    assert Accumulate(two) == Content([2, 3]);
    assert Accumulate(three) == Content([1, 2, 3]);
    ParallelSequenceIsAccumulate(three);
  }

  /** Worked example: one error among payloads is the whole result. */
  lemma ExampleOneError()
    ensures ParallelSequence([Content(1), Error("bad"), Content(3)]) == Error("bad")
  {
    SingleErrorKeepsMessage([Content(1), Error("bad"), Content(3)], 1);
  }

  /** Worked example: two errors, joined in order. */
  lemma ExampleTwoErrors()
    ensures ParallelSequence<int>([Error("a"), Error("b")]) == Error("a; b")
  {
    var xs: seq<TriState<int>> := [Error("a")];
    SingleErrorKeepsMessage(xs, 0);
    ErrorsAccumulateInOrder(xs, "b");
    assert xs + [Error("b")] == [Error("a"), Error("b")];
    assert "a" + Separator + "b" == "a; b";
  }

  /** Worked examples: a pending element collapses everything to `Idle`; the
      empty list has all (no) payloads. */
  lemma ExamplePendingAndEmpty()
    ensures ParallelSequence<int>([Content(1), Idle]) == Idle
    ensures ParallelSequence<int>([]) == Content([])
  {
  }
}
