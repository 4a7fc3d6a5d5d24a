/**
 Java's `Funnel`: a global insertion counter, the implicit passthrough lane used
 by `add`, and the lanes registered by `through`. Every accepted input takes the
 counter's current value as its global index; `run` converts lane by lane and
 puts every result in the slot of its input's index, so the output lists the
 results in the order the inputs were accepted.
 */
module Funnels {
  import opened Results
  import opened Slots
  import opened Batches

  /**
   A funnel. `size` counts the accepts so far (including rejected ones);
   `passthrough` is the identity lane behind `add`, registered first; `lanes`
   are the lanes `through` registered after it, in registration order. All
   `through` lanes share one input type F.
   */
  datatype Funnel<!F, !T> = Funnel(size: nat, passthrough: Batch<T, T>, lanes: seq<Batch<F, T>>)

  /** A call that mutates the funnel and may throw: the state afterwards and the exception, if any. */
  datatype Step<!F, !T> = Step(state: Funnel<F, T>, thrown: Option<Error>)

  /**
   What `run` does: the output list (`None` is a null slot) or the exception,
   together with the registration positions of the lanes whose converter it
   called, in call order (position 0 is the passthrough, q > 0 is lanes[q-1]).
   */
  datatype Outcome<T> = Outcome(result: Result<seq<Option<T>>, Error>, invoked: seq<nat>)

  /** The global indices recorded on `lanes`, lane after lane. */
  function Flatten<F, T>(lanes: seq<Batch<F, T>>): seq<nat>
  {
    if |lanes| == 0 then [] else IndexList(lanes[0].sources) + Flatten(lanes[1..])
  }

  /** Every global index recorded anywhere in the funnel. */
  function AllIndices<F, T>(f: Funnel<F, T>): seq<nat>
  {
    IndexList(f.passthrough.sources) + Flatten(f.lanes)
  }

  /** The recorded indices are distinct slot numbers below `size` (true of every reachable funnel). */
  predicate WellIndexed<F, T>(f: Funnel<F, T>)
  {
    multiset(AllIndices(f)) <= multiset(Range(f.size))
  }

  /** The recorded indices are exactly 0..size-1, each once (true while no accept was rejected). */
  predicate FullyIndexed<F, T>(f: Funnel<F, T>)
  {
    multiset(AllIndices(f)) == multiset(Range(f.size))
  }

  /** Java's `x -> x` and `v -> v`: the identity, used as a converter and as a post-conversion. */
  function Id<V>(v: V): V
  {
    v
  }

  /** The passthrough lane's converter is the identity. */
  ghost predicate PassesThrough<F, T>(f: Funnel<F, T>)
  {
    f.passthrough.converter == Id
  }

  /** Number of records on the lane at registration position q. */
  function Load<F, T>(f: Funnel<F, T>, q: nat): nat
    requires q <= |f.lanes|
  {
    if q == 0 then |f.passthrough.sources| else |f.lanes[q - 1].sources|
  }

  /** The lane at registration position q passes the cardinality check. */
  predicate LaneConforms<F, T>(f: Funnel<F, T>, q: nat)
    requires q <= |f.lanes|
  {
    if q == 0 then Conforms(f.passthrough) else Conforms(f.lanes[q - 1])
  }

  /** The exception the lane at registration position q throws when it does not conform. */
  function LaneMismatch<F, T>(f: Funnel<F, T>, q: nat): Error
    requires q <= |f.lanes|
  {
    if q == 0 then Mismatch(f.passthrough) else Mismatch(f.lanes[q - 1])
  }

  /** `new Funnel<>()`: no accepts yet, and the identity lane `x -> x` registered first. */
  function New<F, T>(): (f: Funnel<F, T>)
    ensures f.size == 0 && |f.lanes| == 0 && |f.passthrough.sources| == 0
    ensures PassesThrough(f)
    ensures FullyIndexed(f)
  {
    Funnel(0, Batch(Id, []), [])
  }

  /**
   `through(converter)`: a null converter throws before anything is registered
   (the caller keeps its funnel unchanged); otherwise one empty lane is appended
   after all existing lanes and its position is returned as the handle.
   Handles count the `through` lanes from 0 (`Accept` takes one), while `run`'s
   call log counts the passthrough first: the lane with handle h is registration
   position h + 1 in `Outcome.invoked`, `LaneLoaded` and `FirstMismatch`.
   */
  function Through<F, T>(f: Funnel<F, T>, converter: Option<seq<F> -> seq<T>>): (r: Result<(Funnel<F, T>, nat), Error>)
    ensures r.Failure? <==> converter.None?
    ensures r.Failure? ==> r.error == NullPointer
    ensures r.Success? ==> r.value.1 == |f.lanes|
    ensures r.Success? ==> r.value.0.size == f.size && r.value.0.passthrough == f.passthrough
    ensures r.Success? ==> r.value.0.lanes == f.lanes + [Batch(converter.value, [])]
  {
    match converter
    case None => Failure(NullPointer)
    case Some(c) => Success((f.(lanes := f.lanes + [Batch(c, [])]), |f.lanes|))
  }

  /**
   `batch.accept(source, postConversion)` on the lane with handle `lane`. The
   counter is read and bumped before the null checks run, so a rejected call
   still consumes an index while recording nothing.
   */
  function Accept<F, T>(f: Funnel<F, T>, lane: nat, source: Option<F>, post: Option<T -> T>): (r: Step<F, T>)
    requires lane < |f.lanes|
    ensures r.state.size == f.size + 1
    ensures r.state.passthrough == f.passthrough
    ensures |r.state.lanes| == |f.lanes|
    ensures forall l :: 0 <= l < |f.lanes| && l != lane ==> r.state.lanes[l] == f.lanes[l]
    ensures r.thrown.None? <==> source.Some? && post.Some?
    ensures r.thrown.Some? ==> r.thrown.value == NullPointer && r.state.lanes == f.lanes
    ensures r.thrown.None? ==> r.state.lanes[lane].converter == f.lanes[lane].converter
    ensures r.thrown.None? ==>
      r.state.lanes[lane].sources == f.lanes[lane].sources + [Indexed(f.size, source.value, post.value)]
    ensures r.thrown.None? ==> Inputs(r.state.lanes[lane]) == Inputs(f.lanes[lane]) + [source.value]
  {
    var bumped := f.(size := f.size + 1);
    match Append(f.lanes[lane], f.size, source, post)
    case Success(b) => Step(bumped.(lanes := f.lanes[lane := b]), None)
    case Failure(e) => Step(bumped, Some(e))
  }

  /** `batch.accept(source)`: accept with the identity post-conversion `v -> v`. */
  function AcceptAsIs<F, T>(f: Funnel<F, T>, lane: nat, source: Option<F>): (r: Step<F, T>)
    requires lane < |f.lanes|
    ensures r.state.size == f.size + 1
    ensures r.state.passthrough == f.passthrough
    ensures |r.state.lanes| == |f.lanes|
    ensures forall l :: 0 <= l < |f.lanes| && l != lane ==> r.state.lanes[l] == f.lanes[l]
    ensures r.thrown.None? <==> source.Some?
    ensures r.thrown.Some? ==> r.thrown.value == NullPointer && r.state.lanes == f.lanes
    ensures r.thrown.None? ==>
      r.state.lanes[lane] == f.lanes[lane].(sources := f.lanes[lane].sources + [Indexed(f.size, source.value, Id)])
  {
    Accept(f, lane, source, Some(Id))
  }

  /**
   `add(element)`: accept on the passthrough lane with the identity
   post-conversion; like any accept, a null element still consumes an index.
   */
  function Add<F, T>(f: Funnel<F, T>, element: Option<T>): (r: Step<F, T>)
    ensures r.state.size == f.size + 1
    ensures r.state.lanes == f.lanes
    ensures r.state.passthrough.converter == f.passthrough.converter
    ensures r.thrown.None? <==> element.Some?
    ensures r.thrown.Some? ==> r.thrown.value == NullPointer && r.state.passthrough == f.passthrough
    ensures r.thrown.None? ==>
      r.state.passthrough.sources == f.passthrough.sources + [Indexed(f.size, element.value, Id)]
  {
    var bumped := f.(size := f.size + 1);
    match Append(f.passthrough, f.size, element, Some(Id))
    case Success(b) => Step(bumped.(passthrough := b), None)
    case Failure(e) => Step(bumped, Some(e))
  }

  /** An index recorded on one of `lanes` is recorded on a particular lane at a particular position, and conversely. */
  lemma {:induction false} FlattenMember<F, T>(lanes: seq<Batch<F, T>>, k: nat)
    ensures k in Flatten(lanes) <==>
      exists l, i :: 0 <= l < |lanes| && 0 <= i < |lanes[l].sources| && lanes[l].sources[i].index == k
  {
    if |lanes| > 0 {
      FlattenMember(lanes[1..], k);
      IndexListMember(lanes[0].sources);
      if k in IndexList(lanes[0].sources) {
        var i :| 0 <= i < |lanes[0].sources| && IndexList(lanes[0].sources)[i] == k;
        assert lanes[0].sources[i].index == k;
      }
      if exists l, i :: 0 <= l < |lanes| && 0 <= i < |lanes[l].sources| && lanes[l].sources[i].index == k {
        var l, i :| 0 <= l < |lanes| && 0 <= i < |lanes[l].sources| && lanes[l].sources[i].index == k;
        if l > 0 {
          assert lanes[1..][l - 1] == lanes[l];
        }
      }
    }
  }

  /** Every lane of `lanes` passes the cardinality check. */
  predicate AllConform<F, T>(lanes: seq<Batch<F, T>>)
  {
    |lanes| == 0 || (Conforms(lanes[0]) && AllConform(lanes[1..]))
  }

  lemma {:induction false} AllConformEach<F, T>(lanes: seq<Batch<F, T>>)
    ensures AllConform(lanes) <==> forall l :: 0 <= l < |lanes| ==> Conforms(lanes[l])
  {
    if |lanes| > 0 {
      AllConformEach(lanes[1..]);
      assert forall l :: 1 <= l < |lanes| ==> lanes[1..][l - 1] == lanes[l];
    }
  }

  /** Indices of `lanes` below n means the first lane fits an output of length n, and so do the others. */
  lemma FlattenBound<F, T>(lanes: seq<Batch<F, T>>, n: nat)
    requires |lanes| > 0
    requires forall k :: k in Flatten(lanes) ==> k < n
    ensures Fits(lanes[0].sources, n)
    ensures forall k :: k in Flatten(lanes[1..]) ==> k < n
  {
    IndexListMember(lanes[0].sources);
    assert forall k :: k in IndexList(lanes[0].sources) ==> k in Flatten(lanes);
    assert forall k :: k in Flatten(lanes[1..]) ==> k in Flatten(lanes);
  }

  /**
   The lane loop of `run` over `lanes` (registration positions pos, pos+1, ...):
   lanes convert in order until one fails the cardinality check, which aborts
   the loop; a lane without records is skipped without calling its converter.
   */
  function ConvertAll<F, T>(lanes: seq<Batch<F, T>>, pos: nat, out: seq<Option<T>>): (r: Outcome<T>)
    requires forall k :: k in Flatten(lanes) ==> k < |out|
    ensures r.result.Success? <==> AllConform(lanes)
    ensures r.result.Success? ==> |r.result.value| == |out|
    decreases |lanes|
  {
    if |lanes| == 0 then
      Outcome(Success(out), [])
    else
      FlattenBound(lanes, |out|);
      var called := CallLog(lanes[0], pos);
      match ConvertInto(lanes[0], out)
      case Failure(e) => Outcome(Failure(e), called)
      case Success(next) =>
        var rest := ConvertAll(lanes[1..], pos + 1, next);
        Outcome(rest.result, called + rest.invoked)
  }

  /** One turn of the lane loop: convert the first lane, then, unless it failed, the rest. */
  lemma ConvertAllUnfold<F, T>(lanes: seq<Batch<F, T>>, pos: nat, out: seq<Option<T>>)
    requires |lanes| > 0
    requires forall k :: k in Flatten(lanes) ==> k < |out|
    ensures Fits(lanes[0].sources, |out|)
    ensures forall k :: k in Flatten(lanes[1..]) ==> k < |out|
    ensures ConvertInto(lanes[0], out).Failure? ==>
      && ConvertAll(lanes, pos, out).result == ConvertInto(lanes[0], out)
      && ConvertAll(lanes, pos, out).invoked == [pos]
    ensures ConvertInto(lanes[0], out).Success? ==>
      |ConvertInto(lanes[0], out).value| == |out|
    ensures ConvertInto(lanes[0], out).Success? ==>
      ConvertAll(lanes, pos, out).result == ConvertAll(lanes[1..], pos + 1, ConvertInto(lanes[0], out).value).result
    // The guard below is CallLog(lanes[0], pos) with CallsConverter unfolded.
    ensures ConvertInto(lanes[0], out).Success? ==>
      ConvertAll(lanes, pos, out).invoked ==
        (if |lanes[0].sources| > 0 then [pos] else []) + ConvertAll(lanes[1..], pos + 1, ConvertInto(lanes[0], out).value).invoked
  {
    FlattenBound(lanes, |out|);
  }

  /** Every lane position in `s` is smaller than the ones after it: lanes are called in order, none twice. */
  predicate Increasing(s: seq<nat>)
  {
    forall i, j :: 0 <= i < j < |s| ==> s[i] < s[j]
  }

  /** Calling a lane before lanes with larger positions keeps the call log increasing. */
  lemma IncreasingCons(x: nat, s: seq<nat>)
    requires Increasing(s)
    requires forall p :: p in s ==> x < p
    ensures Increasing([x] + s)
  {
    forall i, j | 0 <= i < j < |[x] + s|
      ensures ([x] + s)[i] < ([x] + s)[j]
    {
      assert ([x] + s)[j] == s[j - 1] && s[j - 1] in s;
      if i > 0 {
        assert ([x] + s)[i] == s[i - 1];
      }
    }
  }

  /** Position p names a lane of `lanes` (numbered from pos) that holds records. */
  predicate LoadedAt<F, T>(lanes: seq<Batch<F, T>>, pos: nat, p: nat)
  {
    pos <= p < pos + |lanes| && |lanes[p - pos].sources| > 0
  }

  lemma LoadedAtTail<F, T>(lanes: seq<Batch<F, T>>, pos: nat, p: nat)
    requires |lanes| > 0 && LoadedAt(lanes[1..], pos + 1, p)
    ensures LoadedAt(lanes, pos, p)
  {
  }

  /** The lane loop calls a converter only for a lane of its own that holds records. */
  lemma {:induction false} ConvertAllCallsLoaded<F, T>(lanes: seq<Batch<F, T>>, pos: nat, out: seq<Option<T>>)
    requires forall k :: k in Flatten(lanes) ==> k < |out|
    ensures forall p :: p in ConvertAll(lanes, pos, out).invoked ==> LoadedAt(lanes, pos, p)
    decreases |lanes|
  {
    if |lanes| > 0 {
      ConvertAllUnfold(lanes, pos, out);
      var first := ConvertInto(lanes[0], out);
      if first.Success? {
        ConvertAllCallsLoaded(lanes[1..], pos + 1, first.value);
        var rest := ConvertAll(lanes[1..], pos + 1, first.value).invoked;
        forall p | p in rest
          ensures LoadedAt(lanes, pos, p)
        {
          LoadedAtTail(lanes, pos, p);
        }
      }
    }
  }

  /** The lane loop calls converters in registration order, so each at most once. */
  lemma {:induction false} ConvertAllCallsInOrder<F, T>(lanes: seq<Batch<F, T>>, pos: nat, out: seq<Option<T>>)
    requires forall k :: k in Flatten(lanes) ==> k < |out|
    ensures Increasing(ConvertAll(lanes, pos, out).invoked)
    decreases |lanes|
  {
    if |lanes| > 0 {
      ConvertAllUnfold(lanes, pos, out);
      var first := ConvertInto(lanes[0], out);
      if first.Success? {
        ConvertAllCallsInOrder(lanes[1..], pos + 1, first.value);
        ConvertAllCallsLoaded(lanes[1..], pos + 1, first.value);
        IncreasingCons(pos, ConvertAll(lanes[1..], pos + 1, first.value).invoked);
      }
    }
  }

  /** A lane loop that completes has called the converter of every lane holding records. */
  lemma {:induction false} ConvertAllCallsEveryLoadedLane<F, T>(lanes: seq<Batch<F, T>>, pos: nat, out: seq<Option<T>>)
    requires forall k :: k in Flatten(lanes) ==> k < |out|
    ensures ConvertAll(lanes, pos, out).result.Success? ==>
      forall p: nat :: LoadedAt(lanes, pos, p) ==> p in ConvertAll(lanes, pos, out).invoked
    decreases |lanes|
  {
    if |lanes| > 0 {
      ConvertAllUnfold(lanes, pos, out);
      var first := ConvertInto(lanes[0], out);
      if first.Success? {
        var rest := ConvertAll(lanes[1..], pos + 1, first.value);
        ConvertAllCallsEveryLoadedLane(lanes[1..], pos + 1, first.value);
        if rest.result.Success? {
          forall p: nat | LoadedAt(lanes, pos, p)
            ensures p in ConvertAll(lanes, pos, out).invoked
          {
            if p > pos {
              assert lanes[1..][p - pos - 1] == lanes[p - pos];
              assert LoadedAt(lanes[1..], pos + 1, p);
            }
          }
        }
      }
    }
  }

  /** A lane loop that completes writes only slots that some lane's record names. */
  lemma {:induction false} ConvertAllFrame<F, T>(lanes: seq<Batch<F, T>>, pos: nat, out: seq<Option<T>>)
    requires forall k :: k in Flatten(lanes) ==> k < |out|
    ensures ConvertAll(lanes, pos, out).result.Success? ==>
      forall k :: 0 <= k < |out| && k !in Flatten(lanes) ==> ConvertAll(lanes, pos, out).result.value[k] == out[k]
    decreases |lanes|
  {
    if |lanes| > 0 {
      ConvertAllUnfold(lanes, pos, out);
      var first := ConvertInto(lanes[0], out);
      if first.Success? {
        ConvertIntoWrites(lanes[0], out);
        ConvertAllFrame(lanes[1..], pos + 1, first.value);
      }
    }
  }

  /** Position p is where the lane loop stopped: the first lane that fails the cardinality check, with exception e. */
  ghost predicate StoppedAt<F, T>(lanes: seq<Batch<F, T>>, pos: nat, p: nat, e: Error)
  {
    && pos <= p < pos + |lanes|
    && !Conforms(lanes[p - pos])
    && e == Mismatch(lanes[p - pos])
    && AllConform(lanes[..p - pos])
  }

  lemma StoppedAtTail<F, T>(lanes: seq<Batch<F, T>>, pos: nat, p: nat, e: Error)
    requires |lanes| > 0 && Conforms(lanes[0]) && StoppedAt(lanes[1..], pos + 1, p, e)
    ensures StoppedAt(lanes, pos, p, e)
  {
    assert lanes[1..][p - pos - 1] == lanes[p - pos];
    assert lanes[..p - pos][1..] == lanes[1..][..p - pos - 1];
  }

  /**
   A lane loop that fails stopped at the first non-conforming lane, which is the
   last lane whose converter it called: no later converter runs, and every lane
   with records up to that one had its converter called before it.
   */
  lemma ConvertAllStops<F, T>(lanes: seq<Batch<F, T>>, pos: nat, out: seq<Option<T>>)
    requires forall k :: k in Flatten(lanes) ==> k < |out|
    ensures var r := ConvertAll(lanes, pos, out);
      r.result.Failure? ==> |r.invoked| > 0 && StoppedAt(lanes, pos, r.invoked[|r.invoked| - 1], r.result.error)
    ensures var r := ConvertAll(lanes, pos, out);
      r.result.Failure? ==>
        forall p: nat :: LoadedAt(lanes, pos, p) && p <= r.invoked[|r.invoked| - 1] ==> p in r.invoked
  {
    ConvertAllStopsAtMismatch(lanes, pos, out);
    ConvertAllCallsBeforeStop(lanes, pos, out);
  }

  /** A failing lane loop's last call is to the first lane that fails the cardinality check. */
  lemma {:induction false} ConvertAllStopsAtMismatch<F, T>(lanes: seq<Batch<F, T>>, pos: nat, out: seq<Option<T>>)
    requires forall k :: k in Flatten(lanes) ==> k < |out|
    ensures var r := ConvertAll(lanes, pos, out);
      r.result.Failure? ==> |r.invoked| > 0 && StoppedAt(lanes, pos, r.invoked[|r.invoked| - 1], r.result.error)
    decreases |lanes|
  {
    if |lanes| > 0 {
      ConvertAllUnfold(lanes, pos, out);
      var first := ConvertInto(lanes[0], out);
      if first.Success? {
        ConvertAllStopsAtMismatch(lanes[1..], pos + 1, first.value);
        var rest := ConvertAll(lanes[1..], pos + 1, first.value);
        if rest.result.Failure? {
          StoppedAtTail(lanes, pos, rest.invoked[|rest.invoked| - 1], rest.result.error);
        }
      } else {
        assert lanes[..0] == [];
      }
    }
  }

  /** A failing lane loop has called every lane with records up to the last lane in its log. */
  lemma {:induction false} ConvertAllCallsBeforeStop<F, T>(lanes: seq<Batch<F, T>>, pos: nat, out: seq<Option<T>>)
    requires forall k :: k in Flatten(lanes) ==> k < |out|
    ensures var r := ConvertAll(lanes, pos, out);
      r.result.Failure? ==> |r.invoked| > 0
    ensures var r := ConvertAll(lanes, pos, out);
      r.result.Failure? ==>
        forall p: nat :: LoadedAt(lanes, pos, p) && p <= r.invoked[|r.invoked| - 1] ==> p in r.invoked
    decreases |lanes|
  {
    if |lanes| > 0 {
      ConvertAllUnfold(lanes, pos, out);
      var first := ConvertInto(lanes[0], out);
      if first.Success? {
        ConvertAllCallsBeforeStop(lanes[1..], pos + 1, first.value);
        var rest := ConvertAll(lanes[1..], pos + 1, first.value);
        var r := ConvertAll(lanes, pos, out);
        if rest.result.Failure? {
          var last := rest.invoked[|rest.invoked| - 1];
          assert r.invoked[|r.invoked| - 1] == last;
          LoadedTailCalled(lanes, pos, rest.invoked, r.invoked, last);
        }
      }
    }
  }

  /** A loaded lane up to `last` is in the log when the first lane's call (if any) is prefixed to a log holding every later one. */
  lemma LoadedTailCalled<F, T>(lanes: seq<Batch<F, T>>, pos: nat, rest: seq<nat>, log: seq<nat>, last: nat)
    requires |lanes| > 0
    requires forall p: nat :: LoadedAt(lanes[1..], pos + 1, p) && p <= last ==> p in rest
    requires log == (if |lanes[0].sources| > 0 then [pos] else []) + rest
    ensures forall p: nat :: LoadedAt(lanes, pos, p) && p <= last ==> p in log
  {
    forall p: nat | LoadedAt(lanes, pos, p) && p <= last
      ensures p in log
    {
      if p > pos {
        assert lanes[1..][p - pos - 1] == lanes[p - pos];
        assert LoadedAt(lanes[1..], pos + 1, p);
      }
    }
  }

  /**
   A lane loop that completes, over lanes whose indices are distinct, leaves
   every record of every lane placed in the output.
   */
  lemma {:induction false} ConvertAllPlaces<F, T>(lanes: seq<Batch<F, T>>, pos: nat, out: seq<Option<T>>)
    requires forall k :: k in Flatten(lanes) ==> k < |out|
    requires Distinct(Flatten(lanes))
    ensures ConvertAll(lanes, pos, out).result.Success? ==>
      forall l :: 0 <= l < |lanes| ==> Placed(ConvertAll(lanes, pos, out).result.value, lanes[l])
    decreases |lanes|
  {
    if |lanes| > 0 {
      ConvertAllUnfold(lanes, pos, out);
      var first := ConvertInto(lanes[0], out);
      if first.Success? {
        var r := ConvertAll(lanes, pos, out).result;
        var rest := ConvertAll(lanes[1..], pos + 1, first.value).result;
        DistinctSplit(IndexList(lanes[0].sources), Flatten(lanes[1..]));
        ConvertAllPlaces(lanes[1..], pos + 1, first.value);
        if rest.Success? {
          ConvertIntoWrites(lanes[0], out);
          ConvertAllFrame(lanes[1..], pos + 1, first.value);
          PlacedKept(first.value, rest.value, lanes[0]);
          forall l | 0 <= l < |lanes|
            ensures Placed(r.value, lanes[l])
          {
            if l > 0 {
              assert lanes[1..][l - 1] == lanes[l];
            }
          }
        }
      }
    }
  }

  /** What well-indexing gives `run`: every index fits the output, and no slot is named twice. */
  lemma WellIndexedFacts<F, T>(f: Funnel<F, T>)
    requires WellIndexed(f)
    ensures Fits(f.passthrough.sources, f.size)
    ensures forall k :: k in Flatten(f.lanes) ==> k < f.size
    ensures Distinct(IndexList(f.passthrough.sources))
    ensures Distinct(Flatten(f.lanes))
    ensures forall k :: k in IndexList(f.passthrough.sources) ==> k !in Flatten(f.lanes)
  {
    WithinRange(AllIndices(f), f.size);
    DistinctSplit(IndexList(f.passthrough.sources), Flatten(f.lanes));
    IndexListMember(f.passthrough.sources);
    assert forall k :: k in IndexList(f.passthrough.sources) ==> k in AllIndices(f);
    assert forall k :: k in Flatten(f.lanes) ==> k in AllIndices(f);
  }

  /**
   Java's `run`: a list of `size` null slots, then the passthrough lane and every
   `through` lane in registration order convert into it; the first lane that
   fails the cardinality check aborts the run with its exception.
   */
  function Run<F, T>(f: Funnel<F, T>): (r: Outcome<T>)
    requires WellIndexed(f)
    ensures r.result.Success? <==> Conforms(f.passthrough) && AllConform(f.lanes)
    ensures r.result.Success? ==> |r.result.value| == f.size
  {
    WellIndexedFacts(f);
    var blank := Blank(f);
    var called := CallLog(f.passthrough, 0);
    match ConvertInto(f.passthrough, blank)
    case Failure(e) => Outcome(Failure(e), called)
    case Success(out) =>
      var rest := ConvertAll(f.lanes, 1, out);
      Outcome(rest.result, called + rest.invoked)
  }

  /** The output list `run` starts from: `size` null slots. */
  function Blank<F, T>(f: Funnel<F, T>): seq<Option<T>>
  {
    seq(f.size, _ => None)
  }

  /** `run` converts the passthrough lane first, then the lane loop runs over the `through` lanes. */
  lemma RunUnfold<F, T>(f: Funnel<F, T>)
    requires WellIndexed(f)
    ensures Fits(f.passthrough.sources, f.size)
    ensures forall k :: k in Flatten(f.lanes) ==> k < f.size
    ensures ConvertInto(f.passthrough, Blank(f)).Failure? ==>
      && Run(f).result == ConvertInto(f.passthrough, Blank(f))
      && Run(f).invoked == [0]
    ensures ConvertInto(f.passthrough, Blank(f)).Success? ==>
      |ConvertInto(f.passthrough, Blank(f)).value| == f.size
    ensures ConvertInto(f.passthrough, Blank(f)).Success? ==>
      Run(f).result == ConvertAll(f.lanes, 1, ConvertInto(f.passthrough, Blank(f)).value).result
    // The guard below is CallLog(f.passthrough, 0) with CallsConverter unfolded.
    ensures ConvertInto(f.passthrough, Blank(f)).Success? ==>
      Run(f).invoked ==
        (if |f.passthrough.sources| > 0 then [0] else []) + ConvertAll(f.lanes, 1, ConvertInto(f.passthrough, Blank(f)).value).invoked
  {
    WellIndexedFacts(f);
  }

  /** The lane at registration position q exists and holds records. */
  predicate LaneLoaded<F, T>(f: Funnel<F, T>, q: nat)
  {
    q <= |f.lanes| && Load(f, q) > 0
  }

  /**
   `run` calls converters in registration order, each at most once, never for
   a lane without records, and, when it returns a list, for every lane with
   records.
   */
  lemma RunCalls<F, T>(f: Funnel<F, T>)
    requires WellIndexed(f)
    ensures Increasing(Run(f).invoked)
    ensures forall q :: q in Run(f).invoked ==> LaneLoaded(f, q)
    ensures Run(f).result.Success? ==> forall q: nat :: LaneLoaded(f, q) ==> q in Run(f).invoked
  {
    RunUnfold(f);
    var first := ConvertInto(f.passthrough, Blank(f));
    if first.Success? {
      ConvertAllCallsLoaded(f.lanes, 1, first.value);
      ConvertAllCallsInOrder(f.lanes, 1, first.value);
      ConvertAllCallsEveryLoadedLane(f.lanes, 1, first.value);
      var rest := ConvertAll(f.lanes, 1, first.value).invoked;
      forall q | q in rest
        ensures LaneLoaded(f, q) && 0 < q
      {
        assert LoadedAt(f.lanes, 1, q);
      }
      IncreasingCons(0, rest);
      if Run(f).result.Success? {
        forall q: nat | LaneLoaded(f, q)
          ensures q in Run(f).invoked
        {
          if q > 0 {
            assert LoadedAt(f.lanes, 1, q);
          }
        }
      }
    }
  }

  /** `run` stopped at registration position q with exception e: the first lane that fails the cardinality check. */
  ghost predicate FirstMismatch<F, T>(f: Funnel<F, T>, q: nat, e: Error)
  {
    && q <= |f.lanes|
    && !LaneConforms(f, q)
    && e == LaneMismatch(f, q)
    && forall p :: 0 <= p < q ==> LaneConforms(f, p)
  }

  /**
   A `run` that throws names the first lane whose converter broke the
   cardinality contract, and that lane is the last one whose converter ran;
   every lane with records registered before it had its converter called.
   */
  lemma RunStops<F, T>(f: Funnel<F, T>)
    requires WellIndexed(f)
    ensures Run(f).result.Failure? ==>
      |Run(f).invoked| > 0 && FirstMismatch(f, Run(f).invoked[|Run(f).invoked| - 1], Run(f).result.error)
    ensures Run(f).result.Failure? ==>
      forall q: nat :: LaneLoaded(f, q) && q <= Run(f).invoked[|Run(f).invoked| - 1] ==> q in Run(f).invoked
  {
    RunStopsAtMismatch(f);
    RunCallsBeforeStop(f);
  }

  /** A failing `run`'s last call is to the first lane that fails the cardinality check. */
  lemma RunStopsAtMismatch<F, T>(f: Funnel<F, T>)
    requires WellIndexed(f)
    ensures Run(f).result.Failure? ==>
      |Run(f).invoked| > 0 && FirstMismatch(f, Run(f).invoked[|Run(f).invoked| - 1], Run(f).result.error)
  {
    RunUnfold(f);
    var first := ConvertInto(f.passthrough, Blank(f));
    if first.Success? {
      var rest := ConvertAll(f.lanes, 1, first.value);
      ConvertAllStopsAtMismatch(f.lanes, 1, first.value);
      if rest.result.Failure? {
        var q := rest.invoked[|rest.invoked| - 1];
        assert Run(f).invoked[|Run(f).invoked| - 1] == q;
        StoppedAtFirst(f, q, rest.result.error);
      }
    }
  }

  /** A failing `run` has called every lane with records up to the last lane in its log. */
  lemma RunCallsBeforeStop<F, T>(f: Funnel<F, T>)
    requires WellIndexed(f)
    ensures Run(f).result.Failure? ==> |Run(f).invoked| > 0
    ensures Run(f).result.Failure? ==>
      forall q: nat :: LaneLoaded(f, q) && q <= Run(f).invoked[|Run(f).invoked| - 1] ==> q in Run(f).invoked
  {
    RunUnfold(f);
    var first := ConvertInto(f.passthrough, Blank(f));
    if first.Success? {
      var rest := ConvertAll(f.lanes, 1, first.value);
      ConvertAllCallsBeforeStop(f.lanes, 1, first.value);
      if rest.result.Failure? {
        var q := rest.invoked[|rest.invoked| - 1];
        assert Run(f).invoked[|Run(f).invoked| - 1] == q;
        CalledBeforeStop(f, rest.invoked, Run(f).invoked, q);
      }
    }
  }

  /** Where the lane loop over the `through` lanes stops is where `run` stops. */
  lemma StoppedAtFirst<F, T>(f: Funnel<F, T>, q: nat, e: Error)
    requires Conforms(f.passthrough)
    requires StoppedAt(f.lanes, 1, q, e)
    ensures FirstMismatch(f, q, e)
  {
    AllConformEach(f.lanes[..q - 1]);
    forall p | 0 <= p < q
      ensures LaneConforms(f, p)
    {
      if p > 0 {
        assert f.lanes[..q - 1][p - 1] == f.lanes[p - 1];
      }
    }
  }

  /** Prefixing the passthrough's call to the lane loop's log keeps every loaded lane up to q in it. */
  lemma CalledBeforeStop<F, T>(f: Funnel<F, T>, rest: seq<nat>, log: seq<nat>, q: nat)
    requires forall p: nat :: LoadedAt(f.lanes, 1, p) && p <= q ==> p in rest
    requires log == (if |f.passthrough.sources| > 0 then [0] else []) + rest
    ensures forall p: nat :: LaneLoaded(f, p) && p <= q ==> p in log
  {
    forall p: nat | LaneLoaded(f, p) && p <= q
      ensures p in log
    {
      if p > 0 {
        assert LoadedAt(f.lanes, 1, p);
      }
    }
  }

  /**
   Order preservation: when `run` returns a list, every record of every lane
   (the passthrough included) has its post-converted result in the slot of its
   global index, and a slot no record names stays null.
   */
  lemma RunPlaces<F, T>(f: Funnel<F, T>)
    requires WellIndexed(f)
    ensures Run(f).result.Success? ==> Placed(Run(f).result.value, f.passthrough)
    ensures Run(f).result.Success? ==> forall l :: 0 <= l < |f.lanes| ==> Placed(Run(f).result.value, f.lanes[l])
    ensures Run(f).result.Success? ==>
      forall k :: 0 <= k < f.size && k !in AllIndices(f) ==> Run(f).result.value[k] == None
  {
    RunUnfold(f);
    WellIndexedFacts(f);
    var first := ConvertInto(f.passthrough, Blank(f));
    if first.Success? {
      var out := ConvertAll(f.lanes, 1, first.value).result;
      if out.Success? {
        ConvertIntoWrites(f.passthrough, Blank(f));
        ConvertAllFrame(f.lanes, 1, first.value);
        ConvertAllPlaces(f.lanes, 1, first.value);
        PlacedKept(first.value, out.value, f.passthrough);
      }
    }
  }

  /** With no rejected accept, a `run` that returns a list fills every slot. */
  lemma RunFillsEverySlot<F, T>(f: Funnel<F, T>)
    requires FullyIndexed(f)
    ensures WellIndexed(f)
    ensures Run(f).result.Success? ==> forall k :: 0 <= k < f.size ==> Run(f).result.value[k].Some?
  {
    CoversRange(AllIndices(f), f.size);
    RunPlaces(f);
    var r := Run(f).result;
    if r.Success? {
      forall k | 0 <= k < f.size
        ensures r.value[k].Some?
      {
        assert k in AllIndices(f);
        if k in IndexList(f.passthrough.sources) {
          var i :| 0 <= i < |f.passthrough.sources| && IndexList(f.passthrough.sources)[i] == k;
          assert f.passthrough.sources[i].index == k;
        } else {
          FlattenMember(f.lanes, k);
          var l, i :| 0 <= l < |f.lanes| && 0 <= i < |f.lanes[l].sources| && f.lanes[l].sources[i].index == k;
          assert Placed(r.value, f.lanes[l]);
        }
      }
    }
  }

  /** Invariant of every funnel built by `New`, `Through`, `Accept`, `AcceptAsIs` and `Add`. */
  ghost predicate Invariant<F, T>(f: Funnel<F, T>)
  {
    WellIndexed(f) && PassesThrough(f)
  }

  lemma {:induction false} FlattenSnoc<F, T>(lanes: seq<Batch<F, T>>, b: Batch<F, T>)
    ensures Flatten(lanes + [b]) == Flatten(lanes) + IndexList(b.sources)
    decreases |lanes|
  {
    if |lanes| == 0 {
      assert lanes + [b] == [b] && [b][1..] == [];
    } else {
      assert (lanes + [b])[1..] == lanes[1..] + [b];
      FlattenSnoc(lanes[1..], b);
    }
  }

  lemma {:induction false} FlattenGrow<F, T>(lanes: seq<Batch<F, T>>, l: nat, b: Batch<F, T>, x: nat)
    requires l < |lanes|
    requires IndexList(b.sources) == IndexList(lanes[l].sources) + [x]
    ensures multiset(Flatten(lanes[l := b])) == multiset(Flatten(lanes)) + multiset{x}
    decreases l
  {
    if l == 0 {
      assert lanes[l := b][1..] == lanes[1..];
    } else {
      assert lanes[l := b][1..] == lanes[1..][l - 1 := b];
      FlattenGrow(lanes[1..], l - 1, b, x);
    }
  }

  /** An index list that grows by the next slot number stays inside (or equal to) 0..size-1. */
  lemma GrowRange(before: seq<nat>, after: seq<nat>, n: nat)
    requires multiset(after) == multiset(before) + multiset{n}
    ensures multiset(before) <= multiset(Range(n)) ==> multiset(after) <= multiset(Range(n + 1))
    ensures multiset(before) == multiset(Range(n)) ==> multiset(after) == multiset(Range(n + 1))
  {
    RangeSucc(n);
    assert multiset(Range(n + 1)) == multiset(Range(n)) + multiset{n};
  }

  /** An index list that stays put while the counter grows stays inside 0..size-1 but no longer covers it. */
  lemma SkipRange(s: seq<nat>, n: nat)
    ensures multiset(s) <= multiset(Range(n)) ==> multiset(s) <= multiset(Range(n + 1))
    ensures multiset(s) == multiset(Range(n)) ==> multiset(s) != multiset(Range(n + 1))
  {
    RangeSucc(n);
    assert multiset(Range(n + 1)) == multiset(Range(n)) + multiset{n};
  }

  /**
   A registered lane starts empty, so `through` records no index, keeps the
   invariant, and keeps the funnel fully indexed.
   */
  lemma ThroughKeepsInvariant<F, T>(f: Funnel<F, T>, converter: Option<seq<F> -> seq<T>>)
    ensures Through(f, converter).Success? ==> AllIndices(Through(f, converter).value.0) == AllIndices(f)
    ensures Through(f, converter).Success? && Invariant(f) ==> Invariant(Through(f, converter).value.0)
    ensures Through(f, converter).Success? && FullyIndexed(f) ==> FullyIndexed(Through(f, converter).value.0)
  {
    if converter.Some? {
      FlattenSnoc(f.lanes, Batch(converter.value, []));
      assert IndexList<F, T>([]) == [];
    }
  }

  /** The lane loop ignores a lane without records appended at the end. */
  lemma {:induction false} ConvertAllSnocEmpty<F, T>(lanes: seq<Batch<F, T>>, c: seq<F> -> seq<T>, pos: nat, out: seq<Option<T>>)
    requires forall k :: k in Flatten(lanes) ==> k < |out|
    ensures forall k :: k in Flatten(lanes + [Batch(c, [])]) ==> k < |out|
    ensures ConvertAll(lanes + [Batch(c, [])], pos, out).result == ConvertAll(lanes, pos, out).result
    ensures ConvertAll(lanes + [Batch(c, [])], pos, out).invoked == ConvertAll(lanes, pos, out).invoked
    decreases |lanes|
  {
    var e := Batch(c, []);
    FlattenSnoc(lanes, e);
    assert IndexList(e.sources) == [];
    assert Flatten(lanes + [e]) == Flatten(lanes);
    if |lanes| == 0 {
      assert lanes + [e] == [e];
      ConvertAllUnfold([e], pos, out);
      assert [e][1..] == [];
    } else {
      ConvertAllUnfold(lanes, pos, out);
      ConvertAllUnfold(lanes + [e], pos, out);
      assert (lanes + [e])[0] == lanes[0];
      assert (lanes + [e])[1..] == lanes[1..] + [e];
      var first := ConvertInto(lanes[0], out);
      if first.Success? {
        ConvertAllSnocEmpty(lanes[1..], c, pos + 1, first.value);
      }
    }
  }

  /** A freshly registered, empty lane changes neither what `run` returns nor the converters it calls. */
  lemma ThroughKeepsRun<F, T>(f: Funnel<F, T>, converter: Option<seq<F> -> seq<T>>)
    requires WellIndexed(f)
    ensures Through(f, converter).Success? ==> WellIndexed(Through(f, converter).value.0)
    ensures Through(f, converter).Success? ==>
      && Run(Through(f, converter).value.0).result == Run(f).result
      && Run(Through(f, converter).value.0).invoked == Run(f).invoked
  {
    ThroughKeepsInvariant(f, converter);
    if converter.Some? {
      var g := Through(f, converter).value.0;
      assert WellIndexed(g);
      RunUnfold(f);
      RunUnfold(g);
      assert Blank(g) == Blank(f);
      var first := ConvertInto(f.passthrough, Blank(f));
      if first.Success? {
        ConvertAllSnocEmpty(f.lanes, converter.value, 1, first.value);
      }
    }
  }

  /** One more slot, taken by one more index: well- and full indexing carry over. */
  lemma IndexStep<F, T>(f: Funnel<F, T>, g: Funnel<F, T>)
    requires g.size == f.size + 1
    requires multiset(AllIndices(g)) == multiset(AllIndices(f)) + multiset{f.size}
    ensures WellIndexed(f) ==> WellIndexed(g)
    ensures FullyIndexed(f) ==> FullyIndexed(g)
  {
    GrowRange(AllIndices(f), AllIndices(g), f.size);
  }

  /** One more slot that no index takes: well-indexing carries over, full indexing is lost. */
  lemma SkipStep<F, T>(f: Funnel<F, T>, g: Funnel<F, T>)
    requires g.size == f.size + 1
    requires AllIndices(g) == AllIndices(f)
    ensures WellIndexed(f) ==> WellIndexed(g)
    ensures FullyIndexed(f) ==> !FullyIndexed(g)
  {
    SkipRange(AllIndices(f), f.size);
  }

  /** An accepted input adds the old `size` to the recorded indices. */
  lemma AcceptedIndices<F, T>(f: Funnel<F, T>, lane: nat, x: F, p: T -> T)
    requires lane < |f.lanes|
    ensures multiset(AllIndices(Accept(f, lane, Some(x), Some(p)).state)) == multiset(AllIndices(f)) + multiset{f.size}
  {
    var g := Accept(f, lane, Some(x), Some(p)).state;
    FlattenGrow(f.lanes, lane, g.lanes[lane], f.size);
    assert g.lanes == f.lanes[lane := g.lanes[lane]];
    assert g.passthrough == f.passthrough;
  }

  /** An added element adds the old `size` to the recorded indices. */
  lemma AddedIndices<F, T>(f: Funnel<F, T>, x: T)
    ensures multiset(AllIndices(Add(f, Some(x)).state)) == multiset(AllIndices(f)) + multiset{f.size}
  {
    var g := Add(f, Some(x)).state;
    var before := IndexList(f.passthrough.sources);
    assert IndexList(g.passthrough.sources) == before + [f.size];
    assert AllIndices(g) == (before + [f.size]) + Flatten(f.lanes);
    MultisetInsert(before, f.size, Flatten(f.lanes));
  }

  /**
   Every accept takes the next slot number: an accepted input adds exactly the
   old `size` to the recorded indices, a rejected one adds nothing. Either way
   the invariant holds afterwards, and a fully indexed funnel stays fully
   indexed exactly when the input is accepted.
   */
  lemma AcceptKeepsInvariant<F, T>(f: Funnel<F, T>, lane: nat, source: Option<F>, post: Option<T -> T>)
    requires lane < |f.lanes|
    ensures var r := Accept(f, lane, source, post);
      r.thrown.None? ==> multiset(AllIndices(r.state)) == multiset(AllIndices(f)) + multiset{f.size}
    ensures var r := Accept(f, lane, source, post);
      r.thrown.Some? ==> AllIndices(r.state) == AllIndices(f)
    ensures WellIndexed(f) ==> WellIndexed(Accept(f, lane, source, post).state)
    ensures Invariant(f) ==> Invariant(Accept(f, lane, source, post).state)
    ensures FullyIndexed(f) ==>
      (FullyIndexed(Accept(f, lane, source, post).state) <==> Accept(f, lane, source, post).thrown.None?)
  {
    var r := Accept(f, lane, source, post);
    if source.Some? && post.Some? {
      AcceptedIndices(f, lane, source.value, post.value);
      IndexStep(f, r.state);
    } else {
      assert r.state.lanes == f.lanes && r.state.passthrough == f.passthrough;
      SkipStep(f, r.state);
    }
  }

  /** `add` takes the next slot number exactly like an accept on a `through` lane. */
  lemma AddKeepsInvariant<F, T>(f: Funnel<F, T>, element: Option<T>)
    ensures var r := Add(f, element);
      r.thrown.None? ==> multiset(AllIndices(r.state)) == multiset(AllIndices(f)) + multiset{f.size}
    ensures var r := Add(f, element);
      r.thrown.Some? ==> AllIndices(r.state) == AllIndices(f)
    ensures WellIndexed(f) ==> WellIndexed(Add(f, element).state)
    ensures Invariant(f) ==> Invariant(Add(f, element).state)
    ensures FullyIndexed(f) ==> (FullyIndexed(Add(f, element).state) <==> Add(f, element).thrown.None?)
  {
    var r := Add(f, element);
    if element.Some? {
      AddedIndices(f, element.value);
      IndexStep(f, r.state);
    } else {
      assert r.state.lanes == f.lanes && r.state.passthrough == f.passthrough;
      SkipStep(f, r.state);
    }
  }

  /**
   `accept(x, p)`: once `run` returns a list, the slot of the old `size` holds p
   applied to the converter's answer, at x's position among the lane's inputs,
   for the lane's inputs in accept order.
   */
  lemma AcceptedResultLands<F, T>(f: Funnel<F, T>, lane: nat, x: F, p: T -> T)
    requires WellIndexed(f)
    requires lane < |f.lanes|
    ensures WellIndexed(Accept(f, lane, Some(x), Some(p)).state)
    ensures var g := Accept(f, lane, Some(x), Some(p)).state;
      var answer := f.lanes[lane].converter(Inputs(f.lanes[lane]) + [x]);
      Run(g).result.Success? ==>
        |f.lanes[lane].sources| < |answer| &&
        Run(g).result.value[f.size] == Some(p(answer[|f.lanes[lane].sources|]))
  {
    AcceptKeepsInvariant(f, lane, Some(x), Some(p));
    var g := Accept(f, lane, Some(x), Some(p)).state;
    RunPlaces(g);
    if Run(g).result.Success? {
      assert Placed(Run(g).result.value, g.lanes[lane]);
      assert g.lanes[lane].sources[|f.lanes[lane].sources|] == Indexed(f.size, x, p);
    }
  }

  /**
   `accept(x)`: once `run` returns a list, the slot of the old `size` holds the
   converter's answer itself, at x's position among the lane's inputs.
   */
  lemma {:induction false} AcceptedAsIsLands<F, T>(f: Funnel<F, T>, lane: nat, x: F)
    requires WellIndexed(f)
    requires lane < |f.lanes|
    ensures WellIndexed(AcceptAsIs(f, lane, Some(x)).state)
    ensures var g := AcceptAsIs(f, lane, Some(x)).state;
      var answer := f.lanes[lane].converter(Inputs(f.lanes[lane]) + [x]);
      Run(g).result.Success? ==>
        |f.lanes[lane].sources| < |answer| &&
        Run(g).result.value[f.size] == Some(answer[|f.lanes[lane].sources|])
  {
    AcceptedResultLands(f, lane, x, Id);
    assert AcceptAsIs(f, lane, Some(x)) == Accept(f, lane, Some(x), Some(Id));
  }

  /** `add(x)`: once `run` returns a list, x itself sits in the slot of the old `size`. */
  lemma AddedElementVerbatim<F, T>(f: Funnel<F, T>, x: T)
    requires Invariant(f)
    ensures Invariant(Add(f, Some(x)).state)
    ensures Run(Add(f, Some(x)).state).result.Success? ==> Run(Add(f, Some(x)).state).result.value[f.size] == Some(x)
  {
    AddKeepsInvariant(f, Some(x));
    var g := Add(f, Some(x)).state;
    RunPlaces(g);
    if Run(g).result.Success? {
      var n := |f.passthrough.sources|;
      assert Placed(Run(g).result.value, g.passthrough);
      assert Inputs(g.passthrough)[n] == x;
      assert Converted(g.passthrough) == Inputs(g.passthrough);
    }
  }

  /**
   A rejected accept still consumed the slot of the old `size`, and no record
   names it: once `run` returns a list, that slot is null.
   */
  lemma RejectedAcceptLeavesNull<F, T>(f: Funnel<F, T>, lane: nat, source: Option<F>, post: Option<T -> T>)
    requires WellIndexed(f)
    requires lane < |f.lanes|
    requires source.None? || post.None?
    ensures WellIndexed(Accept(f, lane, source, post).state)
    ensures var g := Accept(f, lane, source, post).state;
      Run(g).result.Success? ==> Run(g).result.value[f.size] == None
  {
    AcceptKeepsInvariant(f, lane, source, post);
    var g := Accept(f, lane, source, post).state;
    RunPlaces(g);
    WithinRange(AllIndices(f), f.size);
  }

  /** The same for `add(null)`. */
  lemma RejectedAddLeavesNull<F, T>(f: Funnel<F, T>)
    requires WellIndexed(f)
    ensures WellIndexed(Add(f, None).state)
    ensures Run(Add(f, None).state).result.Success? ==> Run(Add(f, None).state).result.value[f.size] == None
  {
    AddKeepsInvariant(f, None);
    RunPlaces(Add(f, None).state);
    WithinRange(AllIndices(f), f.size);
  }
}
