/**
 End-to-end ordering. A client feeds a funnel a sequence of non-null `add` and
 `accept` calls; the theorem here says that, once `run` returns a list, slot
 `size + c` holds what call c asked for: the added element itself, or the
 call's post-conversion of its lane converter's answer for the input at that
 call's position among the lane's inputs.
 */
module Scripts {
  import opened Results
  import opened Batches
  import opened Funnels

  /** One client call on a funnel whose lanes are already registered. */
  datatype Call<F, !T> =
    | AddCall(element: T)                              // funnel.add(element)
    | AcceptCall(lane: nat, source: F, post: T -> T)   // batch.accept(source, post)

  /** Every accept call names a registered lane. */
  predicate ValidCalls<F, T>(f: Funnel<F, T>, calls: seq<Call<F, T>>)
  {
    forall c :: 0 <= c < |calls| && calls[c].AcceptCall? ==> calls[c].lane < |f.lanes|
  }

  /** The funnel after one call. */
  function Perform<F, T>(f: Funnel<F, T>, call: Call<F, T>): (g: Funnel<F, T>)
    requires call.AcceptCall? ==> call.lane < |f.lanes|
    ensures g.size == f.size + 1 && |g.lanes| == |f.lanes|
  {
    match call
    case AddCall(x) => Add(f, Some(x)).state
    case AcceptCall(l, x, p) => Accept(f, l, Some(x), Some(p)).state
  }

  /** The funnel after the calls, made in order. */
  function Feed<F, T>(f: Funnel<F, T>, calls: seq<Call<F, T>>): (g: Funnel<F, T>)
    requires ValidCalls(f, calls)
    ensures g.size == f.size + |calls|
    ensures |g.lanes| == |f.lanes|
    decreases |calls|
  {
    if |calls| == 0 then
      f
    else
      var n := |calls| - 1;
      assert ValidCalls(f, calls[..n]);
      Perform(Feed(f, calls[..n]), calls[n])
  }

  /** What one call adds to the passthrough's inputs. */
  function AddedBy<F, T>(call: Call<F, T>): seq<T>
  {
    if call.AddCall? then [call.element] else []
  }

  /** What one call adds to lane l's inputs. */
  function SourceOf<F, T>(call: Call<F, T>, l: nat): seq<F>
  {
    if call.AcceptCall? && call.lane == l then [call.source] else []
  }

  /** The elements of the add calls, in call order. */
  function Added<F, T>(calls: seq<Call<F, T>>): seq<T>
    decreases |calls|
  {
    if |calls| == 0 then [] else Added(calls[..|calls| - 1]) + AddedBy(calls[|calls| - 1])
  }

  /** The inputs of the accept calls on lane l, in call order. */
  function SourcesOn<F, T>(calls: seq<Call<F, T>>, l: nat): seq<F>
    decreases |calls|
  {
    if |calls| == 0 then [] else SourcesOn(calls[..|calls| - 1], l) + SourceOf(calls[|calls| - 1], l)
  }

  /** Lane l of g is lane l of f with the inputs `more` accepted after the old ones. */
  ghost predicate LaneGrew<F, T>(f: Funnel<F, T>, g: Funnel<F, T>, l: nat, more: seq<F>)
    requires l < |f.lanes| && l < |g.lanes|
  {
    && g.lanes[l].converter == f.lanes[l].converter
    && f.lanes[l].sources <= g.lanes[l].sources
    && Inputs(g.lanes[l]) == Inputs(f.lanes[l]) + more
  }

  /** The passthrough of g is that of f with the elements `more` added after the old ones. */
  ghost predicate PassthroughGrew<F, T>(f: Funnel<F, T>, g: Funnel<F, T>, more: seq<T>)
  {
    && g.passthrough.converter == f.passthrough.converter
    && f.passthrough.sources <= g.passthrough.sources
    && Inputs(g.passthrough) == Inputs(f.passthrough) + more
  }

  lemma LaneGrewTrans<F, T>(f: Funnel<F, T>, h: Funnel<F, T>, g: Funnel<F, T>, l: nat, a: seq<F>, b: seq<F>)
    requires l < |f.lanes| && l < |h.lanes| && l < |g.lanes|
    requires LaneGrew(f, h, l, a) && LaneGrew(h, g, l, b)
    ensures LaneGrew(f, g, l, a + b)
  {
  }

  lemma PassthroughGrewTrans<F, T>(f: Funnel<F, T>, h: Funnel<F, T>, g: Funnel<F, T>, a: seq<T>, b: seq<T>)
    requires PassthroughGrew(f, h, a) && PassthroughGrew(h, g, b)
    ensures PassthroughGrew(f, g, a + b)
  {
  }

  /** One call appends its input to its own lane (or the passthrough) and leaves every other lane as it was. */
  lemma PerformShape<F, T>(h: Funnel<F, T>, call: Call<F, T>)
    requires call.AcceptCall? ==> call.lane < |h.lanes|
    ensures PassthroughGrew(h, Perform(h, call), AddedBy(call))
    ensures forall l :: 0 <= l < |h.lanes| ==> LaneGrew(h, Perform(h, call), l, SourceOf(call, l))
  {
  }

  /** Feeding calls only appends: converters stay, old records stay, and each lane's inputs grow by its calls' inputs. */
  lemma {:induction false} FeedShape<F, T>(f: Funnel<F, T>, calls: seq<Call<F, T>>)
    requires ValidCalls(f, calls)
    ensures PassthroughGrew(f, Feed(f, calls), Added(calls))
    ensures forall l :: 0 <= l < |f.lanes| ==> LaneGrew(f, Feed(f, calls), l, SourcesOn(calls, l))
    decreases |calls|
  {
    if |calls| == 0 {
      assert Added(calls) == [];
      forall l | 0 <= l < |f.lanes|
        ensures LaneGrew(f, Feed(f, calls), l, SourcesOn(calls, l))
      {
        assert SourcesOn(calls, l) == [];
      }
    } else {
      var n := |calls| - 1;
      assert ValidCalls(f, calls[..n]);
      FeedShape(f, calls[..n]);
      var h := Feed(f, calls[..n]);
      var g := Feed(f, calls);
      assert g == Perform(h, calls[n]);
      PerformShape(h, calls[n]);
      PassthroughGrewTrans(f, h, g, Added(calls[..n]), AddedBy(calls[n]));
      forall l | 0 <= l < |f.lanes|
        ensures LaneGrew(f, g, l, SourcesOn(calls, l))
      {
        LaneGrewTrans(f, h, g, l, SourcesOn(calls[..n], l), SourceOf(calls[n], l));
      }
    }
  }

  /** Where call c left its record: index `size + c`, at the call's position among its lane's records. */
  ghost predicate Recorded<F, T>(f: Funnel<F, T>, calls: seq<Call<F, T>>, c: nat)
    requires ValidCalls(f, calls) && c < |calls|
  {
    var g := Feed(f, calls);
    match calls[c]
    case AddCall(x) =>
      var j := |f.passthrough.sources| + |Added(calls[..c])|;
      j < |g.passthrough.sources| && g.passthrough.sources[j] == Indexed(f.size + c, x, Id)
    case AcceptCall(l, x, p) =>
      var j := |f.lanes[l].sources| + |SourcesOn(calls[..c], l)|;
      j < |g.lanes[l].sources| && g.lanes[l].sources[j] == Indexed(f.size + c, x, p)
  }

  /** A record an earlier call left is still in place after one more call. */
  lemma RecordPersists<F, T>(f: Funnel<F, T>, calls: seq<Call<F, T>>, c: nat)
    requires ValidCalls(f, calls) && c + 1 < |calls|
    requires ValidCalls(f, calls[..|calls| - 1]) && Recorded(f, calls[..|calls| - 1], c)
    ensures Recorded(f, calls, c)
  {
    var n := |calls| - 1;
    var prefix := calls[..n];
    var h := Feed(f, prefix);
    PerformShape(h, calls[n]);
    assert Feed(f, calls) == Perform(h, calls[n]);
    assert calls[c] == prefix[c] && calls[..c] == prefix[..c];
    if calls[c].AcceptCall? {
      assert LaneGrew(h, Feed(f, calls), calls[c].lane, SourceOf(calls[n], calls[c].lane));
    }
  }

  /** The last call's record lands after every record that came before it in its lane. */
  lemma RecordLast<F, T>(f: Funnel<F, T>, calls: seq<Call<F, T>>)
    requires ValidCalls(f, calls) && |calls| > 0
    ensures Recorded(f, calls, |calls| - 1)
  {
    var n := |calls| - 1;
    var prefix := calls[..n];
    assert ValidCalls(f, prefix);
    FeedShape(f, prefix);
    var h := Feed(f, prefix);
    assert Feed(f, calls) == Perform(h, calls[n]);
    match calls[n]
    case AddCall(x) => {
      assert |Inputs(h.passthrough)| == |h.passthrough.sources|;
    }
    case AcceptCall(l, x, p) => {
      assert LaneGrew(f, h, l, SourcesOn(prefix, l));
      assert |Inputs(h.lanes[l])| == |h.lanes[l].sources|;
    }
  }

  /** Every call's record sits where `Recorded` says, with the index the call received. */
  lemma {:induction false} FeedRecords<F, T>(f: Funnel<F, T>, calls: seq<Call<F, T>>)
    requires ValidCalls(f, calls)
    ensures forall c :: 0 <= c < |calls| ==> Recorded(f, calls, c)
    decreases |calls|
  {
    if |calls| > 0 {
      var n := |calls| - 1;
      assert ValidCalls(f, calls[..n]);
      FeedRecords(f, calls[..n]);
      forall c | 0 <= c < |calls|
        ensures Recorded(f, calls, c)
      {
        if c < n {
          RecordPersists(f, calls, c);
        } else {
          RecordLast(f, calls);
        }
      }
    }
  }

  /** Feeding non-null calls keeps the funnel's invariant, and a funnel with no null slot gets none. */
  lemma {:induction false} FeedKeepsInvariant<F, T>(f: Funnel<F, T>, calls: seq<Call<F, T>>)
    requires ValidCalls(f, calls)
    ensures Invariant(f) ==> Invariant(Feed(f, calls))
    ensures FullyIndexed(f) ==> FullyIndexed(Feed(f, calls))
    decreases |calls|
  {
    if |calls| > 0 {
      var n := |calls| - 1;
      assert ValidCalls(f, calls[..n]);
      FeedKeepsInvariant(f, calls[..n]);
      var h := Feed(f, calls[..n]);
      assert Feed(f, calls) == Perform(h, calls[n]);
      match calls[n]
      case AddCall(x) => {
        AddKeepsInvariant(h, Some(x));
      }
      case AcceptCall(l, x, p) => {
        AcceptKeepsInvariant(h, l, Some(x), Some(p));
      }
    }
  }

  /**
   What call c of the script should leave in slot `size + c`, computed from the
   starting funnel and the calls alone: an added element verbatim; for an
   accepted input, the call's post-conversion of the answer the lane's converter
   gives, at the call's position, on every input the lane ever received.
   */
  function Expected<F, T>(f: Funnel<F, T>, calls: seq<Call<F, T>>, c: nat): Option<T>
    requires ValidCalls(f, calls) && c < |calls|
  {
    match calls[c]
    case AddCall(x) => Some(x)
    case AcceptCall(l, x, p) =>
      var answer := f.lanes[l].converter(Inputs(f.lanes[l]) + SourcesOn(calls, l));
      var j := |f.lanes[l].sources| + |SourcesOn(calls[..c], l)|;
      if j < |answer| then Some(p(answer[j])) else None
  }

  /** `Expected` of an accept call, given its lane's whole answer and the call's position in it. */
  lemma ExpectedAccept<F, T>(f: Funnel<F, T>, calls: seq<Call<F, T>>, c: nat, l: nat, x: F, p: T -> T, answer: seq<T>, j: nat)
    requires ValidCalls(f, calls) && c < |calls| && calls[c] == AcceptCall(l, x, p)
    requires answer == f.lanes[l].converter(Inputs(f.lanes[l]) + SourcesOn(calls, l))
    requires j == |f.lanes[l].sources| + |SourcesOn(calls[..c], l)| && j < |answer|
    ensures Expected(f, calls, c) == Some(p(answer[j]))
  {
  }

  /** An add call's slot holds its element. */
  lemma {:induction false} AddCallLands<F, T>(f: Funnel<F, T>, calls: seq<Call<F, T>>, c: nat, o: seq<Option<T>>)
    requires ValidCalls(f, calls) && c < |calls| && calls[c].AddCall?
    requires Recorded(f, calls, c)
    requires PassesThrough(Feed(f, calls)) && Placed(o, Feed(f, calls).passthrough)
    ensures Expected(f, calls, c).Some? && f.size + c < |o| && o[f.size + c] == Expected(f, calls, c)
  {
  }

  /** An accept call's slot holds its post-conversion of the lane's answer at the call's position. */
  lemma AcceptCallLands<F, T>(f: Funnel<F, T>, calls: seq<Call<F, T>>, c: nat, o: seq<Option<T>>)
    requires ValidCalls(f, calls) && c < |calls| && calls[c].AcceptCall?
    requires Recorded(f, calls, c)
    requires LaneGrew(f, Feed(f, calls), calls[c].lane, SourcesOn(calls, calls[c].lane))
    requires Placed(o, Feed(f, calls).lanes[calls[c].lane])
    ensures Expected(f, calls, c).Some? && f.size + c < |o| && o[f.size + c] == Expected(f, calls, c)
  {
  }

  /** Call c's slot in a placed output holds what `Expected` says. */
  lemma {:induction false} CallLands<F, T>(f: Funnel<F, T>, calls: seq<Call<F, T>>, c: nat, o: seq<Option<T>>)
    requires ValidCalls(f, calls) && c < |calls|
    requires PassesThrough(Feed(f, calls)) && Placed(o, Feed(f, calls).passthrough)
    requires forall l :: 0 <= l < |f.lanes| ==> Placed(o, Feed(f, calls).lanes[l])
    ensures Expected(f, calls, c).Some? && f.size + c < |o| && o[f.size + c] == Expected(f, calls, c)
  {
    FeedRecords(f, calls);
    if calls[c].AddCall? {
      AddCallLands(f, calls, c, o);
    } else {
      var l := calls[c].lane;
      FeedShape(f, calls);
      AcceptCallLands(f, calls, c, o);
    }
  }

  /**
   The funnel's promise, end to end: after a script of calls, a successful run
   holds one slot per call, in call order, each holding what that call asked for.
   */
  lemma {:induction false} RunFollowsCalls<F, T>(f: Funnel<F, T>, calls: seq<Call<F, T>>)
    requires Invariant(f) && ValidCalls(f, calls)
    ensures Invariant(Feed(f, calls))
    ensures Run(Feed(f, calls)).result.Success? ==>
      && |Run(Feed(f, calls)).result.value| == f.size + |calls|
      && forall c :: 0 <= c < |calls| ==>
           Expected(f, calls, c).Some? && Run(Feed(f, calls)).result.value[f.size + c] == Expected(f, calls, c)
  {
    FeedKeepsInvariant(f, calls);
    var g := Feed(f, calls);
    var r := Run(g).result;
    if r.Success? {
      RunPlaces(g);
      var o := r.value;
      assert Placed(o, g.passthrough);
      assert forall l :: 0 <= l < |f.lanes| ==> Placed(o, g.lanes[l]);
      forall c | 0 <= c < |calls|
        ensures Expected(f, calls, c).Some? && o[f.size + c] == Expected(f, calls, c)
      {
        CallLands(f, calls, c, o);
      }
    }
  }
}
