/**
 A worked instance of the merge: a funnel over values that are numbers or text,
 a lane that doubles integers, a lane that renders integers in decimal, and
 four interleaved calls whose results come back in call order.
 */
module MergeScenario {
  import opened Results
  import opened Batches
  import opened Funnels
  import opened Scripts

  datatype Val = Num(n: int) | Text(s: string)

  /** Decimal rendering of an integer, with a leading '-' for negatives. */
  function Decimal(n: int): (s: string)
    ensures |s| > 0
    decreases if n < 0 then 1 - n else n
  {
    if n < 0 then "-" + Decimal(-n)
    else if n < 10 then ["0123456789"[n]]
    else Decimal(n / 10) + ["0123456789"[n % 10]]
  }

  /** Lane A's converter: doubles each input. */
  function Doubled(xs: seq<int>): (ys: seq<Val>)
    ensures |ys| == |xs| && forall i :: 0 <= i < |xs| ==> ys[i] == Num(2 * xs[i])
  {
    seq(|xs|, i requires 0 <= i < |xs| => Num(2 * xs[i]))
  }

  /** Lane B's converter: renders each input in decimal. */
  function Stringified(xs: seq<int>): (ys: seq<Val>)
    ensures |ys| == |xs| && forall i :: 0 <= i < |xs| ==> ys[i] == Text(Decimal(xs[i]))
  {
    seq(|xs|, i requires 0 <= i < |xs| => Text(Decimal(xs[i])))
  }

  /** A fresh funnel with lane A (handle 0) and lane B (handle 1) registered. */
  function Registered(): (f: Funnel<int, Val>)
    ensures Invariant(f) && f.size == 0
    ensures |f.lanes| == 2 && f.lanes[0] == Batch(Doubled, []) && f.lanes[1] == Batch(Stringified, [])
  {
    var f0 := New<int, Val>();
    var a := Through(f0, Some(Doubled));
    ThroughKeepsInvariant(f0, Some(Doubled));
    var b := Through(a.value.0, Some(Stringified));
    ThroughKeepsInvariant(a.value.0, Some(Stringified));
    b.value.0
  }

  /** `A.accept(1)`, `add("x")`, `B.accept(2)`, `A.accept(3)`. */
  function Script(): seq<Call<int, Val>>
  {
    [AcceptCall(0, 1, Id), AddCall(Text("x")), AcceptCall(1, 2, Id), AcceptCall(0, 3, Id)]
  }

  /** Lane A receives 1 then 3, lane B receives 2, and the one add comes second. */
  lemma ScriptInputs()
    ensures SourcesOn(Script(), 0) == [1, 3] && SourcesOn(Script(), 1) == [2]
    ensures Added(Script()) == [Text("x")]
    ensures SourcesOn(Script()[..3], 0) == [1] && SourcesOn(Script()[..2], 1) == []
    ensures SourcesOn(Script()[..0], 0) == [] && Added(Script()[..1]) == []
  {
    var calls := Script();
    assert calls[..0] == [] && calls[..1][..0] == [];
    assert calls[..2][..1] == calls[..1] && calls[..3][..2] == calls[..2] && calls[..4] == calls;
    assert calls[..|calls| - 1] == calls[..3];
    assert SourcesOn(calls[..1], 0) == [1] && SourcesOn(calls[..1], 1) == [] && Added(calls[..1]) == [];
    assert SourcesOn(calls[..2], 0) == [1] && SourcesOn(calls[..2], 1) == [] && Added(calls[..2]) == [Text("x")];
    assert SourcesOn(calls[..3], 0) == [1] && SourcesOn(calls[..3], 1) == [2] && Added(calls[..3]) == [Text("x")];
  }

  /** The funnel the scenario starts from: lanes A and B registered, nothing accepted yet. */
  ghost predicate Ready(f: Funnel<int, Val>)
  {
    && Invariant(f) && f.size == 0 && |f.passthrough.sources| == 0
    && |f.lanes| == 2 && f.lanes[0] == Batch(Doubled, []) && f.lanes[1] == Batch(Stringified, [])
  }

  /** After the script, both lanes and the passthrough answer with as many results as they received inputs. */
  lemma ScriptConforms(f: Funnel<int, Val>, calls: seq<Call<int, Val>>)
    requires Ready(f) && calls == Script()
    ensures ValidCalls(f, calls)
    ensures Invariant(Feed(f, calls))
    ensures Conforms(Feed(f, calls).passthrough)
    ensures AllConform(Feed(f, calls).lanes)
  {
    assert ValidCalls(f, calls);
    FeedKeepsInvariant(f, calls);
    FeedShape(f, calls);
    var g := Feed(f, calls);
    // Both converters preserve length on every input, so the inputs themselves do not matter.
    assert LaneGrew(f, g, 0, SourcesOn(calls, 0)) && Conforms(g.lanes[0]);
    assert LaneGrew(f, g, 1, SourcesOn(calls, 1)) && Conforms(g.lanes[1]);
    AllConformEach(g.lanes);
  }

  /** `A.accept(1)` asks for lane A's first answer, 2. */
  lemma FirstExpected(f: Funnel<int, Val>, calls: seq<Call<int, Val>>)
    requires Ready(f) && calls == Script()
    ensures ValidCalls(f, calls)
    ensures Expected(f, calls, 0) == Some(Num(2))
  {
    assert ValidCalls(f, calls);
    assert calls[0] == AcceptCall(0, 1, Id);
    var answer := Doubled([1, 3]);
    assert answer == f.lanes[0].converter(Inputs(f.lanes[0]) + SourcesOn(calls, 0)) by {
      ScriptInputs();
      assert Inputs(f.lanes[0]) + SourcesOn(calls, 0) == [1, 3];
    }
    assert 0 == |f.lanes[0].sources| + |SourcesOn(calls[..0], 0)| by {
      ScriptInputs();
    }
    ExpectedAccept(f, calls, 0, 0, 1, Id, answer, 0);
  }

  /** `A.accept(3)` asks for lane A's second answer, 6. */
  lemma LastExpected(f: Funnel<int, Val>, calls: seq<Call<int, Val>>)
    requires Ready(f) && calls == Script()
    ensures ValidCalls(f, calls)
    ensures Expected(f, calls, 3) == Some(Num(6))
  {
    assert ValidCalls(f, calls);
    assert calls[3] == AcceptCall(0, 3, Id);
    var answer := Doubled([1, 3]);
    assert answer == f.lanes[0].converter(Inputs(f.lanes[0]) + SourcesOn(calls, 0)) by {
      ScriptInputs();
      assert Inputs(f.lanes[0]) + SourcesOn(calls, 0) == [1, 3];
    }
    assert 1 == |f.lanes[0].sources| + |SourcesOn(calls[..3], 0)| by {
      ScriptInputs();
    }
    ExpectedAccept(f, calls, 3, 0, 3, Id, answer, 1);
  }

  /** `add("x")` asks for "x" itself. */
  lemma AddExpected(f: Funnel<int, Val>, calls: seq<Call<int, Val>>)
    requires Ready(f) && calls == Script()
    ensures ValidCalls(f, calls)
    ensures Expected(f, calls, 1) == Some(Text("x"))
  {
  }

  /** Lane B renders 2 as "2". */
  lemma StringifiedTwo()
    ensures Stringified([2]) == [Text("2")]
  {
  }

  /** `B.accept(2)` asks for lane B's only answer, "2". */
  lemma LaneBExpected(f: Funnel<int, Val>, calls: seq<Call<int, Val>>)
    requires Ready(f) && calls == Script()
    ensures ValidCalls(f, calls)
    ensures Expected(f, calls, 2) == Some(Text("2"))
  {
    assert ValidCalls(f, calls);
    assert calls[2] == AcceptCall(1, 2, Id);
    var answer := [Text("2")];
    assert Inputs(f.lanes[1]) + SourcesOn(calls, 1) == [2] by {
      ScriptInputs();
    }
    assert answer == f.lanes[1].converter([2]) by {
      StringifiedTwo();
    }
    assert 0 == |f.lanes[1].sources| + |SourcesOn(calls[..2], 1)| by {
      ScriptInputs();
    }
    ExpectedAccept(f, calls, 2, 1, 2, Id, answer, 0);
  }

  /** Running the scenario yields 2, "x", "2", 6, in call order. */
  lemma MergeKeepsCallOrder(f: Funnel<int, Val>, calls: seq<Call<int, Val>>)
    requires Ready(f) && calls == Script()
    ensures ValidCalls(f, calls)
    ensures Invariant(Feed(f, calls))
    ensures Run(Feed(f, calls)).result == Success([Some(Num(2)), Some(Text("x")), Some(Text("2")), Some(Num(6))])
  {
    ScriptConforms(f, calls);
    RunFollowsCalls(f, calls);
    var r := Run(Feed(f, calls)).result;
    assert r.Success?;
    var o := r.value;
    assert |o| == 4;
    assert o[0] == Some(Num(2)) by { FirstExpected(f, calls); }
    assert o[1] == Some(Text("x")) by { AddExpected(f, calls); }
    assert o[2] == Some(Text("2")) by { LaneBExpected(f, calls); }
    assert o[3] == Some(Num(6)) by { LastExpected(f, calls); }
    assert o == [o[0], o[1], o[2], o[3]];
  }

  /** The funnel built by `New` and two `through` calls is ready for the scenario. */
  lemma RegisteredIsReady()
    ensures Ready(Registered())
  {
  }
}
