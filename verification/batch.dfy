/**
 One lane of a funnel (Java's `Funnel.Batch` with its `Indexed` records): the
 lane's batch converter and the inputs accepted on it so far, each tagged with
 the global index it received and the post-conversion to apply to its result.
 */
module Batches {
  import opened Results
  import opened Slots

  /** The exceptions the funnel throws. */
  datatype Error =
    | NullPointer                               // requireNonNull on a converter, input or post-conversion
    | SizeMismatch(expected: nat, actual: nat)  // a converter returned the wrong number of results

  /** An accepted input: its global index, the input itself and its post-conversion. */
  datatype Indexed<F, !T> = Indexed(index: nat, value: F, post: T -> T)

  /** A lane: the batch converter and the records in the order `accept` saw them. */
  datatype Batch<!F, !T> = Batch(converter: seq<F> -> seq<T>, sources: seq<Indexed<F, T>>)

  /** The global indices of `recs`, in record order. */
  function IndexList<F, T>(recs: seq<Indexed<F, T>>): seq<nat>
  {
    seq(|recs|, i requires 0 <= i < |recs| => recs[i].index)
  }

  /** Every record of `recs` names a slot of an output of length `n`. */
  predicate Fits<F, T>(recs: seq<Indexed<F, T>>, n: nat)
  {
    forall i :: 0 <= i < |recs| ==> recs[i].index < n
  }

  lemma IndexListMember<F, T>(recs: seq<Indexed<F, T>>)
    ensures forall i :: 0 <= i < |recs| ==> recs[i].index in IndexList(recs)
  {
    forall i | 0 <= i < |recs|
      ensures recs[i].index in IndexList(recs)
    {
      assert IndexList(recs)[i] == recs[i].index;
    }
  }

  /** The inputs handed to the converter: the lane's records' values, in accept order. */
  function Inputs<F, T>(b: Batch<F, T>): seq<F>
  {
    seq(|b.sources|, i requires 0 <= i < |b.sources| => b.sources[i].value)
  }

  /** What the lane's converter returns when it is called on the lane's inputs. */
  function Converted<F, T>(b: Batch<F, T>): seq<T>
  {
    b.converter(Inputs(b))
  }

  /** The lane passes the cardinality check: it is skipped, or its converter returns one result per input. */
  predicate Conforms<F, T>(b: Batch<F, T>)
  {
    |b.sources| == 0 || |Converted(b)| == |b.sources|
  }

  /** The exception `convertInto` throws for this lane when it does not conform. */
  function Mismatch<F, T>(b: Batch<F, T>): Error
  {
    SizeMismatch(|b.sources|, |Converted(b)|)
  }

  /**
   Records `source` under global index `index` (the `Indexed` constructor plus
   `indexedSources.add`). A null input or post-conversion is rejected and the
   lane is left as it was.
   */
  function Append<F, T>(b: Batch<F, T>, index: nat, source: Option<F>, post: Option<T -> T>): (r: Result<Batch<F, T>, Error>)
    ensures r.Success? <==> source.Some? && post.Some?
    ensures r.Failure? ==> r.error == NullPointer
    ensures r.Success? ==> r.value.converter == b.converter
    ensures r.Success? ==> r.value.sources == b.sources + [Indexed(index, source.value, post.value)]
    ensures r.Success? ==> Inputs(r.value) == Inputs(b) + [source.value]
    ensures r.Success? ==> IndexList(r.value.sources) == IndexList(b.sources) + [index]
  {
    if source.None? || post.None? then
      Failure(NullPointer)
    else
      var b' := b.(sources := b.sources + [Indexed(index, source.value, post.value)]);
      assert Inputs(b') == Inputs(b) + [source.value];
      assert IndexList(b'.sources) == IndexList(b.sources) + [index];
      Success(b')
  }

  /**
   The write loop of `convertInto`: for i = 0, 1, ..., sets slot `recs[i].index`
   of `out` to the i-th record's post-conversion of the i-th result.
   */
  function Scatter<F, T>(out: seq<Option<T>>, recs: seq<Indexed<F, T>>, results: seq<T>): (o: seq<Option<T>>)
    requires |results| == |recs|
    requires Fits(recs, |out|)
    ensures |o| == |out|
    decreases |recs|
  {
    if |recs| == 0 then
      out
    else
      Scatter(out[recs[0].index := Some(recs[0].post(results[0]))], recs[1..], results[1..])
  }

  /**
   The write loop touches only the slots its records name, and, when no two
   records name the same slot, leaves each record's result in its slot: no
   later write overwrites an earlier one.
   */
  lemma {:induction false} ScatterWrites<F, T>(out: seq<Option<T>>, recs: seq<Indexed<F, T>>, results: seq<T>)
    requires |results| == |recs|
    requires Fits(recs, |out|)
    ensures forall k :: 0 <= k < |out| && k !in IndexList(recs) ==> Scatter(out, recs, results)[k] == out[k]
    ensures Distinct(IndexList(recs)) ==>
      forall i :: 0 <= i < |recs| ==> Scatter(out, recs, results)[recs[i].index] == Some(recs[i].post(results[i]))
    decreases |recs|
  {
    if |recs| > 0 {
      var next := out[recs[0].index := Some(recs[0].post(results[0]))];
      assert IndexList(recs) == [recs[0].index] + IndexList(recs[1..]);
      DistinctSplit([recs[0].index], IndexList(recs[1..]));
      ScatterWrites(next, recs[1..], results[1..]);
      if Distinct(IndexList(recs)) {
        forall i | 0 <= i < |recs|
          ensures Scatter(out, recs, results)[recs[i].index] == Some(recs[i].post(results[i]))
        {
          if i > 0 {
            assert recs[1..][i - 1] == recs[i];
          } else {
            assert recs[0].index !in IndexList(recs[1..]);
          }
        }
      }
    }
  }

  /** `convertInto` calls the lane's converter: it holds records (a lane without any is returned from early). */
  predicate CallsConverter<F, T>(b: Batch<F, T>)
  {
    |b.sources| > 0
  }

  /** What `convertInto` adds to a call log for the lane at registration position pos: pos if it called the converter. */
  function CallLog<F, T>(b: Batch<F, T>, pos: nat): seq<nat>
  {
    if CallsConverter(b) then [pos] else []
  }

  /**
   Java's `convertInto`: a lane without records leaves the output alone and never
   calls its converter; otherwise the converter is called once on the lane's
   inputs, a result count that differs from the input count is an error, and
   each result is written, post-converted, into the slot of its record's index.
   */
  function ConvertInto<F, T>(b: Batch<F, T>, out: seq<Option<T>>): (r: Result<seq<Option<T>>, Error>)
    requires Fits(b.sources, |out|)
    ensures |b.sources| == 0 ==> r == Success(out)
    ensures r.Success? <==> Conforms(b)
    ensures r.Failure? ==> r.error == Mismatch(b)
    ensures r.Success? ==> |r.value| == |out|
  {
    if !CallsConverter(b) then
      Success(out)
    else
      var params := Inputs(b);
      var results := b.converter(params);
      if |params| != |results| then
        Failure(SizeMismatch(|params|, |results|))
      else
        Success(Scatter(out, b.sources, results))
  }

  /**
   Every record of `b` has its post-converted result in `o`, in the slot of the
   record's global index: the i-th record gets its post-conversion of the i-th
   element of the converter's answer.
   */
  ghost predicate Placed<F, T>(o: seq<Option<T>>, b: Batch<F, T>)
  {
    && Conforms(b)
    && forall i :: 0 <= i < |b.sources| ==>
         b.sources[i].index < |o| && o[b.sources[i].index] == Some(b.sources[i].post(Converted(b)[i]))
  }

  /** Placements survive any change that keeps the slots the records name. */
  lemma PlacedKept<F, T>(o: seq<Option<T>>, o': seq<Option<T>>, b: Batch<F, T>)
    requires Placed(o, b)
    requires |o'| == |o|
    requires forall k :: 0 <= k < |o| && k in IndexList(b.sources) ==> o'[k] == o[k]
    ensures Placed(o', b)
  {
    IndexListMember(b.sources);
  }

  /**
   A successful `convertInto` writes only the slots its own records name, and,
   when those are distinct, places every record's result.
   */
  lemma ConvertIntoWrites<F, T>(b: Batch<F, T>, out: seq<Option<T>>)
    requires Fits(b.sources, |out|)
    ensures ConvertInto(b, out).Success? ==>
      forall k :: 0 <= k < |out| && k !in IndexList(b.sources) ==> ConvertInto(b, out).value[k] == out[k]
    ensures ConvertInto(b, out).Success? && Distinct(IndexList(b.sources)) ==> Placed(ConvertInto(b, out).value, b)
  {
    if |b.sources| > 0 && Conforms(b) {
      ScatterWrites(out, b.sources, Converted(b));
    }
  }
}
