# Funnel: order-preserving batch conversion, in Dafny

This project models `org.mu.util.Funnel`. A funnel collects inputs through several
lanes ("batches"). Each lane has its own batch converter, a function from a list of
inputs to a list of results. `run` then calls, once, the converter of every lane
that holds inputs, on all that lane's inputs; a lane without inputs is skipped.
It merges the results into one list, in the order the inputs were accepted,
whatever lane they came through. `add` puts an element straight
into the output, through an implicit identity lane that the funnel registers
first.

The model is purely functional:

- `Batches.Batch` is a lane: its converter and its records (`Indexed`: global
  index, input, post-conversion).
- `Funnels.Funnel` is the counter `size`, the identity lane `passthrough`, and
  the lanes registered by `through`, in registration order.
- `accept` and `add` return the new state and the exception they throw, if
  any (`Step`). `through` returns a `Result`: the new funnel and the lane's
  handle, or the exception. `run` returns the output or its exception. It also
  returns the registration positions of the lanes whose converter it called
  (`Outcome.invoked`), so "skipped", "at most once" and "in order" can be stated.
- A Java `null` is `Option.None`. A null output slot is `None`.
- Exceptions are `Error`: `NullPointer` for `requireNonNull`, and
  `SizeMismatch(expected, actual)` for the `IllegalStateException` of the
  cardinality check.

Files:

- `results.dfy`: `Option` and `Result`.
- `slots.dfy`: facts about output slot numbers. These are `Range(n)` = 0..n-1,
  distinctness, and the multiset counting used for the index invariant.
- `batch.dfy`: a lane. It covers `accept`'s record-keeping and `convertInto`.
- `funnel.dfy`: the funnel. It covers `new`, `through`, `accept`, `add` and
  `run`, the index invariant and its preservation, and the properties of `run`.
- `script.dfy`: a client feeding a funnel a sequence of `add`/`accept` calls, and
  the end-to-end order theorem.
- `scenario.dfy`: a worked instance. One lane doubles numbers and one renders
  them in decimal. The calls `A.accept(1)`, `add("x")`, `B.accept(2)`,
  `A.accept(3)` yield `2, "x", "2", 6`.

Index invariant. Every reachable funnel is `WellIndexed`: the recorded global
indices, taken as a multiset, are contained in `{0, ..., size-1}`. So they are
distinct and below `size`. While no accept has been rejected, the funnel is
`FullyIndexed`: the indices are exactly `0..size-1`.

## Model

| member | source | states |
|---|---|---|
| Batches.Append | core/src/main/java/org/mu/util/Funnel.java:124-128 | Recording an input succeeds iff the input and the post-conversion are both non-null. A null one throws NullPointer and records nothing. On success the record (index, input, post) is appended after all earlier records, the converter is kept, and the lane's input list grows by exactly that input. |
| Batches.Scatter | core/src/main/java/org/mu/util/Funnel.java:84-87 | The write loop of `convertInto` keeps the output's length: it writes into existing slots and never appends. |
| Batches.ScatterWrites | core/src/main/java/org/mu/util/Funnel.java:84-87 | The write loop leaves every slot that no record names untouched. When the record indices are distinct, slot `recs[i].index` ends up holding the i-th record's post-conversion of the i-th result, so no later write overwrites an earlier one. |
| Batches.ConvertInto | core/src/main/java/org/mu/util/Funnel.java:71-88 | A lane without records returns the output unchanged. Otherwise the call succeeds iff the converter returns as many results as it got inputs. A mismatch throws SizeMismatch(number of inputs, number of results) and gives no output. Success keeps the output length. |
| Batches.ConvertIntoWrites | core/src/main/java/org/mu/util/Funnel.java:84-87 | A successful `convertInto` changes no slot outside its own records' indices. With distinct indices it places every record's post-converted result in that record's slot. |
| Funnels.New | core/src/main/java/org/mu/util/Funnel.java:41-43 | A new funnel has size 0, no `through` lanes and an empty identity passthrough lane, and is fully indexed. |
| Funnels.Through | core/src/main/java/org/mu/util/Funnel.java:95-100 | A null converter throws NullPointer and registers nothing. Otherwise exactly one empty lane with that converter is appended after the existing lanes. Size and passthrough are unchanged, and the returned handle is the new lane's position. |
| Funnels.Accept | core/src/main/java/org/mu/util/Funnel.java:67-69 | Size goes up by one whether or not the call throws. The call throws NullPointer iff the input or the post-conversion is null, and then no lane changes. Otherwise the record (old size, input, post) is appended to the target lane. No other lane and not the passthrough changes. |
| Funnels.AcceptAsIs | core/src/main/java/org/mu/util/Funnel.java:58-60 | `accept(source)` is `accept` with the identity post-conversion. Size goes up by one even for a null input. A null input throws NullPointer and changes no lane. Otherwise the target lane keeps its converter and earlier records and gains the record (old size, input, identity). The passthrough and every other lane stay as they were. |
| Funnels.Add | core/src/main/java/org/mu/util/Funnel.java:103-105 | `add` appends (old size, element, identity) to the passthrough lane and leaves the `through` lanes unchanged. A null element throws NullPointer and still bumps size. |
| Funnels.ConvertAll | core/src/main/java/org/mu/util/Funnel.java:113-115 | The lane loop returns a list iff every lane passes the cardinality check. The list has the length of the output it was given. |
| Funnels.ConvertAllCallsLoaded | core/src/main/java/org/mu/util/Funnel.java:72-74 | The lane loop calls a converter only for a lane that holds records. An empty lane is skipped. |
| Funnels.ConvertAllCallsInOrder | core/src/main/java/org/mu/util/Funnel.java:113-115 | The lane loop calls converters in strictly increasing registration order, so each at most once. |
| Funnels.ConvertAllCallsEveryLoadedLane | core/src/main/java/org/mu/util/Funnel.java:113-115 | A lane loop that completes has called the converter of every lane holding records. |
| Funnels.ConvertAllFrame | core/src/main/java/org/mu/util/Funnel.java:84-87 | A lane loop that completes leaves every slot that no lane's record names as it was. |
| Funnels.ConvertAllStops | core/src/main/java/org/mu/util/Funnel.java:72-83 | A failing lane loop stops at the first non-conforming lane and throws that lane's SizeMismatch. That lane is the last one whose converter ran, and every lane holding records up to it had its converter called. |
| Funnels.ConvertAllPlaces | core/src/main/java/org/mu/util/Funnel.java:84-87 | Over distinct indices, a lane loop that completes leaves every record of every lane placed in its slot. |
| Funnels.WellIndexedFacts | core/src/main/java/org/mu/util/Funnel.java:68 | In a well-indexed funnel every record index is below `size`. No two records share an index, within or across lanes, the passthrough included. |
| Funnels.Run | core/src/main/java/org/mu/util/Funnel.java:111-117 | `run` returns a list iff the passthrough and every `through` lane pass the cardinality check. The list has exactly `size` slots. |
| Funnels.RunCalls | core/src/main/java/org/mu/util/Funnel.java:111-117 | `run` calls converters in registration order, each at most once, and never for a lane without records. When it returns a list, it has called every lane with records. |
| Funnels.RunStops | core/src/main/java/org/mu/util/Funnel.java:111-117 | A `run` that throws throws the SizeMismatch of the first lane, in registration order, whose converter broke the cardinality contract. Every earlier lane conforms, every earlier lane holding records had its converter called, and no converter after that lane's runs. |
| Funnels.RunPlaces | core/src/main/java/org/mu/util/Funnel.java:107-116 | Order preservation: when `run` returns a list, each record of each lane holds the record's post-conversion of the converter's answer at that record's position, in the slot of its global index. A slot that no record names is null. |
| Funnels.RunFillsEverySlot | core/src/main/java/org/mu/util/Funnel.java:112-116 | If no accept was rejected, a successful `run` has no null slot. |
| Funnels.ThroughKeepsInvariant | core/src/main/java/org/mu/util/Funnel.java:95-100 | `through` records no index and keeps the funnel well-indexed, with an identity passthrough, and fully indexed. |
| Funnels.ThroughKeepsRun | core/src/main/java/org/mu/util/Funnel.java:95-100 | A freshly registered, empty lane changes neither what `run` returns nor the converters it calls. |
| Funnels.AcceptKeepsInvariant | core/src/main/java/org/mu/util/Funnel.java:68 | An accepted input adds exactly the old size to the recorded indices (as a multiset). A rejected one adds none. Well-indexing is kept either way. A fully indexed funnel stays fully indexed iff the input is accepted. |
| Funnels.AddKeepsInvariant | core/src/main/java/org/mu/util/Funnel.java:103-105 | The same index discipline for `add`: the element takes index old size, or a null element consumes the index unrecorded. |
| Funnels.AcceptedResultLands | core/src/main/java/org/mu/util/Funnel.java:67-69 | After `accept(x, p)`, a successful `run` holds `p(y)` in slot old size. Here `y` is the lane converter's answer, on the lane's inputs with x appended, at x's position. |
| Funnels.AcceptedAsIsLands | core/src/main/java/org/mu/util/Funnel.java:58-60 | After `accept(x)`, a successful `run` holds the lane converter's answer itself in slot old size, unchanged by any post-conversion. The answer is taken on the lane's inputs with x appended, at x's position. |
| Funnels.AddedElementVerbatim | core/src/main/java/org/mu/util/Funnel.java:102-105 | After `add(x)`, a successful `run` holds x itself in slot old size. |
| Funnels.RejectedAcceptLeavesNull | core/src/main/java/org/mu/util/Funnel.java:68 | A rejected accept consumes slot old size without recording it, so a successful `run` leaves that slot null. |
| Funnels.RejectedAddLeavesNull | core/src/main/java/org/mu/util/Funnel.java:103-105 | The same for `add(null)`. |
| Scripts.Feed | core/src/main/java/org/mu/util/Funnel.java:23-31 | Feeding a sequence of calls bumps size once per call and keeps the number of lanes. |
| Scripts.FeedShape | core/src/main/java/org/mu/util/Funnel.java:67-69 | Feeding calls only appends. Converters and earlier records stay. Each lane's input list grows by exactly the inputs of the accept calls on that lane, in call order. The passthrough grows by exactly the added elements. |
| Scripts.FeedRecords | core/src/main/java/org/mu/util/Funnel.java:68 | Call c's record carries index `size + c`. It sits at position (earlier records + earlier calls on the same lane) of its lane. |
| Scripts.FeedKeepsInvariant | core/src/main/java/org/mu/util/Funnel.java:68 | A script of non-null calls keeps the invariant, and keeps a fully indexed funnel fully indexed. |
| Scripts.RunFollowsCalls | core/src/main/java/org/mu/util/Funnel.java:35-37 | End-to-end order preservation: after any interleaving of non-null `add` and `accept` calls on lanes registered up front, a successful `run` has one slot per call, in call order. Slot `size + c` holds what call c asked for. For `add` that is the element verbatim. For `accept` it is the call's post-conversion of its lane converter's answer, at the call's position among all that lane's inputs. |
| MergeScenario.MergeKeepsCallOrder | core/src/main/java/org/mu/util/Funnel.java:19-33 | With a doubling lane A and a decimal lane B, the calls `A.accept(1)`, `add("x")`, `B.accept(2)`, `A.accept(3)` make `run` return exactly `[2, "x", "2", 6]`. |

## Left out

- Funnels.Accept: does not model the 32-bit wrap-around of `size` after 2^31-1 accepts, because `size` is an unbounded `nat`. The Java counter would overflow to a negative index, which makes `run` fail.
- Funnels.Funnel: all `through` lanes share one input type F. Java lets each lane have its own input type. Every property here is per lane and does not depend on lanes sharing a type.
- The passthrough lane is a field of its own rather than element 0 of the lane list. `run` converts it first, as Java does, and `invoked` position 0 names it.
- Batches.ConvertInto: converters are total functions from a list to a list. An exception thrown by a converter, its side effects, a null collection it returns, and the order in which a non-list `Collection` iterates are not modelled. A `Collection` result is taken as the list of its elements in iteration order.
- Batches.Indexed: post-conversions return a value. A post-conversion or converter result that is `null` is not modelled, so every written slot is `Some`.
- `Error.SizeMismatch` keeps the two counts, not the text of the exception message, which also prints the converter, the inputs and the results.
- Calling `run` again and concurrent use of one funnel are not modelled. `run` here is a pure function of the funnel state.
- Scripts.RunFollowsCalls: holds for scripts of non-null `add` and `accept` calls on lanes registered before the first call, the scripts `Scripts.Feed` runs; other interleavings are covered one call at a time, as the next line says.
- Scripts.Feed: covers non-null calls on lanes registered up front. Null calls, and `through` interleaved with accepts, are covered one call at a time by `Funnels.RejectedAcceptLeavesNull`, `Funnels.RejectedAddLeavesNull` and `Funnels.ThroughKeepsRun`.
- Funnels.Accept, Funnels.Add: a null input or post-conversion throws `NullPointerException` from the `Indexed` constructor (core/src/main/java/org/mu/util/Funnel.java:126-127) after `funnel.size++` (core/src/main/java/org/mu/util/Funnel.java:68) has already run. So a rejected `accept` or `add` consumes an index, and its slot in `run`'s output stays `null`. The model keeps this behaviour (`Funnels.RejectedAcceptLeavesNull`, `Funnels.RejectedAddLeavesNull`) and does not claim the funnel is unchanged. `through(null)` does leave the funnel unchanged, because `Batch`'s constructor throws (core/src/main/java/org/mu/util/Funnel.java:54) before the lane is added.
