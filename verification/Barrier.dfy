/** The callback barrier: fire one callback once every slot has a value
    (include/bsrvcore/core/async_waiter.h). Each locked section is one step, so a run is an arbitrary
    interleaving of `OnReady` and `Fulfill` calls. */
module Barrier {
  import opened Text

  datatype Step<T> = OnReady(callback: Option<nat>) | Fulfill(index: nat, value: T)

  /** A callback run: which one, and the values in slot order. */
  datatype Fire<T> = Fire(callback: nat, values: seq<T>)

  function Unready(ready: seq<bool>): nat {
    if ready == [] then 0 else (if ready[0] then 0 else 1) + Unready(ready[1..])
  }

  // ----- what a history of calls amounts to -----

  /** The value of the first `Fulfill` of slot `i`. */
  function First<T>(steps: seq<Step<T>>, i: nat): Option<T> {
    if steps == [] then None
    else
      var earlier := First(steps[..|steps| - 1], i);
      var last := steps[|steps| - 1];
      if earlier.Some? then earlier else if last.Fulfill? && last.index == i then Some(last.value) else None
  }

  /** The callback of the latest `OnReady`, unless it was empty. */
  function Latest<T>(steps: seq<Step<T>>): Option<nat> {
    if steps == [] then None
    else
      var last := steps[|steps| - 1];
      if last.OnReady? then last.callback else Latest(steps[..|steps| - 1])
  }

  ghost predicate AllFirst<T>(n: nat, steps: seq<Step<T>>) {
    forall i :: 0 <= i < n ==> First(steps, i).Some?
  }

  /** Every slot has a value and a callback is set. */
  ghost predicate Complete<T>(n: nat, steps: seq<Step<T>>) {
    AllFirst(n, steps) && Latest(steps).Some?
  }

  ghost function Firsts<T>(n: nat, steps: seq<Step<T>>): (vs: seq<T>)
    requires AllFirst(n, steps)
    ensures |vs| == n && forall i :: 0 <= i < n ==> Some(vs[i]) == First(steps, i)
  {
    seq(n, i requires 0 <= i < n => First(steps, i).value)
  }

  /** What the barrier is for: it fires once, at the first point of the history that is complete, the
      callback set by then with the first value of every slot in slot order. */
  ghost function Expected<T>(n: nat, steps: seq<Step<T>>): Option<Fire<T>> {
    if steps == [] then None
    else
      var before := Expected(n, steps[..|steps| - 1]);
      if before.Some? then before
      else if Complete(n, steps) then Some(Fire(Latest(steps).value, Firsts(n, steps)))
      else None
  }

  // ----- the waiter -----

  class AsyncSameTypeWaiter<T> {
    var fired: bool
    var remaining: nat
    var slotReady: seq<bool>
    var values: seq<Option<T>>
    var callback: Option<nat>
    /** The callbacks run so far. */
    var fires: seq<Fire<T>>
    /** The calls so far. */
    ghost var history: seq<Step<T>>

    ghost predicate Valid()
      reads this
    {
      && |slotReady| == |values|
      && remaining == Unready(slotReady)
      && (!fired ==>
            && (forall i :: 0 <= i < |values| ==> values[i] == First(history, i) && slotReady[i] == values[i].Some?)
            && callback == Latest(history))
      && fired == Expected(|values|, history).Some?
      && fires == (if fired then [Expected(|values|, history).value] else [])
    }

    constructor (n: nat)
      ensures Valid() && |values| == n && history == [] && remaining == n
    {
      fired, remaining, callback, fires, history := false, n, None, [], [];
      slotReady, values := seq(n, _ => false), seq(n, _ => None);
      new;
      AllUnready(slotReady);
      if n == 0 { assert slotReady == []; }
    }

    /** Run the callback if nothing is missing any more. */
    method TakeCompletion(ghost step: Step<T>)
      requires !fired && |slotReady| == |values| && remaining == Unready(slotReady) && fires == []
      requires history != [] && step == history[|history| - 1] && Expected(|values|, history[..|history| - 1]) == None
      requires forall i :: 0 <= i < |values| ==> values[i] == First(history, i) && slotReady[i] == values[i].Some?
      requires callback == Latest(history)
      modifies this`fired, this`callback, this`fires
      ensures Valid()
    {
      NoneUnready(slotReady);
      if remaining != 0 || callback.None? {
        if remaining != 0 {
          var i :| 0 <= i < |slotReady| && !slotReady[i];
          assert First(history, i).None?;
        }
        return;
      }
      assert AllFirst(|values|, history);
      var readyValues := [];
      for i := 0 to |values|
        invariant |readyValues| == i && forall k :: 0 <= k < i ==> Some(readyValues[k]) == values[k]
      {
        assert values[i].Some?;
        readyValues := readyValues + [values[i].value];
      }
      assert readyValues == Firsts(|values|, history);
      fired := true;
      fires := [Fire(callback.value, readyValues)];
      callback := None;
    }

    /** Set or replace the callback. */
    method OnReady(cb: Option<nat>)
      requires Valid()
      modifies this
      ensures Valid() && history == old(history) + [Step.OnReady(cb)] && |values| == old(|values|)
    {
      ghost var step := Step<T>.OnReady(cb);
      HistorySnoc(history, step, |values|);
      history := history + [step];
      if fired {
        return;
      }
      callback := cb;
      TakeCompletion(step);
    }

    /** Give slot `index` its value; later values for it and unknown slots are ignored. */
    method Fulfill(index: nat, value: T)
      requires Valid()
      modifies this
      ensures Valid() && history == old(history) + [Step.Fulfill(index, value)] && |values| == old(|values|)
    {
      ghost var step := Step<T>.Fulfill(index, value);
      ghost var old_values := values;
      HistorySnoc(history, step, |values|);
      if fired || index >= |slotReady| || slotReady[index] {
        if !fired { IgnoredFulfill(history, index, value, |values|); }
        history := history + [step];
        return;
      }
      MarkReady(slotReady, index);
      history := history + [step];
      values := values[index := Some(value)];
      slotReady := slotReady[index := true];
      remaining := remaining - 1;
      TakeCompletion(step);
    }
  }

  lemma {:induction false} AllUnready(ready: seq<bool>)
    requires forall i :: 0 <= i < |ready| ==> !ready[i]
    ensures Unready(ready) == |ready|
  {
    if ready != [] { AllUnready(ready[1..]); }
  }

  lemma {:induction false} NoneUnready(ready: seq<bool>)
    ensures Unready(ready) == 0 <==> forall i :: 0 <= i < |ready| ==> ready[i]
  {
    if ready != [] {
      NoneUnready(ready[1..]);
      assert forall i :: 0 < i < |ready| ==> ready[i] == ready[1..][i - 1];
    }
  }

  lemma {:induction false} MarkReady(ready: seq<bool>, i: nat)
    requires i < |ready| && !ready[i]
    ensures Unready(ready) == Unready(ready[i := true]) + 1
  {
    if i > 0 {
      assert ready[i := true][1..] == ready[1..][i - 1 := true];
      MarkReady(ready[1..], i - 1);
    } else {
      assert ready[i := true][1..] == ready[1..];
    }
  }

  /** One more call: the first values, the latest callback and the expected fire. */
  lemma {:induction false} HistorySnoc<T>(steps: seq<Step<T>>, step: Step<T>, n: nat)
    ensures (steps + [step])[..|steps|] == steps
    ensures forall i :: First(steps + [step], i) ==
              if First(steps, i).Some? then First(steps, i)
              else if step.Fulfill? && step.index == i then Some(step.value) else None
    ensures Latest(steps + [step]) == if step.OnReady? then step.callback else Latest(steps)
    ensures Expected(n, steps).Some? ==> Expected(n, steps + [step]) == Expected(n, steps)
  {
  }

  lemma {:induction false} IgnoredFulfill<T>(steps: seq<Step<T>>, index: nat, value: T, n: nat)
    requires Expected(n, steps) == None && (index >= n || First(steps, index).Some?)
    ensures Expected(n, steps + [Step.Fulfill(index, value)]) == None
  {
    var step := Step<T>.Fulfill(index, value);
    var all := steps + [step];
    HistorySnoc(steps, step, n);
    if Complete(n, all) {
      forall i | 0 <= i < n ensures First(steps, i).Some? { assert First(all, i).Some?; }
      NotComplete(n, steps);
    }
  }

  /** Nothing is expected as long as no point of the history was complete. */
  lemma {:induction false} NotComplete<T>(n: nat, steps: seq<Step<T>>)
    requires Expected(n, steps) == None
    ensures !Complete(n, steps)
  {
  }

  // ----- independence of arrival order -----

  lemma {:induction false} FirstStays<T>(steps: seq<Step<T>>, k: nat, i: nat)
    requires k <= |steps| && First(steps[..k], i).Some?
    ensures First(steps, i) == First(steps[..k], i)
    decreases |steps|
  {
    if k < |steps| {
      var front := steps[..|steps| - 1];
      assert front[..k] == steps[..k];
      FirstStays(front, k, i);
    } else {
      assert steps[..k] == steps;
    }
  }

  /** A fire carries the first value of every slot of the whole history, whenever it happened. */
  lemma {:induction false} FireValues<T>(n: nat, steps: seq<Step<T>>)
    requires Expected(n, steps).Some?
    ensures AllFirst(n, steps) && Expected(n, steps).value.values == Firsts(n, steps)
  {
    var front := steps[..|steps| - 1];
    if Expected(n, front).Some? {
      FireValues(n, front);
      forall i | 0 <= i < n ensures First(steps, i) == First(front, i) { FirstStays(steps, |front|, i); }
      assert Firsts(n, steps) == Firsts(n, front);
    }
  }

  /** It has fired once the history is complete, and never before any of its points was. */
  lemma {:induction false} FiresWhenComplete<T>(n: nat, steps: seq<Step<T>>)
    ensures Complete(n, steps) ==> Expected(n, steps).Some?
    ensures Expected(n, steps).Some? <==> exists k :: 0 <= k <= |steps| && Complete(n, steps[..k])
  {
    if steps == [] {
      assert !Complete(n, steps);
    } else {
      var front := steps[..|steps| - 1];
      FiresWhenComplete(n, front);
      assert forall k :: 0 <= k <= |front| ==> front[..k] == steps[..k];
      assert steps[..|steps|] == steps;
    }
  }

  /** Confluence: two histories that fire and give every slot the same first value deliver the same
      vector, whatever the order in which slots were filled and callbacks set. */
  lemma {:induction false} Confluent<T>(n: nat, a: seq<Step<T>>, b: seq<Step<T>>)
    requires Expected(n, a).Some? && Expected(n, b).Some?
    requires forall i :: 0 <= i < n ==> First(a, i) == First(b, i)
    ensures Expected(n, a).value.values == Expected(n, b).value.values
  {
    FireValues(n, a);
    FireValues(n, b);
  }
}
