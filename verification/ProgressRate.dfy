/** The rate limit on progress callbacks. */
module ProgressRate {
  const SECOND: int := 1_000_000_000
  const MAX_CALLBACKS: nat := 10
  const MAX_ORDINARY: nat := 4

  datatype Emission = Emission(time: int, required: bool)

  /** How many of the emissions count, all of them or the ordinary ones only. */
  function Size(es: seq<Emission>, ordinary: bool): nat {
    if es == [] then 0 else Size(es[..|es| - 1], ordinary) + if ordinary && es[|es| - 1].required then 0 else 1
  }

  /** How many of them fall into the half-open second that begins at `t`. */
  function Window(es: seq<Emission>, t: int, ordinary: bool): nat {
    if es == [] then 0
    else
      var last := es[|es| - 1];
      Window(es[..|es| - 1], t, ordinary) + if t <= last.time < t + SECOND && !(ordinary && last.required) then 1 else 0
  }

  predicate Ascending(es: seq<Emission>) {
    forall i, j :: 0 <= i < j < |es| ==> es[i].time <= es[j].time
  }

  /** No second, wherever it begins, contains more callbacks than allowed. */
  ghost predicate RateKept(es: seq<Emission>) {
    forall t: int :: Window(es, t, false) <= MAX_CALLBACKS && Window(es, t, true) <= MAX_ORDINARY
  }

  lemma {:induction false} SizeOfAll(es: seq<Emission>)
    ensures Size(es, false) == |es|
  {
    if es != [] {
      SizeOfAll(es[..|es| - 1]);
    }
  }

  lemma {:induction false} WindowOfConcat(a: seq<Emission>, b: seq<Emission>, t: int, ordinary: bool)
    ensures Window(a + b, t, ordinary) == Window(a, t, ordinary) + Window(b, t, ordinary)
    decreases |b|
  {
    if b == [] {
      assert a + b == a;
    } else {
      assert (a + b)[..|a + b| - 1] == a + b[..|b| - 1];
      WindowOfConcat(a, b[..|b| - 1], t, ordinary);
    }
  }

  lemma {:induction false} NothingBefore(es: seq<Emission>, t: int, ordinary: bool)
    requires forall i :: 0 <= i < |es| ==> es[i].time < t
    ensures Window(es, t, ordinary) == 0
  {
    if es != [] {
      NothingBefore(es[..|es| - 1], t, ordinary);
    }
  }

  lemma {:induction false} WindowIsPart(es: seq<Emission>, t: int, ordinary: bool)
    ensures Window(es, t, ordinary) <= Size(es, ordinary)
  {
    if es != [] {
      WindowIsPart(es[..|es| - 1], t, ordinary);
    }
  }

  /** A callback is allowed: what the deque still holds is all that any second containing `now` can hold. */
  lemma OneMoreKeepsRate(gone: seq<Emission>, recent: seq<Emission>, now: int, required: bool)
    requires RateKept(gone + recent) && forall i :: 0 <= i < |gone| ==> gone[i].time <= now - SECOND
    requires |recent| < MAX_CALLBACKS && (!required ==> Size(recent, true) < MAX_ORDINARY)
    ensures RateKept(gone + recent + [Emission(now, required)])
  {
    var e, all := Emission(now, required), gone + recent;
    assert (all + [e])[..|all|] == all;
    forall t: int
      ensures Window(all + [e], t, false) <= MAX_CALLBACKS && Window(all + [e], t, true) <= MAX_ORDINARY
    {
      if t <= now < t + SECOND {
        SizeOfAll(recent);
        WindowOfConcat(gone, recent, t, false);
        NothingBefore(gone, t, false);
        WindowIsPart(recent, t, false);
        WindowOfConcat(gone, recent, t, true);
        NothingBefore(gone, t, true);
        WindowIsPart(recent, t, true);
      }
    }
  }

  /** With a clock that has never gone back: all callbacks, what the deque no longer holds, the clock. */
  ghost predicate Steady(history: seq<Emission>, gone: seq<Emission>, last: int) {
    && RateKept(history) && Ascending(history)
    && (forall i :: 0 <= i < |history| ==> history[i].time <= last)
    && (forall i :: 0 <= i < |gone| ==> gone[i].time <= last - SECOND)
  }

  lemma StaysSteady(gone: seq<Emission>, recent: seq<Emission>, now: int, required: bool)
    requires Steady(gone + recent, gone, now) && |recent| < MAX_CALLBACKS && (!required ==> Size(recent, true) < MAX_ORDINARY)
    ensures Steady(gone + recent + [Emission(now, required)], gone, now)
  {
    OneMoreKeepsRate(gone, recent, now, required);
  }

  lemma SizeOfMore(es: seq<Emission>, e: Emission)
    ensures Size(es + [e], true) == Size(es, true) + if e.required then 0 else 1
  {
    assert (es + [e])[..|es|] == es;
  }

  lemma DequeIsRecent(gone: seq<Emission>, recent: seq<Emission>, now: int)
    requires Steady(gone + recent, gone, now) && (recent != [] ==> now - SECOND < recent[0].time)
    ensures forall i :: 0 <= i < |recent| ==> now - SECOND < recent[i].time <= now
  {
    var all := gone + recent;
    forall i | 0 <= i < |recent|
      ensures now - SECOND < recent[i].time <= now
    {
      assert all[|gone|] == recent[0] && all[|gone| + i] == recent[i];
    }
  }

  /** The aggregator's rate limiter. `history` lists all callbacks ever made; `steady` says that the clock
      has never gone back. */
  class ProgressAggregator {
    var emissions: seq<Emission>
    ghost var history: seq<Emission>
    ghost var gone: seq<Emission>
    ghost var last: int
    ghost var steady: bool

    ghost predicate Valid()
      reads this
    {
      && history == gone + emissions && |emissions| <= MAX_CALLBACKS && Size(emissions, true) <= MAX_ORDINARY
      && (steady ==> Steady(history, gone, last))
    }

    constructor ()
      ensures Valid() && history == [] && steady
    {
      emissions, history, gone, last, steady := [], [], [], 0, true;
    }

    method CountOrdinary() returns (n: nat)
      ensures n == Size(emissions, true)
    {
      n := 0;
      for i := 0 to |emissions|
        invariant n == Size(emissions[..i], true)
      {
        assert emissions[..i + 1][..i] == emissions[..i];
        if !emissions[i].required {
          n := n + 1;
        }
      }
      assert emissions[..|emissions|] == emissions;
    }

    /** Drops what is a second old from the front of the deque. */
    method Prune(now: int)
      requires Valid()
      modifies this`emissions, this`gone, this`last, this`steady
      ensures Valid() && history == old(history) && last == now
      ensures steady <==> old(steady) && (old(history) == [] || now >= old(last))
      ensures steady && emissions != [] ==> now - SECOND < emissions[0].time
    {
      ghost var calm := steady && (history == [] || now >= last);
      last, steady := now, calm;
      while emissions != [] && now >= emissions[0].time && now - emissions[0].time >= SECOND
        invariant Valid() && last == now && steady == calm
        invariant history == old(history)
        decreases |emissions|
      {
        var front := emissions[0];
        FrontIsPart(emissions);
        gone := gone + [front];
        emissions := emissions[1..];
      }
    }

    /** `emit`: whether the callback is made at `now`. With a clock that never goes back, no half-open
        second ever contains more than ten callbacks, or more than four that were not required; and a
        callback is withheld only when the last second is full. */
    method Emit(now: int, required: bool) returns (called: bool)
      requires Valid()
      modifies this
      ensures Valid() && last == now
      ensures history == if called then old(history) + [Emission(now, required)] else old(history)
      ensures steady <==> old(steady) && (old(history) == [] || now >= old(last))
      ensures steady ==> RateKept(history)
      ensures !called ==> |emissions| == MAX_CALLBACKS || (!required && Size(emissions, true) == MAX_ORDINARY)
      ensures steady && !called ==> forall i :: 0 <= i < |emissions| ==> now - SECOND < emissions[i].time <= now
    {
      Prune(now);
      var ordinary := CountOrdinary();
      if |emissions| >= MAX_CALLBACKS || (!required && ordinary >= MAX_ORDINARY) {
        if steady {
          DequeIsRecent(gone, emissions, now);
        }
        return false;
      }
      var e := Emission(now, required);
      if steady {
        StaysSteady(gone, emissions, now, required);
      }
      SizeOfMore(emissions, e);
      assert gone + (emissions + [e]) == history + [e];
      history := history + [e];
      emissions := emissions + [e];
      return true;
    }
  }

  lemma {:induction false} FrontIsPart(es: seq<Emission>)
    requires es != []
    ensures Size(es[1..], true) <= Size(es, true)
  {
    if |es| > 1 {
      FrontIsPart(es[..|es| - 1]);
      assert es[1..][..|es| - 2] == es[..|es| - 1][1..];
    }
  }
}
