/** The background sweep over every test-class interceptor: each sweep asks
    every tracked interceptor to dispose of its collected objects, stops
    tracking those that unloaded, and asks for another sweep while any
    remain. */
module Watching {
  import opened Common
  import opened Interception

  /** What a completed sweep reports: how many interceptors it stopped
      tracking (the count List.RemoveAll returns), and whether the timer is
      re-armed for another sweep. */
  datatype SweepOutcome = SweepOutcome(removed: nat, reschedule: bool)

  /** The states of the interceptors `xs`, in order. */
  function StatesOf(xs: seq<TestClassInterceptor>): (ss: seq<UnitState>)
    reads xs
    ensures |ss| == |xs|
  {
    if xs == [] then [] else [xs[0].State()] + StatesOf(xs[1..])
  }

  /** The k-th state is the k-th interceptor's. */
  lemma {:induction false} StatesOfAt(xs: seq<TestClassInterceptor>, k: nat)
    requires k < |xs|
    ensures StatesOf(xs)[k] == xs[k].State()
  {
    if k > 0 {
      StatesOfAt(xs[1..], k - 1);
    }
  }

  /** The decisions sweeps from the states `ss` reach, in order. */
  function Verdicts(ss: seq<UnitState>, dead: set<ObjectId>): (vs: seq<Result<bool>>)
    ensures |vs| == |ss|
  {
    if ss == [] then [] else [VerdictOf(ss[0], dead)] + Verdicts(ss[1..], dead)
  }

  /** The k-th decision is the verdict of the k-th state. */
  lemma {:induction false} VerdictsAt(ss: seq<UnitState>, dead: set<ObjectId>, k: nat)
    requires k < |ss|
    ensures Verdicts(ss, dead)[k] == VerdictOf(ss[k], dead)
  {
    if k > 0 {
      VerdictsAt(ss[1..], dead, k - 1);
    }
  }

  /** The states `ss` after the first n of them went through one sweep each. */
  function SweptUpTo(ss: seq<UnitState>, n: nat, dead: set<ObjectId>): (r: seq<UnitState>)
    requires n <= |ss|
  {
    seq(|ss|, k requires 0 <= k < |ss| => if k < n then Swept(ss[k], dead) else ss[k])
  }

  /** The elements of `xs` whose decision was "keep" (Success(false)), in
      their original order: what RemoveAll leaves when no decision faults. */
  function Kept<T>(xs: seq<T>, vs: seq<Result<bool>>): seq<T>
    requires |vs| == |xs|
  {
    if xs == [] then []
    else Kept(xs[..|xs| - 1], vs[..|vs| - 1]) + (if vs[|vs| - 1] == Success(false) then [xs[|xs| - 1]] else [])
  }

  /** Index of the first decision that raised an exception, if any. */
  function FirstFault(vs: seq<Result<bool>>): (r: Option<nat>)
    ensures r.Some? ==> r.value < |vs|
  {
    if vs == [] then None
    else if vs[0].Failure? then Some(0)
    else
      var rest := FirstFault(vs[1..]);
      if rest.None? then None else Some(rest.value + 1)
  }

  /** The first fault is a fault and every decision before it succeeded;
      with no first fault, every decision succeeded. */
  lemma {:induction false} FirstFaultMeans(vs: seq<Result<bool>>)
    ensures FirstFault(vs).Some? ==>
      vs[FirstFault(vs).value].Failure? && forall k :: 0 <= k < FirstFault(vs).value ==> vs[k].Success?
    ensures FirstFault(vs).None? ==> forall k :: 0 <= k < |vs| ==> vs[k].Success?
  {
    if vs != [] && vs[0].Success? {
      FirstFaultMeans(vs[1..]);
    }
  }

  /** The first fault is at i exactly when every decision before i
      succeeded and the one at i did not (or, for i == |vs|, there is none). */
  lemma {:induction false} FirstFaultIs(vs: seq<Result<bool>>, i: nat)
    requires i <= |vs|
    requires forall k :: 0 <= k < i ==> vs[k].Success?
    requires i < |vs| ==> vs[i].Failure?
    ensures FirstFault(vs) == if i == |vs| then None else Some(i)
  {
    if vs != [] && i > 0 {
      FirstFaultIs(vs[1..], i - 1);
    }
  }

  /** The first i decisions all succeeded: the recursive form of "no
      decision before i raised". */
  predicate SucceededUpTo(vs: seq<Result<bool>>, i: nat)
    requires i <= |vs|
  {
    i == 0 || (SucceededUpTo(vs, i - 1) && vs[i - 1].Success?)
  }

  lemma {:induction false} SucceededUpToIff(vs: seq<Result<bool>>, i: nat)
    requires i <= |vs|
    ensures SucceededUpTo(vs, i) <==> forall k :: 0 <= k < i ==> vs[k].Success?
  {
    if i > 0 {
      SucceededUpToIff(vs, i - 1);
    }
  }

  /** FirstFaultIs, for the recursive form of its premise. */
  lemma FirstFaultAt(vs: seq<Result<bool>>, i: nat)
    requires i <= |vs| && SucceededUpTo(vs, i)
    requires i < |vs| ==> vs[i].Failure?
    ensures FirstFault(vs) == if i == |vs| then None else Some(i)
  {
    SucceededUpToIff(vs, i);
    FirstFaultIs(vs, i);
  }

  /** The number of decisions that said "unload". */
  function CountUnloaded(vs: seq<Result<bool>>): nat
  {
    if vs == [] then 0 else CountUnloaded(vs[..|vs| - 1]) + (if vs[|vs| - 1] == Success(true) then 1 else 0)
  }

  /** How many interceptors a sweep asks: all of them, or those up to and
      including the first that raises. */
  function Asked(vs: seq<Result<bool>>): (n: nat)
    ensures n <= |vs|
  {
    match FirstFault(vs)
    case None => |vs|
    case Some(f) => f + 1
  }

  /** The list as RemoveAll leaves it when the decision at index f raises:
      the survivors of the elements before f compacted to the front, the
      slots from there on as they were. */

  function Interrupted<T>(xs: seq<T>, vs: seq<Result<bool>>, f: nat): (r: seq<T>)
    requires |vs| == |xs| && f <= |xs|
    ensures |r| == |xs|
  {
    KeptLength(xs[..f], vs[..f]);
    Kept(xs[..f], vs[..f]) + xs[|Kept(xs[..f], vs[..f])|..]
  }

  predicate Distinct<T(==)>(xs: seq<T>)
  {
    forall a, b :: 0 <= a < b < |xs| ==> xs[a] != xs[b]
  }

  /** Extending the processed prefix by one element extends the survivors by
      that element exactly when its decision was "keep". */
  lemma KeptStep<T>(xs: seq<T>, vs: seq<Result<bool>>, i: nat)
    requires |vs| == |xs| && i < |xs|
    ensures Kept(xs[..i + 1], vs[..i + 1]) ==
      Kept(xs[..i], vs[..i]) + (if vs[i] == Success(false) then [xs[i]] else [])
  {
    assert xs[..i + 1][..i] == xs[..i];
    assert vs[..i + 1][..i] == vs[..i];
  }

  /** The survivors are never more than the elements. */
  lemma {:induction false} KeptLength<T>(xs: seq<T>, vs: seq<Result<bool>>)
    requires |vs| == |xs|
    ensures |Kept(xs, vs)| <= |xs|
  {
    if xs != [] {
      KeptLength(xs[..|xs| - 1], vs[..|vs| - 1]);
    }
  }

  /** With no fault, every element either survives or is counted as
      unloaded, never both. */
  lemma {:induction false} KeptPlusUnloaded<T>(xs: seq<T>, vs: seq<Result<bool>>)
    requires |vs| == |xs|
    requires FirstFault(vs).None?
    ensures |Kept(xs, vs)| + CountUnloaded(vs) == |xs|
  {
    if xs != [] {
      var n := |xs| - 1;
      FirstFaultMeans(vs);
      assert FirstFault(vs[..n]).None? by {
        assert forall k :: 0 <= k < n ==> vs[..n][k] == vs[k];
        FirstFaultIs(vs[..n], n);
      }
      KeptPlusUnloaded(xs[..n], vs[..n]);
      assert vs[n].Success?;
      if vs[n].value {
        assert |Kept(xs, vs)| == |Kept(xs[..n], vs[..n])|;
      } else {
        assert |Kept(xs, vs)| == |Kept(xs[..n], vs[..n])| + 1;
      }
    }
  }

  /** An element survives exactly when some occurrence of it was kept. */
  lemma {:induction false} KeptMembers<T>(xs: seq<T>, vs: seq<Result<bool>>, x: T)
    requires |vs| == |xs|
    ensures x in Kept(xs, vs) <==> exists k :: 0 <= k < |xs| && xs[k] == x && vs[k] == Success(false)
  {
    if xs != [] {
      var n := |xs| - 1;
      KeptMembers(xs[..n], vs[..n], x);
      if x in Kept(xs[..n], vs[..n]) {
        var k :| 0 <= k < n && xs[..n][k] == x && vs[..n][k] == Success(false);
        assert xs[k] == x && vs[k] == Success(false);
      }
      if exists k :: 0 <= k < |xs| && xs[k] == x && vs[k] == Success(false) {
        var k :| 0 <= k < |xs| && xs[k] == x && vs[k] == Success(false);
        if k < n {
          assert xs[..n][k] == x && vs[..n][k] == Success(false);
        }
      }
    }
  }

  /** The survivors of a concatenation are the survivors of each part, in
      order: removal keeps the relative order of what it keeps. */
  lemma {:induction false} KeptAppend<T>(xs: seq<T>, vs: seq<Result<bool>>, ys: seq<T>, ws: seq<Result<bool>>)
    requires |vs| == |xs| && |ws| == |ys|
    ensures Kept(xs + ys, vs + ws) == Kept(xs, vs) + Kept(ys, ws)
    decreases |ys|
  {
    if ys == [] {
      assert xs + ys == xs && vs + ws == vs;
    } else {
      var n := |ys| - 1;
      KeptAppend(xs, vs, ys[..n], ws[..n]);
      assert (xs + ys)[..|xs + ys| - 1] == xs + ys[..n];
      assert (vs + ws)[..|vs + ws| - 1] == vs + ws[..n];
    }
  }

  /** Removing elements from a list of distinct elements leaves it distinct. */
  lemma {:induction false} KeptDistinct<T>(xs: seq<T>, vs: seq<Result<bool>>)
    requires |vs| == |xs| && Distinct(xs)
    ensures Distinct(Kept(xs, vs))
  {
    if xs != [] {
      var n := |xs| - 1;
      assert Distinct(xs[..n]) by {
        forall a, b | 0 <= a < b < n ensures xs[..n][a] != xs[..n][b] {
          assert xs[..n][a] == xs[a] && xs[..n][b] == xs[b];
        }
      }
      KeptDistinct(xs[..n], vs[..n]);
      if vs[n] == Success(false) {
        var kept := Kept(xs[..n], vs[..n]);
        KeptMembers(xs[..n], vs[..n], xs[n]);
        assert xs[n] !in kept;
        var r := kept + [xs[n]];
        forall a, b | 0 <= a < b < |r| ensures r[a] != r[b] {
          if b == |kept| {
            assert r[a] == kept[a];
          } else {
            assert r[a] == kept[a] && r[b] == kept[b];
          }
        }
      }
    }
  }

  /** When every interceptor answers "unload", nothing survives the sweep. */
  lemma {:induction false} AllUnloadedLeavesNone<T>(xs: seq<T>, vs: seq<Result<bool>>)
    requires |vs| == |xs|
    requires forall k :: 0 <= k < |vs| ==> vs[k] == Success(true)
    ensures Kept(xs, vs) == []
  {
    if xs != [] {
      var n := |xs| - 1;
      assert forall k :: 0 <= k < n ==> vs[..n][k] == vs[k];
      AllUnloadedLeavesNone(xs[..n], vs[..n]);
    }
  }

  /** When every interceptor answers "keep", the sweep removes nothing. */
  lemma {:induction false} NoneUnloadedKeepsAll<T>(xs: seq<T>, vs: seq<Result<bool>>)
    requires |vs| == |xs|
    requires forall k :: 0 <= k < |vs| ==> vs[k] == Success(false)
    ensures Kept(xs, vs) == xs
  {
    if xs != [] {
      var n := |xs| - 1;
      assert forall k :: 0 <= k < n ==> vs[..n][k] == vs[k];
      NoneUnloadedKeepsAll(xs[..n], vs[..n]);
      assert vs[n] == Success(false);
      assert xs[..n] + [xs[n]] == xs;
    }
  }

  /** After an interrupted sweep the interceptor that raised, and every one
      after it, is still tracked in its old slot: none of them is dropped. */
  lemma InterruptedKeepsUnasked<T>(xs: seq<T>, vs: seq<Result<bool>>, f: nat)
    requires |vs| == |xs| && f <= |xs|
    ensures forall k :: f <= k < |xs| ==> Interrupted(xs, vs, f)[k] == xs[k]
  {
    KeptLength(xs[..f], vs[..f]);
  }

  /** One call of the RemoveAll predicate, on the i-th interceptor: its
      DisposeOfObjects, with that call's whole effect on the interceptor.
      The interceptors before it have been swept from their states
      `before`, and it and those after it still hold them. It answers the
      verdict of its state before the sweep, takes it through one sweep from
      that state, and leaves every other interceptor as it was. */
  method Ask(xs: seq<TestClassInterceptor>, i: nat, dead: set<ObjectId>, ghost before: seq<UnitState>)
    returns (v: Result<bool>)
    requires i < |xs| && |before| == |xs| && Distinct(xs)
    requires StatesOf(xs) == SweptUpTo(before, i, dead)
    modifies xs[i]
    ensures v == VerdictOf(before[i], dead) == Verdicts(before, dead)[i]
    ensures xs[i].SweptOnce(dead)
    ensures StatesOf(xs) == SweptUpTo(before, i + 1, dead)
  {
    forall k | 0 <= k < |xs| ensures StatesOf(xs)[k] == xs[k].State() {
      StatesOfAt(xs, k);
    }
    v := xs[i].DisposeOfObjects(dead);
    VerdictsAt(before, dead, i);
    forall k | 0 <= k < |xs| ensures StatesOf(xs)[k] == xs[k].State() {
      StatesOfAt(xs, k);
    }
    forall k | 0 <= k < |xs| && k != i ensures xs[k].State() == old(xs[k].State()) {
      assert xs[k] != xs[i];
    }
    assert StatesOf(xs) == SweptUpTo(before, i + 1, dead);
  }

  /** Since the enclosing method's pre-state, each of the first n
      interceptors of `xs` went through exactly one sweep, and the others
      are as they were. */
  twostate predicate SweptFirst(xs: seq<TestClassInterceptor>, n: nat, dead: set<ObjectId>)
    requires n <= |xs|
    reads xs
  {
    && (forall k :: 0 <= k < n ==> xs[k].SweptOnce(dead))
    && (forall k :: n <= k < |xs| ==> xs[k].State() == old(xs[k].State()))
  }

  /** RemoveAll with DisposeOfObjects as its predicate, over `xs`, whose
      states are `before`: asks each interceptor in turn, collecting those
      that answered false, and stops at the first that raises. `stop` is how
      many answered without raising. Each interceptor asked has gone through
      one sweep; the others are untouched. */
  method SweepAll(xs: seq<TestClassInterceptor>, dead: set<ObjectId>, ghost before: seq<UnitState>)
    returns (kept: seq<TestClassInterceptor>, stop: nat, fault: Option<Fault>)
    requires Distinct(xs) && StatesOf(xs) == before
    modifies xs
    ensures stop <= |xs| && |kept| <= stop
    ensures kept == Kept(xs[..stop], Verdicts(before, dead)[..stop])
    ensures FirstFault(Verdicts(before, dead)) == if fault.None? then None else Some(stop)
    ensures fault.None? ==> stop == |xs|
    ensures fault.Some? ==> stop < |xs| && Verdicts(before, dead)[stop] == Failure(fault.value)
    ensures StatesOf(xs) == SweptUpTo(before, if fault.None? then stop else stop + 1, dead)
  {
    ghost var vs := Verdicts(before, dead);
    assert StatesOf(xs) == SweptUpTo(before, 0, dead);
    kept := [];
    var i := 0;
    while i < |xs|
      invariant i <= |xs| && |vs| == |xs| && |before| == |xs|
      invariant kept == Kept(xs[..i], vs[..i]) && |kept| <= i
      invariant SucceededUpTo(vs, i)
      invariant StatesOf(xs) == SweptUpTo(before, i, dead)
    {
      var v := Ask(xs, i, dead, before);
      if v.Failure? {
        FirstFaultAt(vs, i);
        return kept, i, Some(v.error);
      }
      KeptStep(xs, vs, i);
      KeptLength(xs[..i + 1], vs[..i + 1]);
      if !v.value {
        kept := kept + [xs[i]];
      }
      i := i + 1;
    }
    FirstFaultAt(vs, i);
    return kept, i, None;
  }

  /** The body of one timer tick over the interceptors `xs`, whose states
      are `before`: RemoveAll with DisposeOfObjects as its predicate. On
      success `remaining` is the list RemoveAll leaves and `r` how many were
      removed and whether to re-arm the timer; an exception from an
      interceptor escapes with `remaining` the list as RemoveAll leaves it.
      The interceptors asked have each gone through one sweep, the rest are
      untouched. */
  method Tick(xs: seq<TestClassInterceptor>, dead: set<ObjectId>, ghost before: seq<UnitState>)
    returns (remaining: seq<TestClassInterceptor>, r: Result<SweepOutcome>)
    requires Distinct(xs) && StatesOf(xs) == before
    modifies xs
    ensures r.Success? <==> FirstFault(Verdicts(before, dead)).None?
    ensures |remaining| <= |xs|
    ensures r.Success? ==>
      && remaining == Kept(xs, Verdicts(before, dead))
      && r.value.removed == |xs| - |remaining|
      && r.value.removed == CountUnloaded(Verdicts(before, dead))
      && r.value.reschedule == (|remaining| > 0)
      && Distinct(remaining)
    ensures r.Failure? ==>
      var f := FirstFault(Verdicts(before, dead)).value;
      && Verdicts(before, dead)[f] == Failure(r.error)
      && remaining == Interrupted(xs, Verdicts(before, dead), f)
    ensures SweptFirst(xs, Asked(Verdicts(before, dead)), dead)
  {
    ghost var vs := Verdicts(before, dead);
    forall k | 0 <= k < |xs| ensures before[k] == xs[k].State() { StatesOfAt(xs, k); }
    var kept, stop, fault := SweepAll(xs, dead, before);
    if fault.Some? {
      assert FirstFault(vs).value == stop;
      remaining, r := kept + xs[|kept|..], Failure(fault.value);
    } else {
      assert xs[..stop] == xs && vs[..stop] == vs;
      KeptDistinct(xs, vs);
      KeptPlusUnloaded(xs, vs);
      remaining, r := kept, Success(SweepOutcome(|xs| - |kept|, |kept| > 0));
    }
    forall k | 0 <= k < |xs|
      ensures k < Asked(vs) ==> xs[k].SweptOnce(dead)
      ensures Asked(vs) <= k ==> xs[k].State() == old(xs[k].State())
    {
      StatesOfAt(xs, k);
    }
  }

  class InterceptorWatcher {
    /** The interceptors still being watched (`_interceptors`). */
    var tracked: seq<TestClassInterceptor>

    /** Each tracked interceptor appears once. */
    ghost predicate Valid()
      reads this
    {
      Distinct(tracked)
    }

    /** Copies the given interceptors into a list of its own. */
    constructor (interceptors: seq<TestClassInterceptor>)
      ensures tracked == interceptors
      ensures Distinct(interceptors) ==> Valid()
    {
      tracked := interceptors;
    }

    /** One timer tick (`Callback`): the interceptors tracked at the start
        go through Tick, and the list becomes what it leaves. */
    method Callback(dead: set<ObjectId>) returns (r: Result<SweepOutcome>)
      requires Valid()
      modifies this`tracked, tracked
      ensures r.Success? <==> FirstFault(Verdicts(old(StatesOf(tracked)), dead)).None?
      ensures |tracked| <= |old(tracked)|
      ensures r.Success? ==>
        && tracked == Kept(old(tracked), Verdicts(old(StatesOf(tracked)), dead))
        && r.value.removed == |old(tracked)| - |tracked|
        && r.value.removed == CountUnloaded(Verdicts(old(StatesOf(tracked)), dead))
        && r.value.reschedule == (|tracked| > 0)
        && Valid()
      ensures r.Failure? ==>
        var f := FirstFault(Verdicts(old(StatesOf(tracked)), dead)).value;
        && Verdicts(old(StatesOf(tracked)), dead)[f] == Failure(r.error)
        && tracked == Interrupted(old(tracked), Verdicts(old(StatesOf(tracked)), dead), f)
      ensures SweptFirst(old(tracked), Asked(Verdicts(old(StatesOf(tracked)), dead)), dead)
    {
      var xs := tracked;
      ghost var before := StatesOf(xs);
      var remaining;
      remaining, r := Tick(xs, dead, before);
      tracked := remaining;
    }
  }
}
