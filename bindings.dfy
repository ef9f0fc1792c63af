/** The redirect list of a test-class interceptor (its `_objectToProxy`): pairs
    of a weak reference to an original test instance and the isolated instance
    created for it. Liveness of the weak references is given by the set of
    originals that the garbage collector has already reclaimed. */
module Bindings {
  import opened Common

  /** One entry of the redirect list: the original instance the weak
      reference was made for, and the isolated instance the entry owns. */
  datatype Binding = Binding(original: ObjectId, isolated: ObjectId)

  /** The entry's weak reference is alive and its target is `original`,
      compared by identity. */
  predicate Matches(b: Binding, original: ObjectId, dead: set<ObjectId>)
  {
    b.original !in dead && b.original == original
  }

  /** The entries whose original is still alive, in list order. */
  function LiveBindings(bs: seq<Binding>, dead: set<ObjectId>): (r: seq<Binding>)
    ensures |r| <= |bs|
    ensures forall b :: b in r <==> b in bs && b.original !in dead
  {
    if bs == [] then []
    else (if bs[0].original in dead then [] else [bs[0]]) + LiveBindings(bs[1..], dead)
  }

  /** The entries whose original has been collected, in list order: what the
      sweep gathers before reaping. */
  function DeadBindings(bs: seq<Binding>, dead: set<ObjectId>): (r: seq<Binding>)
    ensures |r| <= |bs|
    ensures forall b :: b in r <==> b in bs && b.original in dead
  {
    if bs == [] then []
    else (if bs[0].original in dead then [bs[0]] else []) + DeadBindings(bs[1..], dead)
  }

  /** Every entry is either live or dead, never both. */
  lemma {:induction false} PartitionSizes(bs: seq<Binding>, dead: set<ObjectId>)
    ensures |LiveBindings(bs, dead)| + |DeadBindings(bs, dead)| == |bs|
  {
    if bs != [] {
      PartitionSizes(bs[1..], dead);
    }
  }

  /** Reaping leaves the list as it was exactly when nothing in it is dead. */
  lemma {:induction false} NothingDeadKeepsAll(bs: seq<Binding>, dead: set<ObjectId>)
    ensures DeadBindings(bs, dead) == [] <==> LiveBindings(bs, dead) == bs
  {
    PartitionSizes(bs, dead);
    if bs != [] {
      NothingDeadKeepsAll(bs[1..], dead);
    }
  }

  /** Reaping is idempotent: a second reap with the same liveness removes nothing. */
  lemma {:induction false} LiveBindingsIdempotent(bs: seq<Binding>, dead: set<ObjectId>)
    ensures LiveBindings(LiveBindings(bs, dead), dead) == LiveBindings(bs, dead)
    ensures DeadBindings(LiveBindings(bs, dead), dead) == []
  {
    if bs != [] {
      LiveBindingsIdempotent(bs[1..], dead);
      var rest := LiveBindings(bs[1..], dead);
      if bs[0].original !in dead {
        var r := [bs[0]] + rest;
        assert LiveBindings(bs, dead) == r;
        assert r[0] == bs[0] && r[1..] == rest;
        assert LiveBindings(r, dead) == [bs[0]] + LiveBindings(rest, dead);
        assert DeadBindings(r, dead) == DeadBindings(rest, dead);
      } else {
        assert LiveBindings(bs, dead) == [] + rest == rest;
      }
    }
  }

  /** List.Remove: drop the first entry equal to `x`, if there is one. */
  function RemoveFirst(bs: seq<Binding>, x: Binding): (r: seq<Binding>)
    ensures x in bs ==> |r| == |bs| - 1
    ensures x !in bs ==> r == bs
  {
    if bs == [] then []
    else if bs[0] == x then bs[1..]
    else [bs[0]] + RemoveFirst(bs[1..], x)
  }

  /** Removing the first collected entry keeps the live entries and their
      order, and leaves the remaining collected entries to be removed. */
  lemma {:induction false} RemoveFirstDead(bs: seq<Binding>, dead: set<ObjectId>)
    requires DeadBindings(bs, dead) != []
    ensures LiveBindings(RemoveFirst(bs, DeadBindings(bs, dead)[0]), dead) == LiveBindings(bs, dead)
    ensures DeadBindings(RemoveFirst(bs, DeadBindings(bs, dead)[0]), dead) == DeadBindings(bs, dead)[1..]
  {
    var x := DeadBindings(bs, dead)[0];
    if bs[0].original in dead {
      assert DeadBindings(bs, dead) == [bs[0]] + DeadBindings(bs[1..], dead);
      assert x == bs[0];
    } else {
      assert DeadBindings(bs, dead) == DeadBindings(bs[1..], dead);
      assert x in DeadBindings(bs, dead);
      assert bs[0] != x;
      RemoveFirstDead(bs[1..], dead);
      var tail := RemoveFirst(bs[1..], x);
      assert RemoveFirst(bs, x) == [bs[0]] + tail;
      assert ([bs[0]] + tail)[1..] == tail;
    }
  }

  /** Index of the first entry from `from` on that is alive and bound to
      `original` (the FirstOrDefault search), or None. */
  function FindLive(bs: seq<Binding>, original: ObjectId, dead: set<ObjectId>, from: nat): (r: Option<nat>)
    requires from <= |bs|
    decreases |bs| - from
    ensures r.Some? ==> from <= r.value < |bs| && Matches(bs[r.value], original, dead)
    ensures r.Some? ==> forall j :: from <= j < r.value ==> !Matches(bs[j], original, dead)
    ensures r.None? ==> forall j :: from <= j < |bs| ==> !Matches(bs[j], original, dead)
  {
    if from == |bs| then None
    else if Matches(bs[from], original, dead) then Some(from)
    else FindLive(bs, original, dead, from + 1)
  }

  /** After a new entry is appended for a live original that had none, a
      later search for that original finds exactly that entry. */
  lemma AppendedBindingIsFound(bs: seq<Binding>, original: ObjectId, isolated: ObjectId, dead: set<ObjectId>)
    requires original !in dead
    requires FindLive(bs, original, dead, 0).None?
    ensures FindLive(bs + [Binding(original, isolated)], original, dead, 0) == Some(|bs|)
  {
    var bs' := bs + [Binding(original, isolated)];
    assert Matches(bs'[|bs|], original, dead);
    assert forall j :: 0 <= j < |bs| ==> bs'[j] == bs[j];
  }

  /** Entries for other originals never answer a search for `original`, so
      appending one leaves the search result unchanged. */
  lemma {:induction false} AppendOtherKeepsSearch(bs: seq<Binding>, b: Binding, original: ObjectId, dead: set<ObjectId>, from: nat)
    requires from <= |bs|
    requires !Matches(b, original, dead)
    ensures FindLive(bs + [b], original, dead, from) == FindLive(bs, original, dead, from)
    decreases |bs| - from
  {
    var bs' := bs + [b];
    if from < |bs| {
      assert bs'[from] == bs[from];
      AppendOtherKeepsSearch(bs, b, original, dead, from + 1);
    }
  }
}
