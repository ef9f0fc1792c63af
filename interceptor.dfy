/** The per-class isolation unit: a test class whose marked methods are
    redirected, on first use, to an independently loaded copy of the class.
    It keeps the list of (original, isolated) instance pairs, counts the
    isolated instances it has disposed of, and decides when the loaded copy
    may be unloaded. A registry maps each isolated class to its unit. */
module Interception {
  import opened Common
  import opened Bindings
  import opened Setup

  /** The class under isolation: its identity and the assembly it comes from. */
  datatype TestType = TestType(id: ObjectId, assembly: ObjectId)

  /** The runtime's answers during a first-use load: the id of the new load
      context, what loading the assembly by path returned (None for null), and
      what looking the test type up in that assembly returned. */
  datatype LoadResults = LoadResults(context: ObjectId, assembly: Option<ObjectId>, isolatedType: Option<ObjectId>)

  /** What the instance lookup hands back as the target of the reflected call:
      an isolated instance, or an entry of the redirect list itself. */
  datatype Target = Isolated(instance: ObjectId) | BindingTuple(binding: Binding)

  /** The reflected call a dispatch ends in: the method of that name, invoked
      on the target with no arguments. */
  datatype Invocation = Invocation(target: Target, methodName: string)

  /** The first check of a first-use load that fails, in the order the loader
      makes them, or None when the load succeeds. */
  function LoadFault(testType: TestType, load: LoadResults): (r: Option<Fault>)
    ensures r.None? <==>
      load.assembly.Some? && load.assembly.value != testType.assembly && load.isolatedType.Some?
  {
    if load.assembly.None? then Some(AssemblyLoadFailed)
    else if load.assembly.value == testType.assembly then Some(NotIsolated)
    else if load.isolatedType.None? then Some(TypeNotFound)
    else None
  }

  /** What one sweep of a unit returns, computed from the unit's state before
      the sweep: true to unload, false to keep it, or the exception raised. */
  function Verdict(bindings: seq<Binding>, disposedObjects: nat, testMethodCount: nat,
                   contextRef: Option<ObjectId>, dead: set<ObjectId>): Result<bool>
  {
    var reaped := |DeadBindings(bindings, dead)|;
    if disposedObjects + reaped != testMethodCount then Success(false)
    else if reaped > 0 then Success(false)
    else if contextRef.None? then Failure(NullReference)
    else if contextRef.value in dead then Failure(LoadContextCollected)
    else Success(true)
  }

  /** A sweep that reaps the last entries and brings the counter to the
      number of test methods does not unload; the next sweep, with nothing
      newly collected, does: unload comes at most one sweep late. */
  lemma DeferredUnloadFollows(bindings: seq<Binding>, disposedObjects: nat, testMethodCount: nat,
                              contextRef: Option<ObjectId>, dead: set<ObjectId>)
    requires disposedObjects + |DeadBindings(bindings, dead)| == testMethodCount
    requires DeadBindings(bindings, dead) != []
    requires contextRef.Some? && contextRef.value !in dead
    ensures Verdict(bindings, disposedObjects, testMethodCount, contextRef, dead) == Success(false)
    ensures Verdict(LiveBindings(bindings, dead), disposedObjects + |DeadBindings(bindings, dead)|,
                    testMethodCount, contextRef, dead) == Success(true)
  {
    var live := LiveBindings(bindings, dead);
    LiveBindingsIdempotent(bindings, dead);
    assert |DeadBindings(live, dead)| == 0;
  }

  /** As written, a sweep that reaps nothing unloads once the counter
      matches, even while an entry's original is alive: here one live entry
      remains and the verdict is still "unload". */
  lemma UnloadsWithLiveBinding()
    ensures LiveBindings([Binding(10, 20)], {}) == [Binding(10, 20)]
    ensures Verdict([Binding(10, 20)], 1, 1, Some(3), {}) == Success(true)
  {
    assert DeadBindings([Binding(10, 20)], {}) == [];
  }

  /** The verdict as evidently intended: unload only once the counter
      matches and no entry of the redirect list is left after reaping. */
  function IntendedVerdict(bindings: seq<Binding>, disposedObjects: nat, testMethodCount: nat,
                           contextRef: Option<ObjectId>, dead: set<ObjectId>): (r: Result<bool>)
    ensures r == Success(true) ==>
      && disposedObjects + |DeadBindings(bindings, dead)| == testMethodCount
      && (forall b :: b in bindings ==> b.original in dead)
      && contextRef.Some? && contextRef.value !in dead
    ensures r.Failure? ==> LiveBindings(bindings, dead) == []
  {
    var reaped := |DeadBindings(bindings, dead)|;
    if disposedObjects + reaped != testMethodCount then Success(false)
    else if |LiveBindings(bindings, dead)| > 0 then Success(false)
    else if contextRef.None? then Failure(NullReference)
    else if contextRef.value in dead then Failure(LoadContextCollected)
    else Success(true)
  }

  /** The correction withholds exactly the unloads that would leave a live
      entry behind, and the one-sweep delay after a reap: wherever the
      source unloads with nothing live, so does the intended verdict. */
  lemma IntendedAgreesWhenNothingLive(bindings: seq<Binding>, disposedObjects: nat, testMethodCount: nat,
                                      contextRef: Option<ObjectId>, dead: set<ObjectId>)
    requires LiveBindings(bindings, dead) == []
    ensures Verdict(bindings, disposedObjects, testMethodCount, contextRef, dead) == Success(true) ==>
      IntendedVerdict(bindings, disposedObjects, testMethodCount, contextRef, dead) == Success(true)
  {
  }

  /** As written, the first sweep of a unit for a class without test
      methods that was never loaded raises: the counter matches at zero,
      nothing is reaped, and the load-context reference is still null. */
  lemma NeverLoadedSweepFails(dead: set<ObjectId>)
    ensures Verdict([], 0, 0, None, dead) == Failure(NullReference)
  {
  }

  /** The verdict as evidently intended for a unit that may never have been
      loaded: with the counter matching and nothing live, a unit whose copy
      was never loaded has nothing to unload and is simply released
      (answers true); a loaded one is decided by IntendedVerdict. */
  function ReclaimVerdict(bindings: seq<Binding>, disposedObjects: nat, testMethodCount: nat,
                          contextRef: Option<ObjectId>, dead: set<ObjectId>): (r: Result<bool>)
    ensures contextRef.None? ==> r.Success?
    ensures r.Failure? <==>
      && disposedObjects + |DeadBindings(bindings, dead)| == testMethodCount
      && LiveBindings(bindings, dead) == []
      && contextRef.Some? && contextRef.value in dead
    ensures r == Success(true) ==>
      && disposedObjects + |DeadBindings(bindings, dead)| == testMethodCount
      && (forall b :: b in bindings ==> b.original in dead)
  {
    if contextRef.None? && disposedObjects + |DeadBindings(bindings, dead)| == testMethodCount
       && LiveBindings(bindings, dead) == []
    then Success(true)
    else IntendedVerdict(bindings, disposedObjects, testMethodCount, contextRef, dead)
  }

  /** A unit for a class without test methods that was never loaded is
      released by its first sweep, where the code as written raises. */
  lemma NeverLoadedIsReleased(dead: set<ObjectId>)
    ensures ReclaimVerdict([], 0, 0, None, dead) == Success(true)
    ensures Verdict([], 0, 0, None, dead) != ReclaimVerdict([], 0, 0, None, dead)
  {
    NeverLoadedSweepFails(dead);
  }

  /** Once the copy was loaded, the correction for never-loaded units
      changes nothing. */
  lemma LoadedReclaimIsIntended(bindings: seq<Binding>, disposedObjects: nat, testMethodCount: nat,
                                contextRef: Option<ObjectId>, dead: set<ObjectId>)
    requires contextRef.Some?
    ensures ReclaimVerdict(bindings, disposedObjects, testMethodCount, contextRef, dead) ==
            IntendedVerdict(bindings, disposedObjects, testMethodCount, contextRef, dead)
  {
  }

  /** A snapshot of the mutable fields of a TestClassInterceptor. */
  datatype UnitState = UnitState(
    contextRef: Option<ObjectId>, assemblyRef: Option<ObjectId>, typeRef: Option<ObjectId>, loaded: bool,
    disposedObjects: nat, testMethodCount: nat,
    interceptorMethods: map<string, Interceptor>, methodReplacements: map<string, Replacement>,
    bindings: seq<Binding>, unloadRequested: bool)

  /** A unit's fields after one sweep from state `s`: the entries whose
      original is dead are removed and counted, unload is requested when the
      verdict from `s` says so, and every other field keeps its value. */
  function Swept(s: UnitState, dead: set<ObjectId>): UnitState
  {
    s.(bindings := LiveBindings(s.bindings, dead),
       disposedObjects := s.disposedObjects + |DeadBindings(s.bindings, dead)|,
       unloadRequested := s.unloadRequested || VerdictOf(s, dead) == Success(true))
  }

  /** The decision a sweep from state `s` reaches. */
  function VerdictOf(s: UnitState, dead: set<ObjectId>): Result<bool>
  {
    Verdict(s.bindings, s.disposedObjects, s.testMethodCount, s.contextRef, dead)
  }

  class TestClassInterceptor {
    const testType: TestType
    /** Weak references to the load context, the isolated assembly and the
        isolated type; None while the field is still null. */
    var contextRef: Option<ObjectId>
    var assemblyRef: Option<ObjectId>
    var typeRef: Option<ObjectId>
    var loaded: bool
    var disposedObjects: nat
    var testMethodCount: nat
    var interceptorMethods: map<string, Interceptor>
    var methodReplacements: map<string, Replacement>
    /** The redirect list, in insertion order. */
    var bindings: seq<Binding>
    /** Unload has been requested on the load context. */
    var unloadRequested: bool

    /** The three weak references are set exactly when the copy is loaded,
        and unload is only ever requested on a loaded copy. */
    ghost predicate Valid()
      reads this`contextRef, this`assemblyRef, this`typeRef, this`loaded, this`unloadRequested
    {
      && contextRef.Some? == loaded
      && assemblyRef.Some? == loaded
      && typeRef.Some? == loaded
      && (unloadRequested ==> loaded)
    }

    /** The tables are those of redirecting the methods of `ms` in order. */
    ghost predicate Redirects(ms: seq<MethodRecord>)
      reads this`interceptorMethods, this`methodReplacements
    {
      && interceptorMethods == InterceptorsFor(ms)
      && methodReplacements == ReplacementsFor(testType.id, ms)
    }

    /** The field initialisation of the constructor; setup and registration
        are InterceptorRegistry.Register. */
    constructor (testType: TestType)
      ensures Valid() && this.testType == testType
      ensures bindings == [] && interceptorMethods == map[] && methodReplacements == map[]
      ensures !loaded && !unloadRequested && disposedObjects == 0 && testMethodCount == 0
    {
      this.testType := testType;
      contextRef, assemblyRef, typeRef := None, None, None;
      loaded := false;
      disposedObjects, testMethodCount := 0, 0;
      interceptorMethods, methodReplacements := map[], map[];
      bindings := [];
      unloadRequested := false;
    }

    /** Counts the test methods, then redirects every eligible method in
        order, stopping at the first one it cannot redirect. */
    method PrepareIsolatedTestClass(methods: seq<MethodRecord>) returns (o: Outcome)
      requires interceptorMethods == map[] && methodReplacements == map[]
      modifies this`testMethodCount, this`interceptorMethods, this`methodReplacements
      ensures testMethodCount == |TestMethods(methods)|
      ensures Redirects(Accepted(Eligible(methods)))
      ensures o == SetupOutcome(Eligible(methods))
    {
      testMethodCount := |TestMethods(methods)|;
      o := RedirectAll(Eligible(methods));
    }

    method RedirectAll(eligible: seq<MethodRecord>) returns (o: Outcome)
      requires interceptorMethods == map[] && methodReplacements == map[]
      modifies this`interceptorMethods, this`methodReplacements
      ensures Redirects(Accepted(eligible))
      ensures o == SetupOutcome(eligible)
    {
      o := Pass;
      var i := 0;
      while i < |eligible|
        invariant i <= |eligible| && AcceptsPrefix(eligible, i) && o == Pass
        invariant Redirects(eligible[..i])
      {
        var m := eligible[i];
        AcceptableByTable(eligible, i);
        o := PrepareIsolatedTestMethod(m);
        if o.Fail? {
          break;
        }
        TablesStep(testType.id, eligible, i);
        i := i + 1;
      }
      SetupEndsAt(eligible, i);
    }

    /** Redirects one method: refuses one with parameters, then records its
        interceptor and the patch under the method's name; a name already
        recorded is refused by the dictionary. */
    method PrepareIsolatedTestMethod(m: MethodRecord) returns (o: Outcome)
      modifies this`interceptorMethods, this`methodReplacements
      ensures o.Pass? <==> m.parameterCount == 0 && m.name !in old(interceptorMethods)
      ensures o.Fail? ==>
        && o.error == Rejection(m)
        && interceptorMethods == old(interceptorMethods)
        && methodReplacements == old(methodReplacements)
      ensures o.Pass? ==>
        && interceptorMethods == old(interceptorMethods)[m.name := Interceptor(m.name)]
        && methodReplacements == old(methodReplacements)[m.name := Replacement(testType.id, m, Interceptor(m.name))]
    {
      if m.parameterCount > 0 {
        return Fail(NotSupported(m.name));
      }
      var interceptor := Interceptor(m.name);
      if m.name in interceptorMethods {
        return Fail(DuplicateMethodName(m.name));
      }
      interceptorMethods := interceptorMethods[m.name := interceptor];
      methodReplacements := methodReplacements[m.name := Replacement(testType.id, m, interceptor)];
      o := Pass;
    }

    /** Loads an independent copy of the class's assembly and finds the class
        in it; the weak references and the loaded flag are set only once
        every check has passed. */
    method LoadIsolatedAssembly(load: LoadResults) returns (o: Outcome)
      requires Valid()
      modifies this`contextRef, this`assemblyRef, this`typeRef, this`loaded
      ensures Valid()
      ensures LoadFault(testType, load).Some? ==>
        o == Fail(LoadFault(testType, load).value) && unchanged(this)
      ensures LoadFault(testType, load).None? ==>
        && o == Pass && loaded
        && contextRef == Some(load.context)
        && assemblyRef == load.assembly
        && typeRef == load.isolatedType
    {
      if load.assembly.None? {
        return Fail(AssemblyLoadFailed);
      }
      if load.assembly.value == testType.assembly {
        return Fail(NotIsolated);
      }
      if load.isolatedType.None? {
        return Fail(TypeNotFound);
      }
      contextRef, assemblyRef, typeRef := Some(load.context), load.assembly, load.isolatedType;
      loaded := true;
      o := Pass;
    }

    /** Index of the first entry of the redirect list that is alive and bound
        to `original`. */
    method FindLiveBinding(original: ObjectId, dead: set<ObjectId>) returns (found: Option<nat>)
      ensures found == FindLive(bindings, original, dead, 0)
    {
      var i := 0;
      while i < |bindings|
        invariant 0 <= i <= |bindings|
        invariant forall j :: 0 <= j < i ==> !Matches(bindings[j], original, dead)
      {
        if bindings[i].original !in dead && bindings[i].original == original {
          return Some(i);
        }
        i := i + 1;
      }
      return None;
    }

    /** The first check that fails when a new isolated instance is created
        (`created` is what CreateInstance returned), or None. */
    function CreationFault(dead: set<ObjectId>, created: Option<ObjectId>): (r: Option<Fault>)
      reads this
      ensures r.None? <==>
        && assemblyRef.Some? && assemblyRef.value !in dead
        && typeRef.Some? && typeRef.value !in dead
        && created.Some?
    {
      if assemblyRef.None? then Some(NullReference)
      else if assemblyRef.value in dead then Some(AssemblyCollected)
      else if typeRef.None? then Some(NullReference)
      else if typeRef.value in dead then Some(TypeCollected)
      else if created.None? then Some(CreateInstanceFailed)
      else None
    }

    /** Creates an instance of the isolated type through the isolated assembly,
        both reached through their weak references. */
    method CreateNewIsolatedInstance(dead: set<ObjectId>, created: Option<ObjectId>) returns (r: Result<ObjectId>)
      ensures r.Success? <==> CreationFault(dead, created).None?
      ensures r.Success? ==> r.value == created.value
      ensures r.Failure? ==> r.error == CreationFault(dead, created).value
    {
      if assemblyRef.None? {
        return Failure(NullReference);
      }
      if assemblyRef.value in dead {
        return Failure(AssemblyCollected);
      }
      if typeRef.None? {
        return Failure(NullReference);
      }
      if typeRef.value in dead {
        return Failure(TypeCollected);
      }
      if created.None? {
        return Failure(CreateInstanceFailed);
      }
      r := Success(created.value);
    }

    /** Finds the live entry for `original` or appends a new one with a fresh
        isolated instance. Returns the entry used and whether it already
        existed. */
    method FindOrAppendBinding(original: ObjectId, dead: set<ObjectId>, created: Option<ObjectId>)
      returns (r: Result<(Binding, bool)>)
      modifies this`bindings
      ensures FindLive(old(bindings), original, dead, 0).Some? ==>
        && bindings == old(bindings)
        && r == Success((old(bindings)[FindLive(old(bindings), original, dead, 0).value], true))
      ensures FindLive(old(bindings), original, dead, 0).None? && CreationFault(dead, created).Some? ==>
        bindings == old(bindings) && r == Failure(CreationFault(dead, created).value)
      ensures FindLive(old(bindings), original, dead, 0).None? && CreationFault(dead, created).None? ==>
        && bindings == old(bindings) + [Binding(original, created.value)]
        && r == Success((Binding(original, created.value), false))
    {
      var found := FindLiveBinding(original, dead);
      if found.Some? {
        return Success((bindings[found.value], true));
      }
      var instance := CreateNewIsolatedInstance(dead, created);
      if instance.Failure? {
        return Failure(instance.error);
      }
      var b := Binding(original, instance.value);
      bindings := bindings + [b];
      r := Success((b, false));
    }

    /** The instance lookup as the source writes it: an existing entry is
        handed back as the entry itself, a new one as the isolated instance. */
    method GetIsolatedInstance(original: ObjectId, dead: set<ObjectId>, created: Option<ObjectId>)
      returns (r: Result<Target>)
      modifies this`bindings
      ensures FindLive(old(bindings), original, dead, 0).Some? ==>
        && bindings == old(bindings)
        && r == Success(BindingTuple(old(bindings)[FindLive(old(bindings), original, dead, 0).value]))
      ensures FindLive(old(bindings), original, dead, 0).None? && CreationFault(dead, created).Some? ==>
        bindings == old(bindings) && r == Failure(CreationFault(dead, created).value)
      ensures FindLive(old(bindings), original, dead, 0).None? && CreationFault(dead, created).None? ==>
        && bindings == old(bindings) + [Binding(original, created.value)]
        && r == Success(Isolated(created.value))
    {
      var b := FindOrAppendBinding(original, dead, created);
      if b.Failure? {
        return Failure(b.error);
      }
      var (binding, existed) := b.value;
      if existed {
        r := Success(BindingTuple(binding));
      } else {
        r := Success(Isolated(binding.isolated));
      }
    }

    /** The instance lookup as evidently intended: both an existing and a new
        entry yield the isolated instance. */
    method ResolveIsolatedInstance(original: ObjectId, dead: set<ObjectId>, created: Option<ObjectId>)
      returns (r: Result<ObjectId>)
      modifies this`bindings
      ensures FindLive(old(bindings), original, dead, 0).Some? ==>
        && bindings == old(bindings)
        && r == Success(old(bindings)[FindLive(old(bindings), original, dead, 0).value].isolated)
      ensures FindLive(old(bindings), original, dead, 0).None? && CreationFault(dead, created).Some? ==>
        bindings == old(bindings) && r == Failure(CreationFault(dead, created).value)
      ensures FindLive(old(bindings), original, dead, 0).None? && CreationFault(dead, created).None? ==>
        && bindings == old(bindings) + [Binding(original, created.value)]
        && r == Success(created.value)
    {
      var b := FindOrAppendBinding(original, dead, created);
      if b.Failure? {
        return Failure(b.error);
      }
      r := Success(b.value.0.isolated);
    }

    /** Two lookups of the same live original, as the source writes them:
        whenever the first succeeds, the second hands back a redirect-list
        entry rather than an isolated instance. */
    method GetTwiceAsWritten(original: ObjectId, dead: set<ObjectId>, created: Option<ObjectId>)
      returns (first: Result<Target>, second: Result<Target>)
      requires original !in dead
      modifies this`bindings
      ensures first.Success? ==> second.Success? && second.value.BindingTuple?
    {
      ghost var before := bindings;
      first := GetIsolatedInstance(original, dead, created);
      if first.Success? && FindLive(before, original, dead, 0).None? {
        AppendedBindingIsFound(before, original, created.value, dead);
      }
      second := GetIsolatedInstance(original, dead, created);
    }

    /** Two lookups of the same live original, as intended: whenever the
        first succeeds, the second yields the same isolated instance. */
    method ResolveTwiceSameInstance(original: ObjectId, dead: set<ObjectId>, created: Option<ObjectId>)
      returns (first: Result<ObjectId>, second: Result<ObjectId>)
      requires original !in dead
      modifies this`bindings
      ensures first.Success? ==> second == first
    {
      ghost var before := bindings;
      first := ResolveIsolatedInstance(original, dead, created);
      if first.Success? && FindLive(before, original, dead, 0).None? {
        AppendedBindingIsFound(before, original, created.value, dead);
      }
      second := ResolveIsolatedInstance(original, dead, created);
    }

    /** What one dispatch of a redirected call on `original` did, from the
        enclosing method's pre-state: the isolated copy is loaded if it was
        not (a load fault changes nothing and is the result), the target is
        the live isolated instance bound to `original` or a new one bound to
        it (a creation fault is the result), and the call fails with a null
        reference exactly when the isolated type has been collected. The
        counters, the tables and the unload flag are untouched. */
    twostate predicate Dispatched(original: ObjectId, methodName: string, load: LoadResults,
                                  dead: set<ObjectId>, created: Option<ObjectId>, new r: Result<Invocation>)
      reads this
    {
      && (old(loaded) ==>
            loaded && contextRef == old(contextRef) && assemblyRef == old(assemblyRef) && typeRef == old(typeRef))
      && (!old(loaded) && LoadFault(testType, load).Some? ==>
            r == Failure(LoadFault(testType, load).value) && unchanged(this))
      && (!old(loaded) && LoadFault(testType, load).None? ==>
            && loaded
            && contextRef == Some(load.context)
            && assemblyRef == load.assembly
            && typeRef == load.isolatedType)
      && disposedObjects == old(disposedObjects) && testMethodCount == old(testMethodCount)
      && interceptorMethods == old(interceptorMethods) && methodReplacements == old(methodReplacements)
      && unloadRequested == old(unloadRequested)
      && (r.Failure? ==> bindings == old(bindings))
      && (loaded && FindLive(old(bindings), original, dead, 0).None? && CreationFault(dead, created).Some? ==>
            r == Failure(CreationFault(dead, created).value))
      && (loaded && (FindLive(old(bindings), original, dead, 0).Some? || CreationFault(dead, created).None?) ==>
            && typeRef.Some?
            && (r.Failure? <==> typeRef.value in dead)
            && (r.Failure? ==> r.error == NullReference))
      && (r.Success? ==> loaded && r.value.methodName == methodName)
      && (r.Success? && FindLive(old(bindings), original, dead, 0).Some? ==>
            && bindings == old(bindings)
            && r.value.target == BindingTuple(old(bindings)[FindLive(old(bindings), original, dead, 0).value]))
      && (r.Success? && FindLive(old(bindings), original, dead, 0).None? ==>
            && created.Some?
            && bindings == old(bindings) + [Binding(original, created.value)]
            && r.value.target == Isolated(created.value))
    }

    /** Dispatch of one redirected call on `original`: load the isolated copy
        if that has not happened yet, resolve the target, and look the isolated
        type up again through its weak reference to find the method. */
    method RunTestMethod(original: ObjectId, methodName: string, load: LoadResults,
                         dead: set<ObjectId>, created: Option<ObjectId>) returns (r: Result<Invocation>)
      requires Valid()
      modifies this`contextRef, this`assemblyRef, this`typeRef, this`loaded, this`bindings
      ensures Valid()
      ensures Dispatched(original, methodName, load, dead, created, r)
    {
      if !loaded {
        var o := LoadIsolatedAssembly(load);
        if o.Fail? {
          return Failure(o.error);
        }
      }
      var target := GetIsolatedInstance(original, dead, created);
      if target.Failure? {
        return Failure(target.error);
      }
      if typeRef.value in dead {
        return Failure(NullReference);
      }
      r := Success(Invocation(target.value, methodName));
    }

    /** The disposal decision this unit's next sweep would reach. */
    function DisposeVerdict(dead: set<ObjectId>): Result<bool>
      reads this
    {
      Verdict(bindings, disposedObjects, testMethodCount, contextRef, dead)
    }

    /** The values of this unit's mutable fields. */
    function State(): UnitState
      reads this
    {
      UnitState(contextRef, assemblyRef, typeRef, loaded, disposedObjects, testMethodCount,
                interceptorMethods, methodReplacements, bindings, unloadRequested)
    }

    /** The unit went through exactly one sweep since the enclosing method's
        pre-state: the dead entries are gone, the counter grew by their
        number, unload was requested if the verdict said so, and nothing else
        changed. */
    twostate predicate SweptOnce(dead: set<ObjectId>)
      reads this
    {
      State() == Swept(old(State()), dead)
    }

    /** The reaping half of a sweep: gathers the entries whose original has
        been collected, then removes each from the list and counts it. */
    method ReapCollected(dead: set<ObjectId>) returns (collected: seq<Binding>)
      modifies this`bindings, this`disposedObjects
      ensures collected == DeadBindings(old(bindings), dead)
      ensures bindings == LiveBindings(old(bindings), dead)
      ensures disposedObjects == old(disposedObjects) + |collected|
    {
      collected := DeadBindings(bindings, dead);
      for j := 0 to |collected|
        invariant LiveBindings(bindings, dead) == LiveBindings(old(bindings), dead)
        invariant DeadBindings(bindings, dead) == collected[j..]
        invariant disposedObjects == old(disposedObjects) + j
      {
        RemoveFirstDead(bindings, dead);
        bindings := RemoveFirst(bindings, collected[j]);
        disposedObjects := disposedObjects + 1;
      }
      NothingDeadKeepsAll(bindings, dead);
    }

    /** One sweep of this unit: reap the entries whose original is dead, count
        them, and unload when the count matches the number of test methods and
        this sweep reaped nothing. */
    method DisposeOfObjects(dead: set<ObjectId>) returns (r: Result<bool>)
      modifies this`bindings, this`disposedObjects, this`unloadRequested
      ensures old(Valid()) ==> Valid()
      ensures SweptOnce(dead)
      ensures r == old(DisposeVerdict(dead))
      ensures disposedObjects >= old(disposedObjects)
      ensures r == Success(true) <==>
        && disposedObjects == testMethodCount
        && DeadBindings(old(bindings), dead) == []
        && contextRef.Some? && contextRef.value !in dead
      ensures r.Failure? <==>
        && disposedObjects == testMethodCount
        && DeadBindings(old(bindings), dead) == []
        && (contextRef.None? || contextRef.value in dead)
      ensures r.Failure? ==> r.error == (if contextRef.None? then NullReference else LoadContextCollected)
    {
      var collected := ReapCollected(dead);
      if disposedObjects != testMethodCount {
        return Success(false);
      }
      if |collected| > 0 {
        return Success(false);
      }
      if contextRef.None? {
        return Failure(NullReference);
      }
      if contextRef.value in dead {
        return Failure(LoadContextCollected);
      }
      unloadRequested := true;
      r := Success(true);
    }
  }

  /** The process-wide map from isolated class to its interceptor, and the
      static dispatch entry every emitted interceptor calls. */
  class InterceptorRegistry {
    var interceptors: map<ObjectId, TestClassInterceptor>

    ghost predicate Valid()
      reads this, interceptors.Values
    {
      forall t :: t in interceptors ==> interceptors[t].testType.id == t && interceptors[t].Valid()
    }

    constructor ()
      ensures Valid() && interceptors == map[]
    {
      interceptors := map[];
    }

    /** Constructs the interceptor for `testType`: registers it first, then
        sets it up. A class registered before is refused; a class whose setup
        fails stays registered with the methods redirected before the
        failing one. */
    method Register(testType: TestType, methods: seq<MethodRecord>) returns (r: Result<TestClassInterceptor>)
      requires Valid()
      modifies this
      ensures Valid()
      ensures testType.id in old(interceptors) ==>
        r == Failure(DuplicateTestType) && interceptors == old(interceptors)
      ensures testType.id !in old(interceptors) ==>
        && interceptors.Keys == old(interceptors).Keys + {testType.id}
        && (forall t :: t in old(interceptors) ==> interceptors[t] == old(interceptors)[t])
        && fresh(interceptors[testType.id])
        && interceptors[testType.id].testType == testType
        && interceptors[testType.id].testMethodCount == |TestMethods(methods)|
        && interceptors[testType.id].Redirects(Accepted(Eligible(methods)))
        && interceptors[testType.id].bindings == []
        && !interceptors[testType.id].loaded
        && interceptors[testType.id].disposedObjects == 0
        && r == (if SetupOutcome(Eligible(methods)).Pass? then Success(interceptors[testType.id])
                 else Failure(SetupOutcome(Eligible(methods)).error))
    {
      if testType.id in interceptors {
        return Failure(DuplicateTestType);
      }
      var c := new TestClassInterceptor(testType);
      interceptors := interceptors[testType.id := c];
      var o := c.PrepareIsolatedTestClass(methods);
      if o.Fail? {
        return Failure(o.error);
      }
      r := Success(c);
    }

    /** The static dispatch entry: find the interceptor registered for the
        original's class and run the redirected call through it. */
    method TestMethod(instanceType: ObjectId, original: ObjectId, methodName: string, load: LoadResults,
                      dead: set<ObjectId>, created: Option<ObjectId>) returns (r: Result<Invocation>)
      requires Valid()
      modifies if instanceType in interceptors then {interceptors[instanceType]} else {}
      ensures Valid()
      ensures instanceType !in interceptors ==> r == Failure(UnknownTestType)
      ensures instanceType in interceptors ==>
        interceptors[instanceType].Dispatched(original, methodName, load, dead, created, r)
    {
      if instanceType !in interceptors {
        return Failure(UnknownTestType);
      }
      var c := interceptors[instanceType];
      r := c.RunTestMethod(original, methodName, load, dead, created);
    }
  }
}
