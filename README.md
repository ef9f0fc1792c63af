# Isolated test classes: redirect bookkeeping and the reclamation sweep

This project models the bookkeeping core of IsolatedTests, a library that runs
each test class marked "isolated" against its own, independently loaded and
later unloadable copy of the class's assembly. It also proves properties of
that model.

Two C# classes make up the core.

**`TestClassInterceptor`** is the isolation unit of one test class:

- **Setup.** The constructor registers the unit in a process-wide dictionary
  keyed by the class. It then counts the test methods and redirects every test,
  initialize and cleanup method. Redirecting a method means emitting a small
  interceptor for it, storing it under the method's name, and patching the
  original method to call that interceptor. Setup refuses methods that take
  parameters and repeated names.
- **First call.** The first redirected call loads a fresh copy of the assembly.
  The loader checks that the copy is a real copy and that it contains the class.
- **Instance lookup.** Each call is dispatched to the isolated instance that
  belongs to the original test instance. The unit keeps a redirect list of
  (weak reference to the original, isolated instance) entries and finds or
  creates the instance through that list.
- **Sweep.** A sweep removes the entries whose original has been collected and
  counts them. It requests unload of the loaded copy once the count reaches the
  number of test methods.

**`InterceptorWatcher`** is the periodic sweep over all units. Each tick runs
`List.RemoveAll` with the unit's sweep as the predicate, so units that unloaded
are no longer watched. It re-arms its timer while any unit is left.

## How the model is built

- **Object identities and liveness.** Every runtime object is an `ObjectId`,
  and two ids are equal exactly when `ReferenceEquals` holds. Weak references
  become one input: the set `dead` of objects the collector has reclaimed by
  the time of the call. It covers the originals, the load context, the
  isolated assembly and the isolated type.
- **The runtime's answers are inputs.** These are the id of the new load
  context, what `LoadFromAssemblyPath` and `GetType` return (`LoadResults`),
  and what `CreateInstance` returns (`created`). `None` stands for a null
  result.
- **Exceptions.** Every throw site, and every dereference of a null field or a
  dead weak reference, is a `Fault` constructor. Operations return a `Result`
  or `Outcome` that carries it.
- **State.** `TestClassInterceptor` is a class with the source's fields:
  - the redirect list `bindings`;
  - `disposedObjects` and `testMethodCount`;
  - `loaded`;
  - the three weak references (`contextRef`, `assemblyRef`, `typeRef`);
  - the two name-keyed tables;
  - an `unloadRequested` flag, which records the call to `Unload()`.

  Its methods update these fields in place. The static dictionary
  `registeredInterceptors` is the `InterceptorRegistry` object.
  `InterceptorWatcher` holds the watched list and returns the timer decision
  as `reschedule`.
- **Setup input.** Setup works on `MethodRecord`s: name, parameter count and
  markers, in reflection order. These stand for the reflected `MethodInfo`s.
- **Tables.** The tables hold opaque tokens. `Interceptor(name)` is the emitted
  method that dispatches under `name`. `Replacement` is the patch of one method
  with that interceptor.

The operations follow the code as written. `RunTestMethod` goes through
`GetIsolatedInstance`, and `DisposeOfObjects` decides by `Verdict`. Where that
code departs from its evident intent (see "## Findings"), the corrected
definition stands beside it with its property proved.

### What the code does that it evidently does not intend (the model follows the code)

Both cases have a row under "## Findings", with the code as written and the
corrected definition side by side.

- **Unload with live entries.** The unload test at
  `TestClassInterceptor.cs:101` counts only the entries this sweep reaped. The
  warning text on lines 102-104 shows the intent: no unload while entries
  remain. So the code unloads while a live entry remains, and it unloads one
  sweep late after a final reap (`DeferredUnloadFollows`).
- **Sweeps of never-loaded units fail.** A unit that was never loaded has a
  null load-context reference. Its sweep reaches that reference once the
  counter matches, which for a class with no test methods is the first sweep.
  The sweep then fails with a null dereference (`TestClassInterceptor.cs:108`),
  which escapes `RemoveAll` into the timer callback.

### Other behaviour of the code the model keeps

- **The disposed count is not bounded.** Nothing in the code bounds
  `_disposedObjects` by `_testMethodCount`, and the model does not either.
- **The load state stays set.** After `Unload()` (`TestClassInterceptor.cs:113`),
  `_loaded` and the three weak references keep their values. So the model's
  `loaded` stays true after unload.
- **Failed setup stays registered.** The registry entry is added before setup
  runs (`TestClassInterceptor.cs:41`). A class whose setup throws therefore
  stays registered, with the methods before the failing one already
  redirected.

## Model

| member | source | states |
|---|---|---|
| Bindings.Matches | TestClassInterceptor.cs:153 | an entry matches an original when its weak reference is alive and its target is that original by identity |
| Bindings.LiveBindings | TestClassInterceptor.cs:80-94 | an entry survives a reap exactly when its original is not dead; the survivors are never more than the entries |
| Bindings.DeadBindings | TestClassInterceptor.cs:80-81 | the collected entries are exactly those whose original is dead |
| Bindings.PartitionSizes | TestClassInterceptor.cs:80-94 | every entry is either reaped or kept, so the two counts add up to the list length |
| Bindings.NothingDeadKeepsAll | TestClassInterceptor.cs:80-94 | a reap leaves the list unchanged exactly when it collects nothing |
| Bindings.LiveBindingsIdempotent | TestClassInterceptor.cs:80-94 | a second reap with the same liveness removes nothing and collects nothing |
| Bindings.RemoveFirst | TestClassInterceptor.cs:92 | List.Remove shortens the list by one when the entry is present and leaves it unchanged otherwise |
| Bindings.RemoveFirstDead | TestClassInterceptor.cs:87-94 | removing the first collected entry keeps the live entries in order and leaves the rest of the collected entries |
| Bindings.FindLive | TestClassInterceptor.cs:153 | the lookup returns the first entry that is alive and bound to the original by identity, or none when there is no such entry |
| Bindings.AppendedBindingIsFound | TestClassInterceptor.cs:153-159 | after an entry is appended for a live original that had none, the lookup finds exactly that entry |
| Bindings.AppendOtherKeepsSearch | TestClassInterceptor.cs:153-159 | appending an entry for another original does not change the lookup |
| Setup.TestMethods | TestClassInterceptor.cs:51-53 | the selected methods are exactly those with a test marker, and there are no more of them than methods |
| Setup.FixtureMethods | TestClassInterceptor.cs:54-55 | the selected methods are exactly those with an initialize or cleanup marker |
| Setup.Eligible | TestClassInterceptor.cs:51-59 | setup visits every test method, then every initialize or cleanup method |
| Setup.TestIndices | TestClassInterceptor.cs:51-53 | the positions, in reflection order, of the methods with a test marker |
| Setup.TestMethodsAppend | TestClassInterceptor.cs:51-53 | selecting the test methods of two lists run together selects those of each, in order |
| Setup.TestIndicesOfLonger | TestClassInterceptor.cs:51-53 | one more method adds its position to the test positions exactly when it has a test marker |
| Setup.TestCountIsIndexCount | TestClassInterceptor.cs:51-57 | the test count setup records is the number of positions holding a test marker |
| Setup.Acceptable | TestClassInterceptor.cs:65-72 | setup can redirect a method when it has no parameters and no earlier visited method had its name |
| Setup.Rejection | TestClassInterceptor.cs:65-72 | a method with parameters raises NotSupported before anything else; a parameterless method is refused only for a repeated name, by the dictionary's duplicate-key error |
| Setup.NamesOfLongerPrefix | TestClassInterceptor.cs:72 | redirecting one more method adds exactly its name |
| Setup.FirstRejected | TestClassInterceptor.cs:59-67 | setup stops at an index between the start and the end of the eligible methods |
| Setup.FirstRejectedStops | TestClassInterceptor.cs:59-72 | every method before the stopping index is redirected, and the method at that index takes parameters or repeats a name |
| Setup.SetupSucceedsIff | TestClassInterceptor.cs:59-72 | setup gets through all eligible methods if and only if none takes parameters and no two share a name |
| Setup.FixturesAreNotCounted | TestClassInterceptor.cs:51-57 | an initialize or cleanup method without a test marker does not change the test count |
| Setup.AcceptsPrefixIff | TestClassInterceptor.cs:59-72 | getting through the first i methods means each of them is acceptable |
| Setup.FirstRejectedSkips | TestClassInterceptor.cs:59-72 | skipping a prefix that setup gets through does not move where setup stops |
| Setup.Accepted | TestClassInterceptor.cs:59-76 | the redirected methods are a prefix of the eligible methods |
| Setup.SetupOutcome | TestClassInterceptor.cs:59-72 | setup passes when it gets through every eligible method, and otherwise raises the rejection of the first method it cannot redirect |
| Setup.SetupEndsAt | TestClassInterceptor.cs:59-76 | where setup stops determines both what it redirected and the exception it raises: NotSupported for parameters, the dictionary's duplicate-key error otherwise |
| Setup.InterceptorsFor | TestClassInterceptor.cs:69-72 | the interceptor table after redirecting methods in order: each name maps to the interceptor that dispatches under that name |
| Setup.ReplacementsFor | TestClassInterceptor.cs:74-75 | the patch table after redirecting methods in order: each name maps to the patch of that method of the class with its interceptor |
| Setup.TablesStep | TestClassInterceptor.cs:72-75 | redirecting one more method updates both tables under that method's name |
| Setup.TablesCoverNames | TestClassInterceptor.cs:72-75 | both tables are keyed by exactly the names of the redirected methods |
| Setup.PatchesAreOfRedirected | TestClassInterceptor.cs:74-75 | every patch is of a redirected method and is filed under that method's name |
| Setup.AcceptableByTable | TestClassInterceptor.cs:65-72 | a method is acceptable exactly when it has no parameters and the interceptor table has no entry under its name yet |
| Setup.AcceptedPrefixTablesWellFormed | TestClassInterceptor.cs:64-76 | the tables built from any prefix that setup gets through agree with each other and hold only parameterless patches of this class |
| Setup.SetupTablesWellFormed | TestClassInterceptor.cs:50-76 | whatever the methods, the tables setup leaves behind are well formed, including after a failed setup |
| Interception.LoadFault | TestClassInterceptor.cs:117-132 | a load succeeds exactly when the assembly loads, is not the original assembly, and contains the test type; otherwise it reports the first failing check in the loader's order |
| Interception.Verdict | TestClassInterceptor.cs:97-114 | a sweep keeps the unit while the counter misses the test count or it reaped something; otherwise it unloads through a live load context, or raises for a null or collected one |
| Interception.Swept | TestClassInterceptor.cs:78-115 | a unit after one sweep: the dead entries gone, the counter grown by their number, unload requested when the verdict is unload, every other field as it was |
| Interception.VerdictOf | TestClassInterceptor.cs:97-114 | the verdict a sweep from a given unit state reaches |
| Interception.DeferredUnloadFollows | TestClassInterceptor.cs:97-114 | a sweep that reaps the last entries does not unload, and the next sweep with nothing new collected does |
| Interception.UnloadsWithLiveBinding | TestClassInterceptor.cs:101-114 | as written, the verdict is unload while a redirect entry's original is still alive |
| Interception.IntendedVerdict | TestClassInterceptor.cs:97-114 | the corrected verdict unloads only when the counter matches, no entry is left live and the load context is alive |
| Interception.NeverLoadedSweepFails | TestClassInterceptor.cs:97-110 | as written, the first sweep of a never-loaded unit for a class without test methods raises a null dereference |
| Interception.ReclaimVerdict | TestClassInterceptor.cs:97-114 | the corrected verdict never raises for a never-loaded unit; it raises only when the counter matches, nothing is live and a loaded context was collected; it releases a unit only when the counter matches and every entry's original is dead |
| Interception.NeverLoadedIsReleased | TestClassInterceptor.cs:97-114 | the corrected verdict releases a never-loaded unit without test methods on its first sweep, where the code raises |
| Interception.LoadedReclaimIsIntended | TestClassInterceptor.cs:97-114 | once the copy was loaded, the correction for never-loaded units agrees with `IntendedVerdict` |
| Interception.IntendedAgreesWhenNothingLive | TestClassInterceptor.cs:97-114 | with no live entry, every unload of the code as written is also an unload of the corrected verdict |
| Interception.TestClassInterceptor.constructor | TestClassInterceptor.cs:40-46 | a new unit has empty tables and an empty redirect list, is not loaded, and has both counters at zero |
| Interception.TestClassInterceptor.PrepareIsolatedTestClass | TestClassInterceptor.cs:50-62 | the test count is the number of test-marked methods only; the tables are those of the accepted prefix of tests followed by fixtures; the outcome is the first rejection or success |
| Interception.TestClassInterceptor.RedirectAll | TestClassInterceptor.cs:59-61 | visiting the eligible methods in order leaves exactly the tables of the accepted prefix and ends with that prefix's outcome |
| Interception.TestClassInterceptor.PrepareIsolatedTestMethod | TestClassInterceptor.cs:64-76 | a method is redirected if and only if it has no parameters and its name is new; a rejected method leaves both tables unchanged; an accepted one adds exactly one entry to each |
| Interception.TestClassInterceptor.LoadIsolatedAssembly | TestClassInterceptor.cs:117-138 | when a check fails nothing changes and `loaded` stays false; the weak references and `loaded` are set only after every check passes |
| Interception.TestClassInterceptor.FindLiveBinding | TestClassInterceptor.cs:153 | the linear search returns the first live entry bound to the original |
| Interception.TestClassInterceptor.CreationFault | TestClassInterceptor.cs:163-181 | creation succeeds exactly when the isolated assembly and type references are set and alive and CreateInstance returns an object |
| Interception.TestClassInterceptor.CreateNewIsolatedInstance | TestClassInterceptor.cs:163-181 | the created instance is returned, or the first failing check's exception |
| Interception.TestClassInterceptor.FindOrAppendBinding | TestClassInterceptor.cs:152-160 | with a live entry for the original the list is unchanged and that entry is used; otherwise exactly one new entry is appended, or on failure the list is unchanged |
| Interception.TestClassInterceptor.GetIsolatedInstance | TestClassInterceptor.cs:152-161 | as written: an existing entry is returned as the entry itself, and a new entry's isolated instance is returned after appending exactly that entry |
| Interception.TestClassInterceptor.ResolveIsolatedInstance | TestClassInterceptor.cs:152-161 | as intended: both an existing and a new entry yield the isolated instance, with the same list effect |
| Interception.TestClassInterceptor.GetTwiceAsWritten | TestClassInterceptor.cs:152-156 | two lookups of the same live original: whenever the first succeeds, the second yields a redirect entry instead of an instance |
| Interception.TestClassInterceptor.ResolveTwiceSameInstance | TestClassInterceptor.cs:152-161 | two corrected lookups of the same live original yield the same isolated instance |
| Interception.TestClassInterceptor.Dispatched | TestClassInterceptor.cs:140-161 | one dispatch: the assembly loads at most once, and once loaded the references stay as they were; a failed load is the result and changes nothing; after a load, a failed creation of a new instance is the result; otherwise the call fails with a null dereference exactly when the isolated type is collected; a successful call goes to the named method on the existing entry's target or on the new instance, appended exactly once; the counters, the tables and the unload flag are untouched |
| Interception.TestClassInterceptor.RunTestMethod | TestClassInterceptor.cs:140-150 | the unit stays consistent and the call is `Dispatched` |
| Interception.TestClassInterceptor.DisposeVerdict | TestClassInterceptor.cs:97-114 | the verdict this unit's next sweep reaches, from its current fields |
| Interception.TestClassInterceptor.State | TestClassInterceptor.cs:27-38 | a snapshot of the unit's mutable fields |
| Interception.TestClassInterceptor.SweptOnce | TestClassInterceptor.cs:78-115 | since the pre-state, the unit went through exactly one sweep and nothing else changed |
| Interception.TestClassInterceptor.ReapCollected | TestClassInterceptor.cs:80-94 | the collected entries are the dead ones; afterwards the list holds exactly the live entries in their order and the counter grew by the number collected |
| Interception.TestClassInterceptor.DisposeOfObjects | TestClassInterceptor.cs:78-115 | one sweep removes exactly the dead entries and counts them, and the counter never decreases. It answers true, and requests unload, if and only if the count equals the test count, nothing was reaped and the load context is alive. It fails if and only if the count matches and nothing was reaped but the load context is null or dead, with the matching exception |
| Interception.InterceptorRegistry.constructor | TestClassInterceptor.cs:23 | the registry starts empty |
| Interception.InterceptorRegistry.Register | TestClassInterceptor.cs:40-48 | a class registered before is refused and nothing changes; otherwise exactly that class is added, fresh and set up, and it stays registered even when setup fails |
| Interception.InterceptorRegistry.TestMethod | TestClassInterceptor.cs:184-188 | dispatch fails for an unregistered class; for a registered one the call is `Dispatched` by that class's unit, with every guarantee of `RunTestMethod` |
| Watching.StatesOf | InterceptorWatcher.cs:25 | the states of the watched units, one per unit, in list order |
| Watching.StatesOfAt | InterceptorWatcher.cs:25 | the k-th state is the k-th unit's |
| Watching.Verdicts | InterceptorWatcher.cs:25 | the decisions sweeps from the given states reach, one per unit, in list order |
| Watching.VerdictsAt | InterceptorWatcher.cs:25 | the k-th decision is the verdict of the k-th state |
| Watching.SweptUpTo | InterceptorWatcher.cs:25 | the states after the first n units went through one sweep each and the rest did not |
| Watching.Kept | InterceptorWatcher.cs:25 | the units RemoveAll keeps: those that answered "keep", in order |
| Watching.CountUnloaded | InterceptorWatcher.cs:25 | the number of units that answered "unload" |
| Watching.FirstFaultMeans | InterceptorWatcher.cs:25 | the first fault is a fault and every decision before it succeeded; with no first fault, every decision succeeded |
| Watching.SucceededUpTo | InterceptorWatcher.cs:25 | the first i decisions all succeeded |
| Watching.SucceededUpToIff | InterceptorWatcher.cs:25 | the recursive form agrees with "every decision before i succeeded", both ways |
| Watching.FirstFaultAt | InterceptorWatcher.cs:25 | the first fault is at i when the first i decisions succeeded and the one at i raised |
| Watching.Asked | InterceptorWatcher.cs:25 | RemoveAll asks every unit, or those up to and including the first that raises |
| Watching.FirstFault | InterceptorWatcher.cs:25 | the index of the first decision that raised, with every decision before it successful, or none when no decision raised |
| Watching.FirstFaultIs | InterceptorWatcher.cs:25 | the first fault is at i exactly when every decision before i succeeded and the one at i raised |
| Watching.Interrupted | InterceptorWatcher.cs:25 | the list RemoveAll leaves after an exception keeps the list's length |
| Watching.KeptStep | InterceptorWatcher.cs:25 | the survivors of one more element grow by that element exactly when its decision was "keep" |
| Watching.KeptLength | InterceptorWatcher.cs:25 | removal never lengthens the list |
| Watching.KeptPlusUnloaded | InterceptorWatcher.cs:25-26 | with no exception, survivors plus removed units make up the whole list, so the removal count is the number of units that unloaded |
| Watching.KeptMembers | InterceptorWatcher.cs:25 | a unit survives exactly when it answered "keep" |
| Watching.KeptAppend | InterceptorWatcher.cs:25 | removal keeps the relative order of the survivors |
| Watching.KeptDistinct | InterceptorWatcher.cs:25 | removal from a list without repeats leaves a list without repeats |
| Watching.AllUnloadedLeavesNone | InterceptorWatcher.cs:25-32 | when every unit unloads, nothing is left to watch |
| Watching.NoneUnloadedKeepsAll | InterceptorWatcher.cs:25 | when no unit unloads, the list is unchanged |
| Watching.InterruptedKeepsUnasked | InterceptorWatcher.cs:25 | after an exception, the unit that raised and every unit after it are still watched, each in its old slot |
| Watching.Ask | InterceptorWatcher.cs:25 | each call of the predicate is one full sweep of that unit, answering the decision the unit had before the tick; every other unit is left as it was |
| Watching.SweptFirst | InterceptorWatcher.cs:25 | since the pre-state, each of the first n units went through exactly one sweep and the others are as they were |
| Watching.SweepAll | InterceptorWatcher.cs:25 | the units are asked in order until the first exception; the survivors are exactly the units that answered "keep", in order; the stop point is the first fault or the end; the units asked are swept once each and the rest untouched |
| Watching.Tick | InterceptorWatcher.cs:25-32 | a tick succeeds exactly when no unit raises; on success the remaining list is exactly the units that answered "keep", the removal count is the number that unloaded, and the timer is re-armed if and only if a unit is left; on an exception the list is as RemoveAll leaves it and the exception is that unit's; every unit asked went through exactly one sweep and the rest are untouched |
| Watching.InterceptorWatcher.constructor | InterceptorWatcher.cs:14-16 | the watched list equals the given units, element for element, and is consistent when they are distinct |
| Watching.InterceptorWatcher.Callback | InterceptorWatcher.cs:22-33 | a tick succeeds exactly when no unit raises. The list never grows. On success the list is exactly the units that answered "keep", in order; the removal count is the number that unloaded; the timer is re-armed if and only if a unit is left. On an exception the list is as RemoveAll leaves it, and the exception is that unit's. Every unit asked, that is every unit up to and including the one that raised, went through exactly one sweep; the units after it are as they were |

## Left out

- Reflection-based method discovery (`GetMethods`, `GetCustomAttributes`, `HasAnyAttribute`). Setup takes the methods as `MethodRecord`s in reflection order instead.
- IL emission (`CreateInterceptorForTestMethod`) and runtime patching (`CLRHelper.ReplaceInstanceMethod`). These are foreign, runtime-specific calls. Their results are the opaque tokens `Interceptor` and `Replacement`.
- `MethodInfo.Invoke` and `GetMethod` on the isolated type (`TestClassInterceptor.cs:148-149`). `RunTestMethod` returns the `Invocation` it would make. A `GetMethod` that finds nothing is not modelled, because the isolated copy is the same code as the original. Neither is the AmbiguousMatchException that `GetMethod(name, Public | Instance)` raises when the class has another public instance method of the same name: setup (`TestClassInterceptor.cs:51-55`) never looks at unmarked methods, so such a class gets through setup and fails at its first call. `Dispatched` assumes no such overload exists when it says the call fails exactly when the isolated type is collected.
- Interception.TestClassInterceptor.DisposeOfObjects: takes every `Dispose()` of a collected entry's isolated instance (`TestClassInterceptor.cs:88-89`) to return. That is user code and can throw. An exception there stops the reap part way: the entries handled before it are already removed and counted, the current one is neither, and the exception escapes into RemoveAll. The model does not capture that partial reap.
- Interception.TestClassInterceptor.CreateNewIsolatedInstance: `assembly.CreateInstance` (`TestClassInterceptor.cs:174`) can throw, for a throwing constructor or a class without a public parameterless constructor, instead of returning null. The `created` input covers only an object or null, so that exception is not modelled.
- Weak references and the garbage collector. The `dead` set stands for liveness and is taken to be fixed for the duration of one call.
- All NLog logging.
- The `Timer` and `Start` (`InterceptorWatcher.cs:12, 18-20, 31`), and sweeps running concurrently with dispatch. `reschedule` is the decision to call `_timer.Change`.
- `TestAssemblyLoadContext.cs` is not part of this model. It is a collectible load context with dependency resolution, and its results are the `LoadResults` input.
- `TestIsolator.cs` and `IsolatedTests.cs` are not part of this model. They are an environment guard and reflection over the calling assembly.
- The test projects under `Tests/` are not part of this model. The return-type check that `Tests/TestClassInterceptorTest.cs:76-82` expects is absent from the source, so it is not modelled. Exception messages are not modelled either.
- `disposedObjects` and `testMethodCount` are unbounded naturals. The source's 32-bit `int` would need 2^31 disposals to wrap.
- Watching.Ask: requires the units to be distinct, for the same reason as `Callback` below.
- Watching.SweepAll: requires the units to be distinct, for the same reason as `Callback` below.
- Watching.Tick: requires the units to be distinct, for the same reason as `Callback` below.
- Watching.InterceptorWatcher.Callback: requires the watched units to be distinct. The only caller builds the list from units of distinct classes, and the registry refuses a second unit for the same class.
- Watching.InterceptorWatcher.Callback: an exception that escapes the tick is returned as a `Failure`. The process-level effect of an exception on a timer thread is not modelled. The timer is not re-armed in that case.
- Interception.TestClassInterceptor.DisposeOfObjects: keeps the unit's consistency only when it held before (`old(Valid()) ==> Valid()`). It does not require it, because the watcher may hold any unit.
- Interception.InterceptorRegistry.TestMethod: the runtime class of the instance, `instance.GetType()`, is the `instanceType` input.
- Agreement of the two tables is proved about setup's result (`Setup.SetupTablesWellFormed`) rather than kept as a class invariant. No later operation changes the tables.

## Findings

| source | as written | input that shows it | evidently intended | confidence | as-written member | corrected member |
|---|---|---|---|---|---|---|
| TestClassInterceptor.cs:155 | returns the entry `existing`, a `Tuple<WeakReference, object>`, as the instance to invoke the test method on | a second redirected call on the same live test instance, for example MSTest running the TestInitialize method and then the test method on one instance; `Invoke` then gets the tuple as its target | return `existing.Item2`, the isolated instance | high; not executed | Interception.TestClassInterceptor.GetTwiceAsWritten | Interception.TestClassInterceptor.ResolveTwiceSameInstance |
| TestClassInterceptor.cs:101 | refuses to unload only when this sweep reaped something (`collectedObjects.Count`) | one entry with a live original (10 to 20), 1 of 1 test instances disposed, a live load context, and nothing collected: the verdict is unload while the entry is live | refuse to unload while any entry of `_objectToProxy` remains, as the warning text on the next lines says | medium; not executed | Interception.UnloadsWithLiveBinding | Interception.IntendedVerdict |
| TestClassInterceptor.cs:108 | reads `Target` on `_weakTestAssemblyReference`, which is still null for a unit that was never loaded | a test class with no test methods, so never loaded: its first sweep has 0 of 0 disposed and nothing collected, and reaches line 108 with a null reference; the NullReferenceException escapes `RemoveAll` into the timer callback | a never-loaded unit with nothing left to wait for has nothing to unload and is released | medium; not executed | Interception.NeverLoadedSweepFails | Interception.ReclaimVerdict |
