/** What setup of a test class works on: the class's public instance methods,
    each with its name, its parameter count and the markers it carries, in the
    order reflection lists them; which of them are redirected; and at which
    one setup stops. */
module Setup {
  import opened Common

  /** A public instance method of the test class. `isTest` stands for a test
      marker (xUnit Fact, MSTest TestMethod), `isFixture` for a per-test
      initialize or cleanup marker. */
  datatype MethodRecord = MethodRecord(name: string, parameterCount: nat, isTest: bool, isFixture: bool)

  /** The methods carrying a test marker, in reflection order. */
  function TestMethods(ms: seq<MethodRecord>): (r: seq<MethodRecord>)
    ensures |r| <= |ms|
    ensures forall m :: m in r <==> m in ms && m.isTest
  {
    if ms == [] then []
    else (if ms[0].isTest then [ms[0]] else []) + TestMethods(ms[1..])
  }

  /** The methods carrying an initialize or cleanup marker, in reflection order. */
  function FixtureMethods(ms: seq<MethodRecord>): (r: seq<MethodRecord>)
    ensures |r| <= |ms|
    ensures forall m :: m in r <==> m in ms && m.isFixture
  {
    if ms == [] then []
    else (if ms[0].isFixture then [ms[0]] else []) + FixtureMethods(ms[1..])
  }

  /** The methods setup redirects, in the order it visits them: every test
      method first, then every initialize or cleanup method. */
  function Eligible(ms: seq<MethodRecord>): seq<MethodRecord>
  {
    TestMethods(ms) + FixtureMethods(ms)
  }

  function Names(ms: seq<MethodRecord>): set<string>
  {
    set m | m in ms :: m.name
  }

  /** Extending a prefix by one method adds that method's name. */
  lemma NamesOfLongerPrefix(ms: seq<MethodRecord>, i: nat)
    requires i < |ms|
    ensures Names(ms[..i + 1]) == Names(ms[..i]) + {ms[i].name}
  {
    assert ms[..i + 1] == ms[..i] + [ms[i]];
  }

  /** Setup can redirect the k-th eligible method: it takes no parameters and
      no earlier eligible method had its name. */
  predicate Acceptable(ms: seq<MethodRecord>, k: nat)
    requires k < |ms|
  {
    ms[k].parameterCount == 0 && ms[k].name !in Names(ms[..k])
  }

  /** The exception setup raises at a method it cannot redirect: parameters
      are checked first, the duplicate name only when a dictionary entry is
      about to be added. */
  function Rejection(m: MethodRecord): Fault
  {
    if m.parameterCount > 0 then NotSupported(m.name) else DuplicateMethodName(m.name)
  }

  /** Index of the first method from `from` on that setup cannot redirect,
      or |ms| when it can redirect all of them. */
  function FirstRejected(ms: seq<MethodRecord>, from: nat): (k: nat)
    requires from <= |ms|
    decreases |ms| - from
    ensures from <= k <= |ms|
  {
    if from == |ms| then from
    else if !Acceptable(ms, from) then from
    else FirstRejected(ms, from + 1)
  }

  /** Setup accepts every method before the index it stops at, and refuses
      the method at that index. */
  lemma {:induction false} FirstRejectedStops(ms: seq<MethodRecord>, from: nat)
    requires from <= |ms|
    decreases |ms| - from
    ensures forall j :: from <= j < FirstRejected(ms, from) ==> Acceptable(ms, j)
    ensures FirstRejected(ms, from) < |ms| ==> !Acceptable(ms, FirstRejected(ms, from))
  {
    if from < |ms| && Acceptable(ms, from) {
      FirstRejectedStops(ms, from + 1);
    }
  }

  /** Setup gets through every method exactly when none takes parameters and
      no two share a name. */
  lemma SetupSucceedsIff(ms: seq<MethodRecord>)
    ensures FirstRejected(ms, 0) == |ms| <==>
      (forall i :: 0 <= i < |ms| ==> ms[i].parameterCount == 0) &&
      (forall i, j :: 0 <= i < j < |ms| ==> ms[i].name != ms[j].name)
  {
    var k := FirstRejected(ms, 0);
    FirstRejectedStops(ms, 0);
    if k == |ms| {
      forall i | 0 <= i < |ms| ensures ms[i].parameterCount == 0 {
        assert Acceptable(ms, i);
      }
      forall i, j | 0 <= i < j < |ms| ensures ms[i].name != ms[j].name {
        assert Acceptable(ms, j);
        assert ms[i] == ms[..j][i];
        assert ms[i].name in Names(ms[..j]);
      }
    } else {
      if ms[k].parameterCount == 0 {
        var i :| 0 <= i < k && ms[..k][i].name == ms[k].name;
        assert ms[i].name == ms[k].name;
      }
    }
  }

  /** The counted methods are the test methods alone: adding an initialize or
      cleanup method that carries no test marker leaves the count as it was. */
  lemma {:induction false} FixturesAreNotCounted(ms: seq<MethodRecord>, m: MethodRecord)
    requires !m.isTest
    ensures |TestMethods(ms + [m])| == |TestMethods(ms)|
  {
    if ms == [] {
      assert TestMethods([m]) == [] + TestMethods([]);
    } else {
      FixturesAreNotCounted(ms[1..], m);
      assert (ms + [m])[1..] == ms[1..] + [m];
    }
  }

  /** The positions of the methods carrying a test marker. */
  function TestIndices(ms: seq<MethodRecord>): set<nat>
  {
    set i: nat | i < |ms| && ms[i].isTest
  }

  /** Selecting test methods distributes over concatenation. */
  lemma {:induction false} TestMethodsAppend(a: seq<MethodRecord>, b: seq<MethodRecord>)
    ensures TestMethods(a + b) == TestMethods(a) + TestMethods(b)
  {
    if a == [] {
      assert a + b == b;
    } else {
      var head := if a[0].isTest then [a[0]] else [];
      assert (a + b)[0] == a[0] && (a + b)[1..] == a[1..] + b;
      assert TestMethods(a + b) == head + TestMethods(a[1..] + b);
      TestMethodsAppend(a[1..], b);
      assert TestMethods(a) == head + TestMethods(a[1..]);
    }
  }

  /** Extending the methods by one adds its position when it is a test. */
  lemma TestIndicesOfLonger(ms: seq<MethodRecord>)
    requires ms != []
    ensures TestIndices(ms) ==
      TestIndices(ms[..|ms| - 1]) + (if ms[|ms| - 1].isTest then {|ms| - 1} else {})
  {
    var n := |ms| - 1;
    forall i: nat
      ensures i in TestIndices(ms) <==> i in TestIndices(ms[..n]) || (ms[n].isTest && i == n)
    {
      if i < n {
        assert ms[..n][i] == ms[i];
      }
    }
  }

  /** The number of test methods setup counts is the number of positions
      holding a test marker. */
  lemma {:induction false} TestCountIsIndexCount(ms: seq<MethodRecord>)
    ensures |TestMethods(ms)| == |TestIndices(ms)|
  {
    if ms != [] {
      var n := |ms| - 1;
      var p := ms[..n];
      var head := if ms[n].isTest then [ms[n]] else [];
      TestCountIsIndexCount(p);
      assert |TestMethods(ms)| == |TestMethods(p)| + |head| by {
        TestMethodsAppend(p, [ms[n]]);
        assert p + [ms[n]] == ms;
        assert TestMethods([ms[n]]) == head + TestMethods([]);
      }
      assert |TestIndices(ms)| == |TestIndices(p)| + |head| by {
        TestIndicesOfLonger(ms);
        assert n !in TestIndices(p);
      }
    }
  }

  /** Setup gets through the first i methods: the recursive form of "every
      method before i is acceptable". */
  predicate AcceptsPrefix(ms: seq<MethodRecord>, i: nat)
    requires i <= |ms|
  {
    i == 0 || (AcceptsPrefix(ms, i - 1) && Acceptable(ms, i - 1))
  }

  lemma {:induction false} AcceptsPrefixIff(ms: seq<MethodRecord>, i: nat)
    requires i <= |ms|
    ensures AcceptsPrefix(ms, i) <==> forall j :: 0 <= j < i ==> Acceptable(ms, j)
  {
    if i > 0 {
      AcceptsPrefixIff(ms, i - 1);
    }
  }

  /** Skipping a prefix setup gets through does not move where it stops. */
  lemma {:induction false} FirstRejectedSkips(ms: seq<MethodRecord>, i: nat)
    requires i <= |ms| && AcceptsPrefix(ms, i)
    ensures FirstRejected(ms, 0) == FirstRejected(ms, i)
  {
    if i > 0 {
      FirstRejectedSkips(ms, i - 1);
    }
  }

  /** The methods setup redirects before it stops: the longest prefix of
      `eligible` it gets through. */
  function Accepted(eligible: seq<MethodRecord>): (r: seq<MethodRecord>)
    ensures |r| <= |eligible|
  {
    eligible[..FirstRejected(eligible, 0)]
  }

  /** The outcome setup ends with, for the eligible methods in visiting order. */
  function SetupOutcome(eligible: seq<MethodRecord>): Outcome
  {
    var k := FirstRejected(eligible, 0);
    if k == |eligible| then Pass else Fail(Rejection(eligible[k]))
  }

  /** Where setup stops determines what it redirected and how it ends. */
  lemma SetupEndsAt(ms: seq<MethodRecord>, i: nat)
    requires i <= |ms| && AcceptsPrefix(ms, i)
    requires i < |ms| ==> !Acceptable(ms, i)
    ensures Accepted(ms) == ms[..i]
    ensures SetupOutcome(ms) == if i == |ms| then Pass else Fail(Rejection(ms[i]))
  {
    FirstRejectedSkips(ms, i);
  }

  /** The dynamic method emitted for one test method: it passes the instance
      it is called on, and this method name, to the static dispatch entry. */
  datatype Interceptor = Interceptor(dispatches: string)

  /** What runtime patching returns: which method of which class now runs
      which interceptor. */
  datatype Replacement = Replacement(classType: ObjectId, patched: MethodRecord, via: Interceptor)

  /** The interceptor table after redirecting the methods of `ms` in order. */
  function InterceptorsFor(ms: seq<MethodRecord>): map<string, Interceptor>
  {
    if ms == [] then map[]
    else
      var last := ms[|ms| - 1];
      InterceptorsFor(ms[..|ms| - 1])[last.name := Interceptor(last.name)]
  }

  /** The patch table after redirecting the methods `ms` of class
      `classType` in order. */
  function ReplacementsFor(classType: ObjectId, ms: seq<MethodRecord>): map<string, Replacement>
  {
    if ms == [] then map[]
    else
      var last := ms[|ms| - 1];
      ReplacementsFor(classType, ms[..|ms| - 1])[last.name := Replacement(classType, last, Interceptor(last.name))]
  }

  /** Redirecting one more method updates both tables under its name. */
  lemma TablesStep(classType: ObjectId, ms: seq<MethodRecord>, i: nat)
    requires i < |ms|
    ensures InterceptorsFor(ms[..i + 1]) == InterceptorsFor(ms[..i])[ms[i].name := Interceptor(ms[i].name)]
    ensures ReplacementsFor(classType, ms[..i + 1]) ==
      ReplacementsFor(classType, ms[..i])[ms[i].name := Replacement(classType, ms[i], Interceptor(ms[i].name))]
  {
    assert ms[..i + 1][..i] == ms[..i];
  }

  /** Both tables are keyed by exactly the names of the redirected methods. */
  lemma {:induction false} TablesCoverNames(classType: ObjectId, ms: seq<MethodRecord>)
    ensures InterceptorsFor(ms).Keys == Names(ms)
    ensures ReplacementsFor(classType, ms).Keys == Names(ms)
  {
    if ms != [] {
      var n := |ms| - 1;
      TablesCoverNames(classType, ms[..n]);
      NamesOfLongerPrefix(ms, n);
      assert ms[..n + 1] == ms;
    }
  }

  /** Every patch is of one of the redirected methods, filed under its name. */
  lemma {:induction false} PatchesAreOfRedirected(classType: ObjectId, ms: seq<MethodRecord>)
    ensures forall n :: n in ReplacementsFor(classType, ms) ==>
      ReplacementsFor(classType, ms)[n].patched in ms && ReplacementsFor(classType, ms)[n].patched.name == n
  {
    if ms != [] {
      var n := |ms| - 1;
      PatchesAreOfRedirected(classType, ms[..n]);
      assert forall m :: m in ms[..n] ==> m in ms;
    }
  }

  /** Setup accepts the i-th method exactly when it takes no parameters and
      the table built so far has no entry under its name. */
  lemma AcceptableByTable(ms: seq<MethodRecord>, i: nat)
    requires i < |ms|
    ensures Acceptable(ms, i) <==> ms[i].parameterCount == 0 && ms[i].name !in InterceptorsFor(ms[..i])
  {
    TablesCoverNames(0, ms[..i]);
  }

  /** The two tables of one class agree: the same names, each name mapped to
      the interceptor dispatching under it and to the patch of a
      parameterless method of that name, made with that interceptor. */
  predicate WellFormedTables(classType: ObjectId, interceptors: map<string, Interceptor>,
                             replacements: map<string, Replacement>)
  {
    && interceptors.Keys == replacements.Keys
    && (forall n :: n in interceptors ==> interceptors[n] == Interceptor(n))
    && (forall n :: n in replacements ==>
          && replacements[n].classType == classType
          && replacements[n].patched.name == n
          && replacements[n].patched.parameterCount == 0
          && replacements[n].via == Interceptor(n))
  }

  lemma {:induction false} AcceptedPrefixTablesWellFormed(classType: ObjectId, ms: seq<MethodRecord>, i: nat)
    requires i <= |ms| && AcceptsPrefix(ms, i)
    ensures WellFormedTables(classType, InterceptorsFor(ms[..i]), ReplacementsFor(classType, ms[..i]))
  {
    if i > 0 {
      AcceptedPrefixTablesWellFormed(classType, ms, i - 1);
      TablesStep(classType, ms, i - 1);
    }
  }

  /** Whatever the methods, the tables setup leaves behind are well formed. */
  lemma SetupTablesWellFormed(classType: ObjectId, ms: seq<MethodRecord>)
    ensures WellFormedTables(classType, InterceptorsFor(Accepted(ms)), ReplacementsFor(classType, Accepted(ms)))
  {
    FirstRejectedStops(ms, 0);
    AcceptsPrefixIff(ms, FirstRejected(ms, 0));
    AcceptedPrefixTablesWellFormed(classType, ms, FirstRejected(ms, 0));
  }
}
