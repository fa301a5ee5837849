/**
  The control flow of `Main`: check the arguments, split the assembly list,
  extract records assembly by assembly, serialise both lists and upload
  them, and turn the two upload results into the exit code.

  What the program gets from its environment is passed in: the loaded
  assemblies (a path missing from `loader` is one `Assembly.LoadFrom`
  rejects), the two readings of the UTC clock (each upload reads it once),
  and whether each of the two uploads was stored.
 */
module Program {
  import opened Wrappers
  import opened Text
  import opened Metadata
  import opened Extraction
  import opened Csv
  import opened Publishing
  import Timestamps

  const MissingRepositoryMessage := "Error: input RepositoryName is null"
  const Success := 0
  const Failure := -1

  /** One upload attempt: where the file goes and its lines. */
  datatype Upload = Upload(bucket: string, key: string, lines: seq<string>)

  /** How a run ends. */
  datatype Outcome =
    | Exited(code: int, stdout: seq<string>, uploads: seq<Upload>)
      /** `args[1]` threw: a repository name came without an assembly list. */
    | MissingAssemblyList
      /** `Assembly.LoadFrom` threw for this path; nothing catches it. */
    | LoadFailed(path: string)

  /** The assemblies that load, by path. */
  type Loader = map<string, Assembly>

  /** The first `n` paths load. */
  predicate LoadsUpTo(paths: seq<string>, n: nat, loader: Loader) {
    n <= |paths| && forall k :: 0 <= k < n ==> paths[k] in loader
  }

  /** Every path loads. */
  predicate AllLoad(paths: seq<string>, loader: Loader) {
    LoadsUpTo(paths, |paths|, loader)
  }

  /** The first path that does not load, if any. */
  function FirstUnloadable(paths: seq<string>, loader: Loader): Option<string> {
    if |paths| == 0 then None
    else if paths[0] !in loader then Some(paths[0])
    else FirstUnloadable(paths[1..], loader)
  }

  /** There is no path that fails to load exactly when all of them load. */
  lemma {:induction false} FirstUnloadableNone(paths: seq<string>, loader: Loader)
    ensures FirstUnloadable(paths, loader).None? <==> AllLoad(paths, loader)
  {
    if |paths| > 0 {
      FirstUnloadableNone(paths[1..], loader);
      assert forall k :: 1 <= k < |paths| ==> paths[k] == paths[1..][k - 1];
    }
  }

  /** The path reported is the first one that does not load. */
  lemma {:induction false} FirstUnloadableAt(paths: seq<string>, loader: Loader, k: nat)
    requires LoadsUpTo(paths, k, loader) && k < |paths| && paths[k] !in loader
    ensures FirstUnloadable(paths, loader) == Some(paths[k])
  {
    if k > 0 {
      assert paths[0] in loader;
      assert forall j :: 0 <= j < k - 1 ==> paths[1..][j] == paths[j + 1];
      FirstUnloadableAt(paths[1..], loader, k - 1);
    }
  }

  /** How many paths load before the first one that does not. */
  function LoadingPrefix(paths: seq<string>, loader: Loader): (n: nat)
    ensures LoadsUpTo(paths, n, loader)
    ensures n < |paths| ==> paths[n] !in loader
  {
    if |paths| == 0 || paths[0] !in loader then 0
    else
      var n := 1 + LoadingPrefix(paths[1..], loader);
      assert forall k :: 1 <= k < n ==> paths[k] == paths[1..][k - 1];
      n
  }

  /**
    No assembly the loop reaches makes `PullFixtureData` crash: the loop
    reaches only the assemblies before the first path that does not load,
    so the assemblies after it are never read.
   */
  predicate AllReadable(paths: seq<string>, loader: Loader) {
    forall k :: 0 <= k < LoadingPrefix(paths, loader) ==> FixturesReadable(loader[paths[k]].types)
  }

  /** An assembly the loop reaches is readable. */
  lemma ReachedReadable(paths: seq<string>, loader: Loader, k: nat)
    requires AllReadable(paths, loader) && LoadsUpTo(paths, k + 1, loader)
    ensures paths[k] in loader && FixturesReadable(loader[paths[k]].types)
  {
  }

  /**
    When the path at `k` is the first that does not load, only the
    assemblies before it need to be readable: whatever comes after is
    never loaded.
   */
  lemma ReadableUpToFailure(paths: seq<string>, loader: Loader, k: nat)
    requires LoadsUpTo(paths, k, loader) && k < |paths| && paths[k] !in loader
    ensures AllReadable(paths, loader) <==> forall j :: 0 <= j < k ==> FixturesReadable(loader[paths[j]].types)
  {
  }

  /** The fixture records of the first `n` assemblies, accumulated in path order. */
  function AllFixtures(paths: seq<string>, n: nat, loader: Loader): seq<FixtureData>
    requires LoadsUpTo(paths, n, loader) && AllReadable(paths, loader)
  {
    if n == 0 then []
    else AllFixtures(paths, n - 1, loader) + FixtureRecords(loader[paths[n - 1]].types)
  }

  /** The test records of the first `n` assemblies, accumulated in path order. */
  function AllTests(paths: seq<string>, n: nat, loader: Loader): seq<TestData>
    requires LoadsUpTo(paths, n, loader)
  {
    if n == 0 then []
    else AllTests(paths, n - 1, loader) + TestRecords(loader[paths[n - 1]].types)
  }

  /** The types of the first `n` assemblies, one list after the other. */
  function AllTypes(paths: seq<string>, n: nat, loader: Loader): seq<TypeEntry>
    requires LoadsUpTo(paths, n, loader)
  {
    if n == 0 then []
    else AllTypes(paths, n - 1, loader) + loader[paths[n - 1]].types
  }

  /** The types of assemblies that load and are readable are readable together. */
  lemma {:induction false} AllTypesReadable(paths: seq<string>, n: nat, loader: Loader)
    requires LoadsUpTo(paths, n, loader) && AllReadable(paths, loader)
    ensures FixturesReadable(AllTypes(paths, n, loader))
  {
    if n > 0 {
      var last := loader[paths[n - 1]].types;
      ReachedReadable(paths, loader, n - 1);
      AllTypesReadable(paths, n - 1, loader);
      assert AllTypes(paths, n, loader) == AllTypes(paths, n - 1, loader) + last;
    }
  }

  /**
    Accumulating fixture records assembly by assembly is the same as
    extracting them from all the types at once: nothing is lost, merged or
    reordered across assemblies.
   */
  lemma {:induction false} AllFixturesAreMergedExtraction(paths: seq<string>, n: nat, loader: Loader)
    requires LoadsUpTo(paths, n, loader) && AllReadable(paths, loader)
    ensures FixturesReadable(AllTypes(paths, n, loader))
    ensures AllFixtures(paths, n, loader) == FixtureRecords(AllTypes(paths, n, loader))
  {
    AllTypesReadable(paths, n, loader);
    if n > 0 {
      var prev := AllTypes(paths, n - 1, loader);
      var last := loader[paths[n - 1]].types;
      ReachedReadable(paths, loader, n - 1);
      AllFixturesAreMergedExtraction(paths, n - 1, loader);
      FixtureRecordsAppend(prev, last);
      assert AllTypes(paths, n, loader) == prev + last;
      assert AllFixtures(paths, n, loader) == AllFixtures(paths, n - 1, loader) + FixtureRecords(last);
    }
  }

  /** The same for test records. */
  lemma {:induction false} AllTestsAreMergedExtraction(paths: seq<string>, n: nat, loader: Loader)
    requires LoadsUpTo(paths, n, loader)
    ensures AllTests(paths, n, loader) == TestRecords(AllTypes(paths, n, loader))
  {
    if n > 0 {
      AllTestsAreMergedExtraction(paths, n - 1, loader);
      TestRecordsAppend(AllTypes(paths, n - 1, loader), loader[paths[n - 1]].types);
    }
  }

  /** `success ? 0 : -1` over the two upload results. */
  function ExitCode(fixturesStored: bool, testsStored: bool): int {
    if fixturesStored && testsStored then Success else Failure
  }

  /** What a run does, as a function of its inputs. */
  function Expected(
    args: seq<string>,
    loader: Loader,
    fixtureTime: Timestamps.Timestamp,
    testTime: Timestamps.Timestamp,
    fixturesStored: bool,
    testsStored: bool): Outcome
    requires Timestamps.Valid(fixtureTime) && Timestamps.Valid(testTime)
    requires |args| >= 2 ==> AllReadable(Split(args[1], Comma), loader)
  {
    if |args| == 0 then Exited(Failure, [MissingRepositoryMessage], [])
    else if |args| == 1 then MissingAssemblyList
    else
      var repositoryName, paths := args[0], Split(args[1], Comma);
      match FirstUnloadable(paths, loader)
      case Some(path) => LoadFailed(path)
      case None =>
        FirstUnloadableNone(paths, loader);
        Exited(
          ExitCode(fixturesStored, testsStored),
          [],
          [ Upload(Bucket, ObjectKey(repositoryName, FixtureDataType, fixtureTime),
                   FixtureCsv(AllFixtures(paths, |paths|, loader), repositoryName)),
            Upload(Bucket, ObjectKey(repositoryName, TestDataType, testTime),
                   TestCsv(AllTests(paths, |paths|, loader), repositoryName)) ])
  }

  /** Without arguments the run prints the error line, uploads nothing and returns -1. */
  lemma MissingRepositoryName(loader: Loader, fixtureTime: Timestamps.Timestamp, testTime: Timestamps.Timestamp, fixturesStored: bool, testsStored: bool)
    requires Timestamps.Valid(fixtureTime) && Timestamps.Valid(testTime)
    ensures var outcome := Expected([], loader, fixtureTime, testTime, fixturesStored, testsStored);
      outcome.Exited? && outcome.code == Failure && outcome.stdout == [MissingRepositoryMessage] && outcome.uploads == []
  {
  }

  /**
    A path that does not load ends the run before anything is uploaded, and
    the path reported is the first such path in the list.
   */
  lemma LoadFailureStopsRun(args: seq<string>, loader: Loader, fixtureTime: Timestamps.Timestamp, testTime: Timestamps.Timestamp, fixturesStored: bool, testsStored: bool, k: nat)
    requires |args| >= 2 && Timestamps.Valid(fixtureTime) && Timestamps.Valid(testTime)
    requires AllReadable(Split(args[1], Comma), loader)
    requires LoadsUpTo(Split(args[1], Comma), k, loader)
    requires k < |Split(args[1], Comma)| && Split(args[1], Comma)[k] !in loader
    ensures Expected(args, loader, fixtureTime, testTime, fixturesStored, testsStored) == LoadFailed(Split(args[1], Comma)[k])
  {
    FirstUnloadableAt(Split(args[1], Comma), loader, k);
  }

  /**
    `Main "r" "a,b"` where `a` does not load and `b` holds a fixture whose
    `TestApplication` attribute has no argument: the run stops at `a`, so
    the fixture in `b` that would crash `PullFixtureData` is never read.
   */
  lemma ExampleLaterUnreadableAssembly(fixtureTime: Timestamps.Timestamp, testTime: Timestamps.Timestamp, fixturesStored: bool, testsStored: bool)
    requires Timestamps.Valid(fixtureTime) && Timestamps.Valid(testTime)
    ensures var fixture := TypeEntry("XFixture", [CustomAttribute(ApplicationAttribute, [], false)], []);
      var loader := map["b" := Assembly([fixture])];
      && !FixturesReadable(loader["b"].types)
      && AllReadable(Split("a,b", Comma), loader)
      && Expected(["r", "a,b"], loader, fixtureTime, testTime, fixturesStored, testsStored) == LoadFailed("a")
  {
    var fixture := TypeEntry("XFixture", [CustomAttribute(ApplicationAttribute, [], false)], []);
    var loader := map["b" := Assembly([fixture])];
    assert EndsWith(fixture.name, FixtureSuffix);
    assert FirstNamed(fixture.attributes, ApplicationAttribute) == Some(0);
    assert Split("a,b", Comma) == ["a", "b"] by {
      var b, cb, acb := "b", ",b", "a,b";
      assert Split(b[1..], Comma) == [""];
      assert [b[0]] + "" == "b";
      assert Split(b, Comma) == ["b"];
      assert cb[1..] == b && cb[0] == Comma;
      assert Split(cb, Comma) == ["", "b"];
      assert acb[1..] == cb && acb[0] != Comma;
      assert [acb[0]] + "" == "a";
    }
    assert !FixtureReadable(fixture);
    assert !FixturesReadable(loader["b"].types);
    ReadableUpToFailure(["a", "b"], loader, 0);
    assert AllReadable(Split("a,b", Comma), loader);
    LoadFailureStopsRun(["r", "a,b"], loader, fixtureTime, testTime, fixturesStored, testsStored, 0);
  }

  /**
    The exit code is 0 exactly when a repository name was given, every
    assembly loaded and both uploads were stored; every other exit is -1.
   */
  lemma ExitCodeZeroIff(args: seq<string>, loader: Loader, fixtureTime: Timestamps.Timestamp, testTime: Timestamps.Timestamp, fixturesStored: bool, testsStored: bool)
    requires Timestamps.Valid(fixtureTime) && Timestamps.Valid(testTime)
    requires |args| >= 2 ==> AllReadable(Split(args[1], Comma), loader)
    ensures var outcome := Expected(args, loader, fixtureTime, testTime, fixturesStored, testsStored);
      && (outcome.Exited? ==> outcome.code == Success || outcome.code == Failure)
      && (outcome.Exited? && outcome.code == Success
          <==> |args| >= 2 && AllLoad(Split(args[1], Comma), loader) && fixturesStored && testsStored)
  {
    if |args| >= 2 {
      FirstUnloadableNone(Split(args[1], Comma), loader);
    }
  }

  /**
    Once every assembly loads, both files are uploaded whatever happens to
    the other one: the fixture file first, then the test file, to the one
    bucket and under two different keys. Each file is its header followed by
    one line per record extracted from all the assemblies' types together.
   */
  lemma BothFilesUploaded(args: seq<string>, loader: Loader, fixtureTime: Timestamps.Timestamp, testTime: Timestamps.Timestamp, fixturesStored: bool, testsStored: bool)
    requires |args| >= 2
    requires Timestamps.Valid(fixtureTime) && Timestamps.Valid(testTime)
    requires AllReadable(Split(args[1], Comma), loader) && AllLoad(Split(args[1], Comma), loader)
    ensures var paths := Split(args[1], Comma);
      var outcome := Expected(args, loader, fixtureTime, testTime, fixturesStored, testsStored);
      var types := AllTypes(paths, |paths|, loader);
      && FixturesReadable(types)
      && outcome.Exited? && outcome.stdout == [] && |outcome.uploads| == 2
      && outcome.uploads[0].bucket == Bucket && outcome.uploads[1].bucket == Bucket
      && outcome.uploads[0].key != outcome.uploads[1].key
      && outcome.uploads[0].lines == [FixtureHeader] + FixtureRows(FixtureRecords(types), args[0])
      && outcome.uploads[1].lines == [TestHeader] + TestRows(TestRecords(types), args[0])
  {
    var paths := Split(args[1], Comma);
    FirstUnloadableNone(paths, loader);
    AllFixturesAreMergedExtraction(paths, |paths|, loader);
    AllTestsAreMergedExtraction(paths, |paths|, loader);
    DataTypesNeverCollide(args[0], fixtureTime, testTime);
  }

  /** When every assembly loads, the run exits with both uploads. */
  lemma CompletedRun(args: seq<string>, loader: Loader, fixtureTime: Timestamps.Timestamp, testTime: Timestamps.Timestamp, fixturesStored: bool, testsStored: bool)
    requires |args| >= 2 && Timestamps.Valid(fixtureTime) && Timestamps.Valid(testTime)
    requires AllReadable(Split(args[1], Comma), loader) && AllLoad(Split(args[1], Comma), loader)
    ensures var paths := Split(args[1], Comma);
      Expected(args, loader, fixtureTime, testTime, fixturesStored, testsStored)
      == Exited(
           ExitCode(fixturesStored, testsStored),
           [],
           [ Upload(Bucket, ObjectKey(args[0], FixtureDataType, fixtureTime),
                    FixtureCsv(AllFixtures(paths, |paths|, loader), args[0])),
             Upload(Bucket, ObjectKey(args[0], TestDataType, testTime),
                    TestCsv(AllTests(paths, |paths|, loader), args[0])) ])
  {
    FirstUnloadableNone(Split(args[1], Comma), loader);
  }

  /**
    `Main`. A fixture attribute without constructor arguments is left out by
    the requires: the program throws on its null value.
   */
  method Run(
    args: seq<string>,
    loader: Loader,
    fixtureTime: Timestamps.Timestamp,
    testTime: Timestamps.Timestamp,
    fixturesStored: bool,
    testsStored: bool)
    returns (outcome: Outcome)
    requires Timestamps.Valid(fixtureTime) && Timestamps.Valid(testTime)
    requires |args| >= 2 ==> AllReadable(Split(args[1], Comma), loader)
    ensures outcome == Expected(args, loader, fixtureTime, testTime, fixturesStored, testsStored)
  {
    if |args| == 0 {
      return Exited(Failure, [MissingRepositoryMessage], []);
    }

    var repositoryName := args[0];
    if |args| == 1 {
      return MissingAssemblyList;
    }
    var assemblyInput := args[1];
    var assemblyPaths := Split(assemblyInput, Comma);

    var fixtureDataList: seq<FixtureData> := [];
    var testDataList: seq<TestData> := [];
    for i := 0 to |assemblyPaths|
      invariant LoadsUpTo(assemblyPaths, i, loader)
      invariant fixtureDataList == AllFixtures(assemblyPaths, i, loader)
      invariant testDataList == AllTests(assemblyPaths, i, loader)
    {
      var assemblyPath := assemblyPaths[i];
      if assemblyPath !in loader {
        LoadFailureStopsRun(args, loader, fixtureTime, testTime, fixturesStored, testsStored, i);
        return LoadFailed(assemblyPath);
      }
      assert LoadsUpTo(assemblyPaths, i + 1, loader);
      ReachedReadable(assemblyPaths, loader, i);
      var assembly := loader[assemblyPath];
      var fixtures := PullFixtureData(assembly);
      fixtureDataList := fixtureDataList + fixtures;
      var tests := PullTestData(assembly);
      testDataList := testDataList + tests;
    }

    CompletedRun(args, loader, fixtureTime, testTime, fixturesStored, testsStored);
    var fixtureLines := WriteFixtureData(fixtureDataList, repositoryName);
    var fixtureUpload := Upload(Bucket, ObjectKey(repositoryName, FixtureDataType, fixtureTime), fixtureLines);
    var uploadedFixtureDataSuccessfully := fixturesStored;

    var testLines := WriteTestData(testDataList, repositoryName);
    var testUpload := Upload(Bucket, ObjectKey(repositoryName, TestDataType, testTime), testLines);
    var uploadedTestDataSuccessfully := testsStored;

    var success := uploadedFixtureDataSuccessfully && uploadedTestDataSuccessfully;
    if !success {
      return Exited(Failure, [], [fixtureUpload, testUpload]);
    }
    return Exited(Success, [], [fixtureUpload, testUpload]);
  }
}
