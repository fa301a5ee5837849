/**
  The two CSV serialisers (`WriteFixtureDataToStream`, `WriteTestDataToStream`).
  Each writes its fixed header line and then one line per record, the
  record's fields joined by commas with the repository name as the last
  column. Nothing is escaped: single-valued fields go out as they are, and a
  null field becomes an empty column. The stream is modelled as the sequence
  of lines written to it.
 */
module Csv {
  import opened Text
  import opened Extraction

  const FixtureHeader := "test_fixture,application,domain_owner,test_type,repository_name"
  const TestHeader := "test_name,test_fixture,environments,feature_types,categories,repository_name"

  // ---------------------------------------------------------------------
  // Fixture file
  // ---------------------------------------------------------------------

  /** The columns of a fixture row; a null field prints as nothing. */
  function FixtureColumns(f: FixtureData, repositoryName: string): seq<string> {
    [f.testFixture, f.application.GetOr(""), f.domainOwner.GetOr(""), f.testType.GetOr(""), repositoryName]
  }

  /** One fixture row. */
  function FixtureRow(f: FixtureData, repositoryName: string): string {
    Join(FixtureColumns(f, repositoryName), Comma)
  }

  /**
    The row is exactly `TestFixture,Application,DomainOwner,TestType,repositoryName`,
    with an empty stretch between commas for each null field.
   */
  lemma FixtureRowLayout(f: FixtureData, repositoryName: string)
    ensures FixtureRow(f, repositoryName)
      == f.testFixture + [Comma] + f.application.GetOr("") + [Comma] + f.domainOwner.GetOr("")
         + [Comma] + f.testType.GetOr("") + [Comma] + repositoryName
  {
    var cs := FixtureColumns(f, repositoryName);
    JoinFrom(cs, 0, Comma);
    JoinFrom(cs, 1, Comma);
    JoinFrom(cs, 2, Comma);
    JoinFrom(cs, 3, Comma);
    assert cs[4..] == [repositoryName];
    assert cs[0..] == cs;
  }

  /**
    When no field holds a comma, splitting a row on commas gives back its
    five columns, matching the five names of the header.
   */
  lemma FixtureRowColumns(f: FixtureData, repositoryName: string)
    requires forall k :: 0 <= k < 5 ==> Comma !in FixtureColumns(f, repositoryName)[k]
    ensures Split(FixtureRow(f, repositoryName), Comma) == FixtureColumns(f, repositoryName)
  {
    SplitJoin(FixtureColumns(f, repositoryName), Comma);
  }

  /** The data rows, one per record, in record order. */
  function FixtureRows(fixtureObjects: seq<FixtureData>, repositoryName: string): (rows: seq<string>)
    ensures |rows| == |fixtureObjects|
    ensures forall k :: 0 <= k < |rows| ==> rows[k] == FixtureRow(fixtureObjects[k], repositoryName)
  {
    if |fixtureObjects| == 0 then []
    else [FixtureRow(fixtureObjects[0], repositoryName)] + FixtureRows(fixtureObjects[1..], repositoryName)
  }

  /** The whole fixture file: the header, then the rows. */
  function FixtureCsv(fixtureObjects: seq<FixtureData>, repositoryName: string): seq<string> {
    [FixtureHeader] + FixtureRows(fixtureObjects, repositoryName)
  }

  /**
    `WriteFixtureDataToStream`: the header line, then one `WriteLine` per
    record in list order.
   */
  method WriteFixtureData(fixtureObjects: seq<FixtureData>, repositoryName: string) returns (lines: seq<string>)
    ensures |lines| == |fixtureObjects| + 1
    ensures lines == FixtureCsv(fixtureObjects, repositoryName)
  {
    lines := [FixtureHeader];
    for i := 0 to |fixtureObjects|
      invariant |lines| == i + 1 && lines[0] == FixtureHeader
      invariant forall k :: 0 <= k < i ==> lines[k + 1] == FixtureRow(fixtureObjects[k], repositoryName)
    {
      var fixtureObject := fixtureObjects[i];
      lines := lines + [FixtureRow(fixtureObject, repositoryName)];
    }
  }

  /** An empty list gives the header line alone. */
  lemma EmptyFixtureCsv(repositoryName: string)
    ensures FixtureCsv([], repositoryName) == [FixtureHeader]
  {
  }

  // ---------------------------------------------------------------------
  // Test file
  // ---------------------------------------------------------------------

  /** The columns of a test row. */
  function TestColumns(t: TestData, repositoryName: string): seq<string> {
    [t.testName, t.testFixture, t.environments, t.featureTypes, t.categories, repositoryName]
  }

  /** One test row. */
  function TestRow(t: TestData, repositoryName: string): string {
    Join(TestColumns(t, repositoryName), Comma)
  }

  /** The row is exactly `TestName,TestFixture,Environments,FeatureTypes,Categories,repositoryName`. */
  lemma TestRowLayout(t: TestData, repositoryName: string)
    ensures TestRow(t, repositoryName)
      == t.testName + [Comma] + t.testFixture + [Comma] + t.environments + [Comma] + t.featureTypes
         + [Comma] + t.categories + [Comma] + repositoryName
  {
    var cs := TestColumns(t, repositoryName);
    JoinFrom(cs, 0, Comma);
    JoinFrom(cs, 1, Comma);
    JoinFrom(cs, 2, Comma);
    JoinFrom(cs, 3, Comma);
    JoinFrom(cs, 4, Comma);
    assert cs[5..] == [repositoryName];
    assert cs[0..] == cs;
    RegroupRow(t.testName, t.testFixture, t.environments, t.featureTypes, t.categories, repositoryName, Comma);
  }

  /** Regrouping the concatenation in `TestRowLayout`. */
  lemma RegroupRow<T>(a: seq<T>, b: seq<T>, c: seq<T>, d: seq<T>, e: seq<T>, f: seq<T>, x: T)
    ensures a + [x] + (b + [x] + (c + [x] + (d + [x] + (e + [x] + f))))
      == a + [x] + b + [x] + c + [x] + d + [x] + e + [x] + f
  {
  }

  /**
    Splitting a test row on commas: the test name and fixture come first and
    the repository name last (when none of the three holds a comma); in
    between come the pieces of the three family fields, so a field listing
    several values spreads over several pieces, since nothing is escaped.
   */
  lemma TestRowColumns(t: TestData, repositoryName: string)
    requires Comma !in t.testName && Comma !in t.testFixture && Comma !in repositoryName
    ensures Split(TestRow(t, repositoryName), Comma)
      == [t.testName, t.testFixture]
         + Split(t.environments, Comma) + Split(t.featureTypes, Comma) + Split(t.categories, Comma)
         + [repositoryName]
  {
    var cs := TestColumns(t, repositoryName);
    SplitJoinEach(cs, Comma);
    var ps := [t.featureTypes, t.categories, repositoryName];
    assert cs == [t.testName] + ([t.testFixture] + ([t.environments] + ps));
    assert ps == [t.featureTypes] + ([t.categories] + ([repositoryName] + []));
    SplitEachCons(t.testName, [t.testFixture] + ([t.environments] + ps), Comma);
    SplitEachCons(t.testFixture, [t.environments] + ps, Comma);
    SplitEachCons(t.environments, ps, Comma);
    SplitEachCons(t.featureTypes, [t.categories] + ([repositoryName] + []), Comma);
    SplitEachCons(t.categories, [repositoryName] + [], Comma);
    SplitEachCons(repositoryName, [], Comma);
    SplitWithoutSeparator(t.testName, Comma);
    SplitWithoutSeparator(t.testFixture, Comma);
    SplitWithoutSeparator(repositoryName, Comma);
    Regroup(t.testName, t.testFixture, repositoryName,
      Split(t.environments, Comma), Split(t.featureTypes, Comma), Split(t.categories, Comma));
  }

  /** Regrouping the concatenation in `TestRowColumns`. */
  lemma Regroup<T>(a: T, b: T, f: T, c: seq<T>, d: seq<T>, e: seq<T>)
    ensures [a] + ([b] + (c + (d + (e + ([f] + []))))) == [a, b] + c + d + e + [f]
  {
  }

  /** The data rows, one per record, in record order. */
  function TestRows(testObjects: seq<TestData>, repositoryName: string): (rows: seq<string>)
    ensures |rows| == |testObjects|
    ensures forall k :: 0 <= k < |rows| ==> rows[k] == TestRow(testObjects[k], repositoryName)
  {
    if |testObjects| == 0 then []
    else [TestRow(testObjects[0], repositoryName)] + TestRows(testObjects[1..], repositoryName)
  }

  /** The whole test file: the header, then the rows. */
  function TestCsv(testObjects: seq<TestData>, repositoryName: string): seq<string> {
    [TestHeader] + TestRows(testObjects, repositoryName)
  }

  /**
    `WriteTestDataToStream`: the header line, then one `WriteLine` per record
    in list order.
   */
  method WriteTestData(testObjects: seq<TestData>, repositoryName: string) returns (lines: seq<string>)
    ensures |lines| == |testObjects| + 1
    ensures lines == TestCsv(testObjects, repositoryName)
  {
    lines := [TestHeader];
    for i := 0 to |testObjects|
      invariant |lines| == i + 1 && lines[0] == TestHeader
      invariant forall k :: 0 <= k < i ==> lines[k + 1] == TestRow(testObjects[k], repositoryName)
    {
      var testObject := testObjects[i];
      lines := lines + [TestRow(testObject, repositoryName)];
    }
  }

  /** An empty list gives the header line alone. */
  lemma EmptyTestCsv(repositoryName: string)
    ensures TestCsv([], repositoryName) == [TestHeader]
  {
  }
}
