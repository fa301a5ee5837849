/**
  Extraction of the two record kinds from one assembly: fixture records from
  the types whose name ends in "Fixture" (`PullFixtureData`) and test records
  from the methods that carry NUnit's test attribute (`PullTestData`).
 */
module Extraction {
  import opened Wrappers
  import opened Text
  import opened Metadata

  const FixtureSuffix := "Fixture"
  const ApplicationAttribute := "TestApplicationAttribute"
  const DomainOwnerAttribute := "TestDomainOwnerAttribute"
  const TestTypeAttribute := "TestTypeAttribute"
  const EnvironmentAttribute := "TestEnvironmentAttribute"
  const FeatureTypeAttribute := "TestFeatureTypeAttribute"
  const CategoryAttribute := "CategoryAttribute"

  const Quote := '"'
  const Comma := ','

  /**
    How .NET prints a default `CustomAttributeTypedArgument`, the value
    `ConstructorArguments.FirstOrDefault()` gives for an attribute without
    constructor arguments: the struct's own type name.
   */
  const EmptyTypedArgumentText := "System.Reflection.CustomAttributeTypedArgument"

  /** A fixture record; an absent attribute leaves its field null (`None`). */
  datatype FixtureData = FixtureData(
    testFixture: string,
    application: Option<string>,
    domainOwner: Option<string>,
    testType: Option<string>)

  /** A test record; the three family fields are already quoted lists. */
  datatype TestData = TestData(
    testName: string,
    testFixture: string,
    environments: string,
    featureTypes: string,
    categories: string)

  // ---------------------------------------------------------------------
  // Fixture extraction
  // ---------------------------------------------------------------------

  predicate IsFixtureType(t: TypeEntry) {
    EndsWith(t.name, FixtureSuffix)
  }

  /** `FirstOrDefault(a => a.AttributeType.Name == name)`, as a position. */
  function FirstNamed(attributes: seq<CustomAttribute>, name: string): (r: Option<nat>)
    ensures r.Some? ==> r.value < |attributes| && attributes[r.value].typeName == name
    ensures r.Some? ==> forall j :: 0 <= j < r.value ==> attributes[j].typeName != name
    ensures r.None? <==> forall j :: 0 <= j < |attributes| ==> attributes[j].typeName != name
  {
    if |attributes| == 0 then None
    else if attributes[0].typeName == name then Some(0)
    else
      match FirstNamed(attributes[1..], name)
      case None => None
      case Some(i) => Some(i + 1)
  }

  /**
    The lookup of a fixture field does not crash: the first attribute with
    the name, if any, has a constructor argument (otherwise `.Value` is null
    and `.ToString()` throws).
   */
  predicate HasFirstArgument(attributes: seq<CustomAttribute>, name: string) {
    match FirstNamed(attributes, name)
    case None => true
    case Some(i) => |attributes[i].arguments| > 0
  }

  /**
    A fixture field: the first constructor argument of the first attribute
    named exactly `name`, or null when there is none.
   */
  function FixtureField(attributes: seq<CustomAttribute>, name: string): Option<string>
    requires HasFirstArgument(attributes, name)
  {
    match FirstNamed(attributes, name)
    case None => None
    case Some(i) => Some(attributes[i].arguments[0])
  }

  /**
    The field is null exactly when no attribute has the name, and otherwise
    it is the first argument of the first attribute with the name.
   */
  lemma FixtureFieldFound(attributes: seq<CustomAttribute>, name: string)
    requires HasFirstArgument(attributes, name)
    ensures FixtureField(attributes, name).None? <==> forall j :: 0 <= j < |attributes| ==> attributes[j].typeName != name
    ensures forall i :: 0 <= i < |attributes| && attributes[i].typeName == name
              && (forall j :: 0 <= j < i ==> attributes[j].typeName != name)
              ==> |attributes[i].arguments| > 0 && FixtureField(attributes, name) == Some(attributes[i].arguments[0])
  {
  }

  /** Attributes after the first one of the name do not change the field. */
  lemma LaterAttributesIgnored(attributes: seq<CustomAttribute>, more: seq<CustomAttribute>, name: string)
    requires HasFirstArgument(attributes, name)
    requires FixtureField(attributes, name).Some?
    ensures HasFirstArgument(attributes + more, name)
    ensures FixtureField(attributes + more, name) == FixtureField(attributes, name)
  {
    var i := FirstNamed(attributes, name).value;
    var all := attributes + more;
    assert all[i].typeName == name;
    assert forall j :: 0 <= j < i ==> all[j] == attributes[j];
  }

  /** A type on which every fixture-field lookup succeeds. */
  predicate FixtureReadable(t: TypeEntry) {
    && HasFirstArgument(t.attributes, ApplicationAttribute)
    && HasFirstArgument(t.attributes, DomainOwnerAttribute)
    && HasFirstArgument(t.attributes, TestTypeAttribute)
  }

  /** The types of an assembly on which `PullFixtureData` does not crash. */
  predicate FixturesReadable(types: seq<TypeEntry>) {
    forall t :: t in types && IsFixtureType(t) ==> FixtureReadable(t)
  }

  /** The record built for one fixture type. */
  function FixtureOf(t: TypeEntry): (f: FixtureData)
    requires FixtureReadable(t)
  {
    FixtureData(
      t.name,
      FixtureField(t.attributes, ApplicationAttribute),
      FixtureField(t.attributes, DomainOwnerAttribute),
      FixtureField(t.attributes, TestTypeAttribute))
  }

  /** Every type `Where` keeps as a fixture can be read. */
  lemma FixtureTypesReadable(types: seq<TypeEntry>)
    requires FixturesReadable(types)
    ensures forall k :: 0 <= k < |Filter(types, IsFixtureType)| ==> FixtureReadable(Filter(types, IsFixtureType)[k])
  {
    FilterKept(types, IsFixtureType);
  }

  /** The records of `PullFixtureData`: one per fixture type, in type order. */
  function FixtureRecords(types: seq<TypeEntry>): (fs: seq<FixtureData>)
    requires FixturesReadable(types)
  {
    FixtureTypesReadable(types);
    Map(Filter(types, IsFixtureType), FixtureOf)
  }

  /**
    `PullFixtureData`: walk the fixture types (`Where(t => t.Name.EndsWith("Fixture"))`)
    and append one record per type.
   */
  method PullFixtureData(assembly: Assembly) returns (fixtureDataList: seq<FixtureData>)
    requires FixturesReadable(assembly.types)
    ensures fixtureDataList == FixtureRecords(assembly.types)
  {
    fixtureDataList := [];
    var testFixtures := Filter(assembly.types, IsFixtureType);
    FixtureTypesReadable(assembly.types);
    for i := 0 to |testFixtures|
      invariant fixtureDataList == Map(testFixtures[..i], FixtureOf)
    {
      var testFixture := testFixtures[i];
      assert testFixtures[..i + 1][..i] == testFixtures[..i];
      fixtureDataList := fixtureDataList + [FixtureOf(testFixture)];
    }
    assert testFixtures[..|testFixtures|] == testFixtures;
  }

  /**
    One record per fixture type and none for other types: a single type
    yields its own record exactly when its name ends in "Fixture", with the
    type's name as `testFixture`.
   */
  lemma FixtureRecordsOfOneType(t: TypeEntry)
    requires FixturesReadable([t])
    ensures FixtureRecords([t]) == if IsFixtureType(t) then [FixtureOf(t)] else []
    ensures IsFixtureType(t) ==> FixtureRecords([t])[0].testFixture == t.name
  {
    assert [t][1..] == [];
  }

  /**
    Extraction distributes over concatenation: the records of `a + b` are
    those of `a` followed by those of `b`, so records keep type order.
   */
  lemma FixtureRecordsAppend(a: seq<TypeEntry>, b: seq<TypeEntry>)
    requires FixturesReadable(a) && FixturesReadable(b)
    ensures FixturesReadable(a + b)
    ensures FixtureRecords(a + b) == FixtureRecords(a) + FixtureRecords(b)
  {
    FilterAppend(a, b, IsFixtureType);
    FixtureTypesReadable(a);
    FixtureTypesReadable(b);
    MapAppend(Filter(a, IsFixtureType), Filter(b, IsFixtureType), FixtureOf);
  }

  /** No fixture types means no records: an empty list, never an absent one. */
  lemma NoFixtureTypesNoRecords(types: seq<TypeEntry>)
    requires FixturesReadable(types)
    ensures FixtureRecords(types) == [] <==> forall k :: 0 <= k < |types| ==> !IsFixtureType(types[k])
  {
    var fixtures := Filter(types, IsFixtureType);
    forall k | 0 <= k < |types| && IsFixtureType(types[k]) ensures fixtures != [] {
      FilterMembers(types, IsFixtureType, types[k]);
    }
    if fixtures != [] {
      FilterKept(types, IsFixtureType);
    }
  }

  // ---------------------------------------------------------------------
  // Test extraction
  // ---------------------------------------------------------------------

  /** A method as `SelectMany(t => t.GetMethods())` yields it, with its `ReflectedType`. */
  datatype ReflectedMethod = ReflectedMethod(reflectedType: string, entry: MethodEntry)

  /** The methods of one type, each paired with that type as its `ReflectedType`. */
  function Reflect(typeName: string, methods: seq<MethodEntry>): (ms: seq<ReflectedMethod>)
    ensures |ms| == |methods|
    ensures forall k :: 0 <= k < |ms| ==> ms[k] == ReflectedMethod(typeName, methods[k])
  {
    if |methods| == 0 then []
    else [ReflectedMethod(typeName, methods[0])] + Reflect(typeName, methods[1..])
  }

  /** `GetTypes().SelectMany(t => t.GetMethods())`. */
  function AllMethods(types: seq<TypeEntry>): seq<ReflectedMethod> {
    if |types| == 0 then []
    else Reflect(types[0].name, types[0].methods) + AllMethods(types[1..])
  }

  /** Some attribute is NUnit's test attribute. */
  predicate AnyTestMarker(attributes: seq<CustomAttribute>) {
    |attributes| > 0 && (attributes[0].isTestMarker || AnyTestMarker(attributes[1..]))
  }

  /**
    `GetCustomAttributes(typeof(TestAttribute), false).Length > 0`: some
    attribute of the list is the test attribute.
   */
  lemma {:induction false} AnyTestMarkerExists(attributes: seq<CustomAttribute>)
    ensures AnyTestMarker(attributes) <==> exists k :: 0 <= k < |attributes| && attributes[k].isTestMarker
  {
    if |attributes| > 0 {
      AnyTestMarkerExists(attributes[1..]);
      assert forall k :: 1 <= k < |attributes| ==> attributes[k] == attributes[1..][k - 1];
      if !attributes[0].isTestMarker && !AnyTestMarker(attributes[1..]) {
        assert forall k :: 0 <= k < |attributes| ==> !attributes[k].isTestMarker;
      }
    }
  }

  /** The method carries NUnit's test attribute. */
  predicate HasTestMarker(m: MethodEntry) {
    AnyTestMarker(m.attributes)
  }

  predicate IsTest(m: ReflectedMethod) {
    HasTestMarker(m.entry)
  }

  /**
    `ConstructorArguments.FirstOrDefault().ToString()`: a string argument
    prints inside one pair of quotes.
   */
  function ArgumentText(a: CustomAttribute): string {
    if |a.arguments| == 0 then EmptyTypedArgumentText
    else [Quote] + a.arguments[0] + [Quote]
  }

  /** The value one attribute contributes to its family, after `Trim('"')`. */
  function FamilyValue(a: CustomAttribute): string {
    Trim(ArgumentText(a), Quote)
  }

  /**
    The trimmed value of every attribute of the family, in attribute order
    (`Where(a => a.AttributeType.Name == family).Select(...)`).
   */
  function FamilyTexts(attributes: seq<CustomAttribute>, family: string): (ts: seq<string>)
    ensures forall v :: v in ts <==>
              exists k :: 0 <= k < |attributes| && attributes[k].typeName == family && v == FamilyValue(attributes[k])
  {
    if |attributes| == 0 then []
    else
      var rest := FamilyTexts(attributes[1..], family);
      assert forall k :: 1 <= k < |attributes| ==> attributes[k] == attributes[1..][k - 1];
      (if attributes[0].typeName == family then [FamilyValue(attributes[0])] else []) + rest
  }

  /** `a => a.AttributeType.Name == family`. */
  function InFamily(family: string): CustomAttribute -> bool {
    (a: CustomAttribute) => a.typeName == family
  }

  /**
    The values come in attribute order: they are `Where` by the family name
    followed by `Select` of the trimmed argument text, which fixes the order
    `Distinct` then keeps.
   */
  lemma {:induction false} FamilyTextsInOrder(attributes: seq<CustomAttribute>, family: string)
    ensures FamilyTexts(attributes, family) == Map(Filter(attributes, InFamily(family)), FamilyValue)
  {
    if |attributes| > 0 {
      FamilyTextsInOrder(attributes[1..], family);
      var head := if attributes[0].typeName == family then [attributes[0]] else [];
      var rest := Filter(attributes[1..], InFamily(family));
      assert Filter(attributes, InFamily(family)) == head + rest;
      MapAppend(head, rest, FamilyValue);
      if attributes[0].typeName == family {
        assert Map(head, FamilyValue) == [FamilyValue(attributes[0])];
      } else {
        assert Map(head, FamilyValue) == [];
      }
    }
  }

  /**
    The distinct values of one family on a method: the trimmed first
    argument of every attribute of the family, each value once, in
    first-seen order.
   */
  function FamilyValues(attributes: seq<CustomAttribute>, family: string): (vs: seq<string>)
    ensures NoDuplicates(vs)
    ensures forall v :: v in vs <==>
              exists k :: 0 <= k < |attributes| && attributes[k].typeName == family && v == FamilyValue(attributes[k])
  {
    Distinct(FamilyTexts(attributes, family))
  }

  /** The field of one family: the distinct values joined by commas, in quotes. */
  function FamilyField(attributes: seq<CustomAttribute>, family: string): string {
    [Quote] + Join(FamilyValues(attributes, family), Comma) + [Quote]
  }

  /** A string argument contributes itself with every edge quote removed. */
  lemma FamilyValueOfString(a: CustomAttribute)
    requires |a.arguments| > 0
    ensures FamilyValue(a) == Trim(a.arguments[0], Quote)
    ensures Quote !in a.arguments[0] ==> FamilyValue(a) == a.arguments[0]
  {
    TrimQuoted(a.arguments[0], Quote);
  }

  lemma {:induction false} NoFamilyNoTexts(attributes: seq<CustomAttribute>, family: string)
    requires forall k :: 0 <= k < |attributes| ==> attributes[k].typeName != family
    ensures FamilyTexts(attributes, family) == []
  {
    if |attributes| > 0 {
      NoFamilyNoTexts(attributes[1..], family);
    }
  }

  /** A method without attributes of a family gets `""` for it. */
  lemma EmptyFamilyField(attributes: seq<CustomAttribute>, family: string)
    requires forall k :: 0 <= k < |attributes| ==> attributes[k].typeName != family
    ensures FamilyField(attributes, family) == [Quote, Quote]
  {
    NoFamilyNoTexts(attributes, family);
    assert [Quote] + Join([], Comma) + [Quote] == [Quote, Quote];
  }

  /**
    The quoted field decodes back to its distinct values when none of them
    holds a comma: strip the quotes and split on commas.
   */
  lemma FamilyFieldDecodes(attributes: seq<CustomAttribute>, family: string)
    requires |FamilyValues(attributes, family)| > 0
    requires forall v :: v in FamilyValues(attributes, family) ==> Comma !in v
    ensures var f := FamilyField(attributes, family);
      |f| >= 2 && f[0] == Quote && f[|f| - 1] == Quote
      && Split(f[1..|f| - 1], Comma) == FamilyValues(attributes, family)
  {
    var vs := FamilyValues(attributes, family);
    var f := FamilyField(attributes, family);
    assert f[1..|f| - 1] == Join(vs, Comma);
    SplitJoin(vs, Comma);
  }

  /** The record built for one test method. */
  function TestOf(m: ReflectedMethod): TestData {
    var attributes := m.entry.attributes;
    TestData(
      m.entry.name,
      m.reflectedType,
      FamilyField(attributes, EnvironmentAttribute),
      FamilyField(attributes, FeatureTypeAttribute),
      FamilyField(attributes, CategoryAttribute))
  }

  /** The records of `PullTestData`: one per test method, type by type, method by method. */
  function TestRecords(types: seq<TypeEntry>): seq<TestData> {
    Map(Filter(AllMethods(types), IsTest), TestOf)
  }

  /**
    `PullTestData`: walk the methods that carry the test attribute and append
    one record per method.
   */
  method PullTestData(assembly: Assembly) returns (testDataList: seq<TestData>)
    ensures testDataList == TestRecords(assembly.types)
  {
    testDataList := [];
    var tests := Filter(AllMethods(assembly.types), IsTest);
    for i := 0 to |tests|
      invariant testDataList == Map(tests[..i], TestOf)
    {
      var test := tests[i];
      assert tests[..i + 1][..i] == tests[..i];
      testDataList := testDataList + [TestOf(test)];
    }
    assert tests[..|tests|] == tests;
  }

  /** The methods of `a + b` are those of `a` followed by those of `b`. */
  lemma {:induction false} AllMethodsAppend(a: seq<TypeEntry>, b: seq<TypeEntry>)
    ensures AllMethods(a + b) == AllMethods(a) + AllMethods(b)
  {
    if |a| == 0 {
      assert a + b == b;
    } else {
      assert (a + b)[0] == a[0];
      assert (a + b)[1..] == a[1..] + b;
      AllMethodsAppend(a[1..], b);
    }
  }

  /** Test extraction distributes over concatenation of type lists. */
  lemma TestRecordsAppend(a: seq<TypeEntry>, b: seq<TypeEntry>)
    ensures TestRecords(a + b) == TestRecords(a) + TestRecords(b)
  {
    AllMethodsAppend(a, b);
    FilterAppend(AllMethods(a), AllMethods(b), IsTest);
    MapAppend(Filter(AllMethods(a), IsTest), Filter(AllMethods(b), IsTest), TestOf);
  }

  /**
    The records of one type: one per method carrying the test attribute, in
    method order, named after the method, with the type's name as
    `testFixture` and each family field built from that method's attributes.
   */
  lemma TestRecordsOfOneType(t: TypeEntry)
    ensures var tests := Filter(t.methods, HasTestMarker);
      && |TestRecords([t])| == |tests|
      && forall k :: 0 <= k < |tests| ==>
           && TestRecords([t])[k].testName == tests[k].name
           && TestRecords([t])[k].testFixture == t.name
           && TestRecords([t])[k].environments == FamilyField(tests[k].attributes, EnvironmentAttribute)
           && TestRecords([t])[k].featureTypes == FamilyField(tests[k].attributes, FeatureTypeAttribute)
           && TestRecords([t])[k].categories == FamilyField(tests[k].attributes, CategoryAttribute)
  {
    assert [t][1..] == [];
    assert AllMethods([t]) == Reflect(t.name, t.methods);
    FilterReflect(t.name, t.methods);
    MapAt(Reflect(t.name, Filter(t.methods, HasTestMarker)), TestOf);
  }

  /** Keeping the test methods commutes with pairing them with their type. */
  lemma {:induction false} FilterReflect(typeName: string, methods: seq<MethodEntry>)
    ensures Filter(Reflect(typeName, methods), IsTest) == Reflect(typeName, Filter(methods, HasTestMarker))
  {
    if |methods| > 0 {
      FilterReflect(typeName, methods[1..]);
      var r := Reflect(typeName, methods);
      assert r[1..] == Reflect(typeName, methods[1..]);
      if HasTestMarker(methods[0]) {
        assert Filter(methods, HasTestMarker) == [methods[0]] + Filter(methods[1..], HasTestMarker);
      }
    }
  }
}
