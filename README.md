# TestLabelReporting, modelled in Dafny

TestLabelReporting is a command-line tool. It takes a repository name and a comma-separated list of NUnit test assembly paths. For each assembly it:

- loads the assembly and reflects over its types;
- collects one record per test fixture (a type whose name ends in `Fixture`);
- collects one record per test method (a method carrying NUnit's `[Test]`).

It then writes the fixture records and the test records as two CSV files. It uploads each file to the `psi-reporting-data` S3 bucket under a key made of the repository name, the data type and the UTC time. The exit code is 0 only when both uploads succeed.

The model covers these parts of `Program.cs`:

- the two records;
- the extraction of each record from reflection data;
- the two CSV writers;
- the construction of the object key;
- the control flow and exit code of `Main`.

Modules:

- `Text` (in `Text.dfy`), with `Wrappers`: the .NET string and LINQ operations the program relies on.
  - `Split(',')` keeps empty pieces.
  - `string.Join`.
  - `Trim('"')` removes every leading and trailing quote.
  - `Distinct` keeps the first-seen order.
  - `Where` and `Select`.
- `Metadata`: what reflection reports, as plain data.
  - Types, in `GetTypes` order.
  - Their custom attributes and public methods.
  - Each attribute's type name and string constructor arguments.
  - Whether the attribute is NUnit's `TestAttribute` or derives from it.
- `Extraction`: `FixtureData`, `TestData`, `PullFixtureData` and `PullTestData`. The two methods are loops, each proved equal to a specification function (`FixtureRecords`, `TestRecords`). The properties are proved about those functions.
- `Csv`: `WriteFixtureDataToStream` and `WriteTestDataToStream`. The output stream is a sequence of lines: the header, then one row per record.
- `Timestamps`: the `yyyyMMddTHHmmss` stamp, and a parser that reads it back.
- `Publishing`: the bucket name, and the key `external_data/automated_test_data/{repo}__{dataType}__{stamp}.csv`.
- `Program`: `Main` as the method `Run`. `Run` is proved equal to the specification function `Expected`.
  - `Run` takes as parameters what the program gets from its environment:
    - the assemblies that load, as a map from path to assembly;
    - the two clock readings, one for each upload;
    - whether each of the two uploads was stored.
  - The outcomes an uncaught exception produces are values of the `Outcome` datatype:
    - `MissingAssemblyList`: one argument only, so `args[1]` throws;
    - `LoadFailed(path)`: `Assembly.LoadFrom` throws for that path.

`Trim('"')` strips every leading and every trailing quote of an attribute value, not only one surrounding pair; the model follows this (`Text.Trim`, `Extraction.FamilyValueOfString`).

## Model

| member | source | states |
|---|---|---|
| Text.Split | src/TestLabelReporting/TestLabelReporting/Program.cs:172 | definition of `Split(',')`: the pieces between separators, empty pieces kept, so `""` gives one empty piece; its properties are stated by `SplitShape`, `JoinSplit` and `SplitJoin` |
| Text.SplitShape | src/TestLabelReporting/TestLabelReporting/Program.cs:172 | `Split(',')` gives one more piece than there are separators, and no piece contains the separator |
| Text.JoinSplit | src/TestLabelReporting/TestLabelReporting/Program.cs:172 | joining the pieces of a split with the same separator gives back the original string |
| Text.SplitJoin | src/TestLabelReporting/TestLabelReporting/Program.cs:125-136 | splitting a join of pieces that contain no separator gives back the pieces |
| Text.SplitAround | src/TestLabelReporting/TestLabelReporting/Program.cs:172 | splitting `a + sep + b` is splitting `a`, then splitting `b` |
| Text.SplitJoinEach | src/TestLabelReporting/TestLabelReporting/Program.cs:57 | splitting a join of parts gives the pieces of each part, one part after another |
| Text.SplitEachCons | src/TestLabelReporting/TestLabelReporting/Program.cs:57 | proof step for `SplitJoinEach`: the pieces of a list of parts are the pieces of its first part followed by those of the rest |
| Text.SplitWithoutSeparator | src/TestLabelReporting/TestLabelReporting/Program.cs:172 | a string without the separator splits into itself alone |
| Text.Join | src/TestLabelReporting/TestLabelReporting/Program.cs:125-136 | definition of `string.Join(",", parts)`: no parts give `""`, one part gives itself, more give the parts with one separator between neighbours; `JoinSplit`, `SplitJoin` and `JoinFrom` state its properties |
| Text.EndsWith | src/TestLabelReporting/TestLabelReporting/Program.cs:89 | definition of `EndsWith(suffix)`, compared character by character; `Extraction.FixtureRecordsOfOneType` and `Extraction.NoFixtureTypesNoRecords` state what it selects |
| Text.JoinFrom | src/TestLabelReporting/TestLabelReporting/Program.cs:125 | proof step for `FixtureRowLayout` and `TestRowLayout`: a join of two or more parts is the first part, the separator, and the join of the rest |
| Text.OccurrencesZero | src/TestLabelReporting/TestLabelReporting/Program.cs:172 | a character occurs zero times exactly when it is not in the string |
| Text.TrimStart | src/TestLabelReporting/TestLabelReporting/Program.cs:127 | the result is a suffix of the input; everything removed is the trim character; the result does not start with it |
| Text.TrimEnd | src/TestLabelReporting/TestLabelReporting/Program.cs:127 | the result is a prefix of the input; everything removed is the trim character; the result does not end with it |
| Text.Trim | src/TestLabelReporting/TestLabelReporting/Program.cs:127 | definition of `Trim('"')`: `TrimStart` then `TrimEnd`, so every leading and trailing quote goes; `TrimStretch` and `TrimIdempotent` state its properties |
| Text.TrimStretch | src/TestLabelReporting/TestLabelReporting/Program.cs:127 | `Trim('"')` gives a contiguous stretch of the input with only quotes on either side, and the stretch neither starts nor ends with a quote |
| Text.TrimIdempotent | src/TestLabelReporting/TestLabelReporting/Program.cs:127 | trimming twice is trimming once |
| Text.TrimStartAppend | src/TestLabelReporting/TestLabelReporting/Program.cs:127 | trimming the start of `a + b` trims into `b` only when `a` is all trim characters |
| Text.TrimQuoted | src/TestLabelReporting/TestLabelReporting/Program.cs:127 | trimming a value wrapped in one pair of quotes is trimming the bare value |
| Text.Distinct | src/TestLabelReporting/TestLabelReporting/Program.cs:128 | `Distinct()` has no duplicates, has exactly the input's members, and is no longer than the input |
| Text.DistinctFirstSeenOrder | src/TestLabelReporting/TestLabelReporting/Program.cs:128 | `Distinct()` lists the values in the order of their first occurrence in the input |
| Text.IndexOf | src/TestLabelReporting/TestLabelReporting/Program.cs:128 | the index of the first occurrence of a value |
| Text.IndexOfPrefix | src/TestLabelReporting/TestLabelReporting/Program.cs:128 | the first occurrence of a value that occurs in a prefix is the same in the prefix and in the whole |
| Text.Filter | src/TestLabelReporting/TestLabelReporting/Program.cs:88-90 | `Where` is never longer than its input |
| Text.FilterKept | src/TestLabelReporting/TestLabelReporting/Program.cs:88-90 | `Where` keeps only elements of the input that satisfy the predicate |
| Text.FilterAppend | src/TestLabelReporting/TestLabelReporting/Program.cs:118-121 | `Where` over a concatenation is the concatenation of the two `Where`s |
| Text.FilterMembers | src/TestLabelReporting/TestLabelReporting/Program.cs:88-90 | an element is kept exactly when it is in the input and satisfies the predicate |
| Text.Map | src/TestLabelReporting/TestLabelReporting/Program.cs:92-110 | `Select` (and a `foreach` that adds one value per element) gives one value per element |
| Text.MapAt | src/TestLabelReporting/TestLabelReporting/Program.cs:92-110 | the value at each position is the function applied to the element at that position |
| Text.MapAppend | src/TestLabelReporting/TestLabelReporting/Program.cs:92-110 | `Select` over a concatenation is the concatenation of the two `Select`s |
| Extraction.FixtureData | src/TestLabelReporting/TestLabelReporting/Program.cs:15-21 | the fixture record: the type's name and the application, domain owner and test type, each null (`None`) when absent; `FixtureOf` builds it and `FixtureRecordsOfOneType` states its `testFixture` |
| Extraction.TestData | src/TestLabelReporting/TestLabelReporting/Program.cs:23-30 | the test record: method name, fixture name and the three quoted family fields; `TestOf` builds it and `TestRecordsOfOneType` states every field |
| Extraction.IsFixtureType | src/TestLabelReporting/TestLabelReporting/Program.cs:89 | definition of the `Where` predicate `t.Name.EndsWith("Fixture")`; `FixtureRecordsOfOneType` and `NoFixtureTypesNoRecords` state that exactly the types it accepts yield records |
| Extraction.FirstNamed | src/TestLabelReporting/TestLabelReporting/Program.cs:98 | `FirstOrDefault` by attribute type name finds the first attribute with that name, or none when no attribute has it |
| Extraction.FixtureField | src/TestLabelReporting/TestLabelReporting/Program.cs:97-108 | definition of one fixture column: null when no attribute has the name, otherwise the first constructor argument of the first attribute with the name; its requires is the admitted null `.Value` crash; `FixtureFieldFound` states its meaning |
| Extraction.FixtureFieldFound | src/TestLabelReporting/TestLabelReporting/Program.cs:97-108 | a fixture column is absent exactly when no attribute has the name; otherwise it is the first argument of the first attribute with the name |
| Extraction.LaterAttributesIgnored | src/TestLabelReporting/TestLabelReporting/Program.cs:97-100 | once an attribute with the name is found, attributes after it do not change the column |
| Extraction.FixtureOf | src/TestLabelReporting/TestLabelReporting/Program.cs:94-109 | definition of the record `new FixtureData { ... }` for one fixture type: the type's name and the application, domain owner and test type columns |
| Extraction.FixtureTypesReadable | src/TestLabelReporting/TestLabelReporting/Program.cs:88-109 | every type kept as a fixture is one whose three column lookups do not throw, when no type of the assembly throws |
| Extraction.FixtureRecords | src/TestLabelReporting/TestLabelReporting/Program.cs:88-110 | definition of the records `PullFixtureData` returns: `Where` by the `Fixture` suffix, then one `FixtureOf` per kept type, in type order; the lemmas below state its properties |
| Extraction.PullFixtureData | src/TestLabelReporting/TestLabelReporting/Program.cs:85-113 | the loop builds exactly the fixture records of the assembly's types, in type order |
| Extraction.FixtureRecordsOfOneType | src/TestLabelReporting/TestLabelReporting/Program.cs:88-109 | a type gives one record, named after the type, when its name ends in `Fixture`, and none otherwise |
| Extraction.FixtureRecordsAppend | src/TestLabelReporting/TestLabelReporting/Program.cs:88-110 | the fixture records of a concatenation of type lists are the concatenation of their records |
| Extraction.NoFixtureTypesNoRecords | src/TestLabelReporting/TestLabelReporting/Program.cs:88-90 | there are no fixture records exactly when no type name ends in `Fixture` |
| Extraction.Reflect | src/TestLabelReporting/TestLabelReporting/Program.cs:119 | `GetMethods()` of a type, each method paired with its reflected type's name, in order |
| Extraction.AllMethods | src/TestLabelReporting/TestLabelReporting/Program.cs:118-119 | definition of `GetTypes().SelectMany(t => t.GetMethods())`: each type's methods paired with the type, type after type; `AllMethodsAppend` and `TestRecordsOfOneType` state its properties |
| Extraction.AnyTestMarker | src/TestLabelReporting/TestLabelReporting/Program.cs:120-121 | definition of `GetCustomAttributes(typeof(TestAttribute), false).Length > 0` over a method's attributes; `AnyTestMarkerExists` states its meaning |
| Extraction.AnyTestMarkerExists | src/TestLabelReporting/TestLabelReporting/Program.cs:120-121 | a method is selected exactly when some attribute of it is NUnit's test attribute or derives from it: selection goes by attribute type, not by attribute name |
| Extraction.HasTestMarker | src/TestLabelReporting/TestLabelReporting/Program.cs:120-121 | definition of the test selection on a method: `AnyTestMarker` of its own attributes; `TestRecordsOfOneType` states that exactly these methods yield records |
| Extraction.IsTest | src/TestLabelReporting/TestLabelReporting/Program.cs:120-121 | the same selection on a method paired with its type; `FilterReflect` states that it agrees with `HasTestMarker` |
| Extraction.FamilyValue | src/TestLabelReporting/TestLabelReporting/Program.cs:127 | definition of the `Select` lambda `x => x.ConstructorArguments.FirstOrDefault().ToString().Trim('"')`; `FamilyValueOfString` states its value |
| Extraction.InFamily | src/TestLabelReporting/TestLabelReporting/Program.cs:126 | definition of the `Where` lambda `a => a.AttributeType.Name == family`; `FamilyTextsInOrder` uses it |
| Extraction.FamilyTexts | src/TestLabelReporting/TestLabelReporting/Program.cs:125-127 | the trimmed argument texts of a method's attributes of one family are exactly those of the attributes with that name |
| Extraction.FamilyTextsInOrder | src/TestLabelReporting/TestLabelReporting/Program.cs:125-127 | the family's values are `Where` by the family name then `Select` of the trimmed text, so they come in attribute order, the order `Distinct` keeps |
| Extraction.FamilyValues | src/TestLabelReporting/TestLabelReporting/Program.cs:125-136 | the distinct values of one family have no duplicates and are exactly the values of the attributes with that name |
| Extraction.FamilyField | src/TestLabelReporting/TestLabelReporting/Program.cs:125-144 | definition of one family column: the distinct values joined by commas, inside one pair of quotes; `EmptyFamilyField` and `FamilyFieldDecodes` state its properties |
| Extraction.ArgumentText | src/TestLabelReporting/TestLabelReporting/Program.cs:127 | definition of `ConstructorArguments.FirstOrDefault().ToString()`: a string argument prints inside one pair of double quotes, and an attribute without arguments prints the default struct's type name `System.Reflection.CustomAttributeTypedArgument` |
| Extraction.FamilyValueOfString | src/TestLabelReporting/TestLabelReporting/Program.cs:127 | the value taken from a string argument is the argument with its quotes trimmed; an argument without quotes comes out unchanged |
| Extraction.NoFamilyNoTexts | src/TestLabelReporting/TestLabelReporting/Program.cs:125-128 | a method with no attribute of the family has no values for it |
| Extraction.EmptyFamilyField | src/TestLabelReporting/TestLabelReporting/Program.cs:125-144 | a method with no attribute of the family gets the field `""` (two quotes) |
| Extraction.FamilyFieldDecodes | src/TestLabelReporting/TestLabelReporting/Program.cs:125-144 | between its quotes, a family field splits on commas back into the distinct values, when none contains a comma |
| Extraction.TestOf | src/TestLabelReporting/TestLabelReporting/Program.cs:138-145 | definition of the record `new TestData { ... }` for one test method: its name, its reflected type's name, and the three family columns from its own attributes |
| Extraction.TestRecords | src/TestLabelReporting/TestLabelReporting/Program.cs:118-146 | definition of the records `PullTestData` returns: the methods of all types, kept when they carry the test attribute, one `TestOf` each, in order; the lemmas below state its properties |
| Extraction.PullTestData | src/TestLabelReporting/TestLabelReporting/Program.cs:115-149 | the loop builds exactly the test records of the assembly's types |
| Extraction.AllMethodsAppend | src/TestLabelReporting/TestLabelReporting/Program.cs:118-119 | `SelectMany(GetMethods)` over a concatenation of type lists is the concatenation of the two |
| Extraction.TestRecordsAppend | src/TestLabelReporting/TestLabelReporting/Program.cs:118-146 | the test records of a concatenation of type lists are the concatenation of their records |
| Extraction.TestRecordsOfOneType | src/TestLabelReporting/TestLabelReporting/Program.cs:118-145 | a type gives one record per `[Test]` method, in method order, with the method's name, the type's name as fixture, and the three family fields |
| Extraction.FilterReflect | src/TestLabelReporting/TestLabelReporting/Program.cs:119-121 | selecting tests after pairing methods with their type is pairing after selecting |
| Csv.FixtureRow | src/TestLabelReporting/TestLabelReporting/Program.cs:40 | definition of one fixture line: the five columns joined by commas; `FixtureRowLayout` states its layout and `FixtureRowColumns` its decoding |
| Csv.FixtureRowLayout | src/TestLabelReporting/TestLabelReporting/Program.cs:40 | a fixture row is the fixture, application, domain owner, test type and repository name, comma-separated; an absent value is empty |
| Csv.FixtureRowColumns | src/TestLabelReporting/TestLabelReporting/Program.cs:40 | a fixture row whose values contain no comma splits back into exactly its five columns |
| Csv.FixtureRows | src/TestLabelReporting/TestLabelReporting/Program.cs:38-41 | one row per fixture record, in order |
| Csv.FixtureCsv | src/TestLabelReporting/TestLabelReporting/Program.cs:37-41 | definition of the fixture file: the header followed by `FixtureRows`; `WriteFixtureData` is proved to write it and `EmptyFixtureCsv` states the empty case |
| Csv.WriteFixtureData | src/TestLabelReporting/TestLabelReporting/Program.cs:32-47 | the fixture file is the header line followed by one row per record, one `WriteLine` more than there are records (a value holding a line break adds physical lines) |
| Csv.EmptyFixtureCsv | src/TestLabelReporting/TestLabelReporting/Program.cs:37-41 | with no fixtures the file is the header alone |
| Csv.TestRow | src/TestLabelReporting/TestLabelReporting/Program.cs:57 | definition of one test line: the six columns joined by commas; `TestRowLayout` states its layout and `TestRowColumns` its decoding |
| Csv.TestRowLayout | src/TestLabelReporting/TestLabelReporting/Program.cs:57 | a test row is the test name, fixture, environments, feature types, categories and repository name, comma-separated |
| Csv.TestRowColumns | src/TestLabelReporting/TestLabelReporting/Program.cs:57 | splitting a test row on commas also splits the three quoted family fields, which are lists joined by commas |
| Csv.TestRows | src/TestLabelReporting/TestLabelReporting/Program.cs:55-58 | one row per test record, in order |
| Csv.TestCsv | src/TestLabelReporting/TestLabelReporting/Program.cs:54-58 | definition of the test file: the header followed by `TestRows`; `WriteTestData` is proved to write it and `EmptyTestCsv` states the empty case |
| Csv.WriteTestData | src/TestLabelReporting/TestLabelReporting/Program.cs:49-64 | the test file is the header line followed by one row per record, one `WriteLine` more than there are records (a value holding a line break adds physical lines) |
| Csv.EmptyTestCsv | src/TestLabelReporting/TestLabelReporting/Program.cs:54-58 | with no tests the file is the header alone |
| Timestamps.PadDigits | src/TestLabelReporting/TestLabelReporting/Program.cs:153 | a zero-padded field has exactly its width, all decimal digits |
| Timestamps.PadDigitsValue | src/TestLabelReporting/TestLabelReporting/Program.cs:153 | zero-padding a number that fits the width loses nothing |
| Timestamps.Format | src/TestLabelReporting/TestLabelReporting/Program.cs:153 | `yyyyMMddTHHmmss` is fifteen characters: digits, with a literal `T` at position 8 |
| Timestamps.Parse | src/TestLabelReporting/TestLabelReporting/Program.cs:153 | whatever a stamp parses to is a valid date and time |
| Timestamps.FormatFields | src/TestLabelReporting/TestLabelReporting/Program.cs:153 | proof step for `FormatParse`: each field of a stamp sits at its fixed position: year in 0-3, month 4-5, day 6-7, hour 9-10, minute 11-12, second 13-14 |
| Timestamps.FieldValues | src/TestLabelReporting/TestLabelReporting/Program.cs:153 | every field of a valid instant fits its width, so its padded digits read back as the field |
| Timestamps.FormatParse | src/TestLabelReporting/TestLabelReporting/Program.cs:153 | a formatted stamp parses back to the instant it came from |
| Timestamps.FormatInjective | src/TestLabelReporting/TestLabelReporting/Program.cs:153 | different instants give different stamps |
| Publishing.FileName | src/TestLabelReporting/TestLabelReporting/Program.cs:154 | definition of `{repositoryName}__{dataType}__{currentTimestamp}.csv`; `ObjectKeyLayout` states its layout inside the key |
| Publishing.ObjectKey | src/TestLabelReporting/TestLabelReporting/Program.cs:153-156 | definition of the key: `external_data/automated_test_data/` followed by `{repositoryName}__{dataType}__{stamp}.csv`; `ObjectKeyLayout` states its layout |
| Publishing.ObjectKeyLayout | src/TestLabelReporting/TestLabelReporting/Program.cs:151-157 | the key is the fixed prefix, the repository name, `__`, the data type, `__`, a stamp that parses back to the upload time, and `.csv` |
| Publishing.ObjectKeyInjective | src/TestLabelReporting/TestLabelReporting/Program.cs:153-156 | two uploads of one repository and data type share a key only when made in the same second |
| Publishing.DataTypesNeverCollide | src/TestLabelReporting/TestLabelReporting/Program.cs:186-189 | the fixture file and the test file of a repository never share a key, whatever the two times |
| Publishing.ExampleStamp | src/TestLabelReporting/TestLabelReporting/Program.cs:153 | 2024-01-01 00:00:00 is stamped `20240101T000000` |
| Publishing.ExampleFixtureKey | src/TestLabelReporting/TestLabelReporting/Program.cs:151-157 | the fixture file of repository `care` at that instant goes to `external_data/automated_test_data/care__test_fixtures__20240101T000000.csv` |
| Program.FirstUnloadableNone | src/TestLabelReporting/TestLabelReporting/Program.cs:178-180 | no path is reported exactly when every path loads |
| Program.FirstUnloadableAt | src/TestLabelReporting/TestLabelReporting/Program.cs:178-180 | when the paths before it load, a path that does not load is the one reported |
| Program.LoadingPrefix | src/TestLabelReporting/TestLabelReporting/Program.cs:178-180 | how many paths the loop gets through: every one of them loads, and the next path, if any, does not |
| Program.ReachedReadable | src/TestLabelReporting/TestLabelReporting/Program.cs:178-181 | an assembly the loop reaches (its path and every earlier path load) is one `PullFixtureData` reads without crashing |
| Program.ReadableUpToFailure | src/TestLabelReporting/TestLabelReporting/Program.cs:178-181 | after the first path that does not load, no assembly needs to be readable: the requires of `Run` asks only about the assemblies the loop reaches |
| Program.ExampleLaterUnreadableAssembly | src/TestLabelReporting/TestLabelReporting/Program.cs:178-181 | `Main "r" "a,b"` with `a` unloadable and an unreadable fixture in `b` is admitted and ends with the load failure of `a` |
| Program.AllFixtures | src/TestLabelReporting/TestLabelReporting/Program.cs:175-181 | definition of `fixtureDataList` after the first n assemblies: the `AddRange` of each one's records, in path order; `AllFixturesAreMergedExtraction` states its meaning |
| Program.AllTests | src/TestLabelReporting/TestLabelReporting/Program.cs:176-182 | the same for `testDataList`; `AllTestsAreMergedExtraction` states its meaning |
| Program.AllFixturesAreMergedExtraction | src/TestLabelReporting/TestLabelReporting/Program.cs:175-183 | accumulating the fixture records assembly by assembly equals extracting them from all the assemblies' types at once |
| Program.AllTestsAreMergedExtraction | src/TestLabelReporting/TestLabelReporting/Program.cs:176-183 | the same for the test records |
| Program.AllTypesReadable | src/TestLabelReporting/TestLabelReporting/Program.cs:178-182 | when no assembly that loads makes `PullFixtureData` throw, neither do all their types together |
| Program.MissingRepositoryName | src/TestLabelReporting/TestLabelReporting/Program.cs:163-167 | with no arguments the program prints the error line, uploads nothing and returns -1 |
| Program.LoadFailureStopsRun | src/TestLabelReporting/TestLabelReporting/Program.cs:178-180 | a path that does not load, when all earlier paths load, ends the run with that path's load failure, before any upload |
| Program.ExitCodeZeroIff | src/TestLabelReporting/TestLabelReporting/Program.cs:185-198 | every exit is 0 or -1; it is 0 exactly when a repository name and an assembly list were given, every assembly loaded, and both uploads were stored |
| Program.BothFilesUploaded | src/TestLabelReporting/TestLabelReporting/Program.cs:185-189 | once every assembly loads, both files are uploaded in this order, whatever the first upload's result: same bucket, different keys, header plus one row per record of all the types |
| Program.CompletedRun | src/TestLabelReporting/TestLabelReporting/Program.cs:185-198 | when every assembly loads, the run ends with `success ? 0 : -1`, prints nothing, and uploads the fixture file then the test file, each under its own key |
| Program.ExitCode | src/TestLabelReporting/TestLabelReporting/Program.cs:191-198 | definition of `success ? 0 : -1` with `success` the conjunction of the two upload results; `ExitCodeZeroIff` and `CompletedRun` state its role |
| Program.Expected | src/TestLabelReporting/TestLabelReporting/Program.cs:159-199 | definition of what `Main` does: the missing-argument line and -1, the crash on a single argument, the first failing load, or the two uploads and `success ? 0 : -1`; the lemmas above state its properties |
| Program.Run | src/TestLabelReporting/TestLabelReporting/Program.cs:159-199 | `Main` behaves as `Expected` says: the argument checks, the load loop with accumulation, the two writes and uploads, and the exit code |

## Left out

- `StoreDataInBucket` (the S3 client, `TransferUtility` and the two error lines on standard error) is not part of this model. Whether each upload was stored is an input of `Run`.
- Reflection and `Assembly.LoadFrom` are replaced by data.
  - An assembly is the list of types `GetTypes` would report.
  - A path that does not load is one missing from the `loader` map.
  - A type's methods are the list `GetMethods` would report, inherited public methods included.
  - A `GetTypes` that throws `ReflectionTypeLoadException` is not modelled.
- `DateTime.UtcNow` is read once per upload. These readings are the two timestamp parameters of `Run`.
- Stream contents are modelled as lines. The UTF-8 encoding, the platform newline and the `MemoryStream` copying are not modelled.
- `Timestamps.Format`: `DateTime.ToString("yyyyMMddTHHmmss")` formats with the current culture's calendar, so under a culture with another default calendar (the Thai Buddhist calendar of th-TH prints 2024 as 2567) the stamp and the object key differ. The model formats with the Gregorian calendar.
- `Extraction.IsFixtureType`: `EndsWith("Fixture")` in .NET compares with the current culture. The model compares characters ordinally.
- Attribute constructor arguments are modelled as strings only.
  - An argument of another type (an enum, a number, a `Type`) renders differently through `ToString()`.
  - A null argument is not modelled.
  - A missing argument of a family attribute renders as the name of the empty `CustomAttributeTypedArgument` struct, and this case is modelled.
- `Extraction.FixtureRecords` and `Program.Run` require each fixture attribute they read to have a constructor argument. Without one, `.Value.ToString()` throws `NullReferenceException` in the program. `Program.Run` asks this only of the assemblies the loop reaches: those whose path and every earlier path load. The only uncaught exceptions the model turns into outcomes are `args[1]` on a single argument (`MissingAssemblyList`) and a failing `Assembly.LoadFrom` (`LoadFailed`).
- `args == null` cannot be expressed: the model's arguments are a sequence.
- `Program.Run` returns the value `Main` returns (0 or -1). How the runtime turns -1 into the process exit status is not modelled.
- `Csv.FixtureRowColumns`, `Csv.TestRowColumns`: neither the program nor the model quotes or escapes CSV values. A value containing a comma, a quote or a line break goes into the file as written, so these lemmas exclude commas in the columns they decode, and a line break in a value splits one written line into several physical lines.
- No lemma states that the constant header lines split into the column names. They are constants, visible in `Csv.dfy`.
