/**
  Where an export file goes (`UploadExportFileToS3`): one fixed bucket, and a
  key under a fixed prefix made of the repository name, the data type and
  the UTC time of the upload. The store itself (`StoreDataInBucket`) is not
  modelled; its success or failure is an input of the program model.
 */
module Publishing {
  import opened Wrappers
  import Timestamps

  const Bucket := "psi-reporting-data"
  const KeyPrefix := "external_data/automated_test_data/"
  const FixtureDataType := "test_fixtures"
  const TestDataType := "automated_tests"
  const Separator := "__"
  const Extension := ".csv"

  /** `{repositoryName}__{dataType}__{timestamp}.csv`. */
  function FileName(repositoryName: string, dataType: string, now: Timestamps.Timestamp): string
    requires Timestamps.Valid(now)
  {
    repositoryName + Separator + dataType + Separator + Timestamps.Format(now) + Extension
  }

  /** The object key: the file name under the fixed prefix. */
  function ObjectKey(repositoryName: string, dataType: string, now: Timestamps.Timestamp): string
    requires Timestamps.Valid(now)
  {
    KeyPrefix + FileName(repositoryName, dataType, now)
  }

  /** Where the stamp starts in a key, given the repository name and data type. */
  function StampOffset(repositoryName: string, dataType: string): nat {
    |KeyPrefix| + |repositoryName| + |Separator| + |dataType| + |Separator|
  }

  /**
    The key is the prefix, the repository name, `__`, the data type, `__`,
    fifteen characters that parse back to the upload time, and `.csv`.
   */
  lemma ObjectKeyLayout(repositoryName: string, dataType: string, now: Timestamps.Timestamp)
    requires Timestamps.Valid(now)
    ensures var key := ObjectKey(repositoryName, dataType, now);
      var at := StampOffset(repositoryName, dataType);
      && |key| == at + 15 + |Extension|
      && key[..|KeyPrefix|] == KeyPrefix
      && key[|KeyPrefix|..|KeyPrefix| + |repositoryName|] == repositoryName
      && key[|KeyPrefix| + |repositoryName|..at - |Separator| - |dataType|] == Separator
      && key[at - |Separator| - |dataType|..at - |Separator|] == dataType
      && key[at - |Separator|..at] == Separator
      && Timestamps.Parse(key[at..at + 15]) == Some(now)
      && key[at + 15..] == Extension
  {
    var key := ObjectKey(repositoryName, dataType, now);
    var at := StampOffset(repositoryName, dataType);
    var stamp := Timestamps.Format(now);
    assert key == KeyPrefix + repositoryName + Separator + dataType + Separator + stamp + Extension;
    assert key[at..at + 15] == stamp;
    Timestamps.FormatParse(now);
  }

  /** Two uploads of one repository and data type land on one key only if made in the same second. */
  lemma ObjectKeyInjective(repositoryName: string, dataType: string, t1: Timestamps.Timestamp, t2: Timestamps.Timestamp)
    requires Timestamps.Valid(t1) && Timestamps.Valid(t2)
    requires ObjectKey(repositoryName, dataType, t1) == ObjectKey(repositoryName, dataType, t2)
    ensures t1 == t2
  {
    ObjectKeyLayout(repositoryName, dataType, t1);
    ObjectKeyLayout(repositoryName, dataType, t2);
  }

  /** The fixture file and the test file of a run never share a key, whatever the times. */
  lemma DataTypesNeverCollide(repositoryName: string, t1: Timestamps.Timestamp, t2: Timestamps.Timestamp)
    requires Timestamps.Valid(t1) && Timestamps.Valid(t2)
    ensures ObjectKey(repositoryName, FixtureDataType, t1) != ObjectKey(repositoryName, TestDataType, t2)
  {
    var k1 := ObjectKey(repositoryName, FixtureDataType, t1);
    var k2 := ObjectKey(repositoryName, TestDataType, t2);
    var at := |KeyPrefix| + |repositoryName| + |Separator|;
    assert k1[at] == FixtureDataType[0];
    assert k2[at] == TestDataType[0];
  }

  /** The year 2024 pads to itself. */
  lemma ExampleYearDigits()
    ensures Timestamps.PadDigits(2024, 4) == "2024"
  {
    assert Timestamps.PadDigits(2, 1) == "2";
    assert Timestamps.PadDigits(20, 2) == "20";
    assert Timestamps.PadDigits(202, 3) == "202";
  }

  /** One and zero pad to two digits with a leading zero. */
  lemma ExampleSmallDigits()
    ensures Timestamps.PadDigits(1, 2) == "01" && Timestamps.PadDigits(0, 2) == "00"
  {
    assert Timestamps.PadDigits(0, 1) == "0";
  }

  /** The stamp of 2024-01-01 00:00:00 UTC. */
  lemma ExampleStamp()
    ensures Timestamps.Format(Timestamps.Timestamp(2024, 1, 1, 0, 0, 0)) == "20240101T000000"
  {
    ExampleYearDigits();
    ExampleSmallDigits();
    assert Timestamps.Format(Timestamps.Timestamp(2024, 1, 1, 0, 0, 0)) == "2024" + "01" + "01" + "T" + "00" + "00" + "00";
  }

  /**
    The key of the fixture file of repository "care" uploaded at 2024-01-01
    00:00:00 UTC, piece by piece:
    `external_data/automated_test_data/care__test_fixtures__20240101T000000.csv`.
   */
  lemma ExampleFixtureKey()
    ensures ObjectKey("care", FixtureDataType, Timestamps.Timestamp(2024, 1, 1, 0, 0, 0))
      == "external_data/automated_test_data/" + "care" + "__" + "test_fixtures" + "__" + "20240101T000000" + ".csv"
  {
    ExampleStamp();
  }
}
