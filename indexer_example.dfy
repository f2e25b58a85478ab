/**
 * The bag indexer's unit test (da-ayr-bag-indexer/test_lambda_function.py):
 * a bag of seven root files and six content files yields a bag_data of
 * eight entries, six of them sub-files; and the BagFileMapper tests of
 * lib/test_s3_bag_reader.py.
 */
module IndexerExample {
  import opened Wrappers
  import opened Text
  import opened Dicts
  import opened Json
  import opened BagFileMapper
  import opened S3BagReader
  import opened BagIndexer

  const TestBagName := "TDR-2022-D6WD.tar.gz"
  const TestOutputPath := "ayr-in/TDR-2022-D6WD.tar.gz"
  const TestPrefix := "ayr-in/TDR-2022-D6WD.tar.gz/TDR-2022-D6WD/"

  const TestSubNames := [
    "data/content/file-c1.txt", "data/content/file-c2.txt",
    "data/content/folder-a/file-a1.txt", "data/content/folder-a/file-a2.txt",
    "data/content/folder-b/file-b1.txt", "data/content/folder-b/file-b2.txt"]

  /** Each name under the prefix. */
  function Under(prefix: string, names: seq<string>): (r: seq<string>)
    ensures |r| == |names| && forall k :: 0 <= k < |names| ==> r[k] == prefix + names[k]
  {
    seq(|names|, k requires 0 <= k < |names| => prefix + names[k])
  }

  const FirstRoots := [BagInfoTxt, BagitTxt]
  const LastRoots := [FileAvCsv, FileFfidCsv, FileMetadataCsv, ManifestSha256Txt, TagmanifestSha256Txt]

  /** The names of the test's files inside the bag, in the event's order. */
  const TestNames := FirstRoots + TestSubNames + LastRoots

  /** The unpacked files of the test event. */
  function TestFiles(): seq<string> {
    Under(TestPrefix, TestNames)
  }

  lemma UnderConcat(prefix: string, a: seq<string>, b: seq<string>)
    ensures Under(prefix, a + b) == Under(prefix, a) + Under(prefix, b)
  {
  }

  lemma UnderRemainder(prefix: string, names: seq<string>, k: nat)
    requires k < |names|
    ensures RemovePrefix(Under(prefix, names)[k], prefix) == names[k]
  {
    RemovePrefixOfConcat(prefix, names[k]);
  }

  /** An indexer event: the four keys in validate_event's order, with string values and a list of paths. */
  function IndexerEvent(bucket: string, bagName: string, path: string, files: seq<string>): Event {
    [(KeyS3Bucket, JStr(bucket)), (KeyBagName, JStr(bagName)), (KeyBagOutputS3Path, JStr(path)),
     (KeyUnpackedFiles, JArr(seq(|files|, k requires 0 <= k < |files| => JStr(files[k]))))]
  }

  /** test_event_1, for the bucket the test reads from its environment. */
  function TestEvent(bucket: string): Event {
    IndexerEvent(bucket, TestBagName, TestOutputPath, TestFiles())
  }

  lemma TestPathPrefix()
    ensures PathPrefix(TestOutputPath, TestBagName) == TestPrefix
  {
    var folder := "TDR-2022-D6WD";
    assert folder + ".tar.gz" == TestBagName;
    PathPrefixOfTarball(TestOutputPath, folder);
    assert TestOutputPath + "/" + folder + "/" == TestPrefix;
  }

  lemma {:induction false} SubFilePathsUnder(prefix: string, names: seq<string>, inFolders: bool)
    requires forall k :: 0 <= k < |names| ==> ('/' in names[k] <==> inFolders)
    ensures SubFilePaths(Under(prefix, names), prefix) == if inFolders then Under(prefix, names) else []
    decreases |names|
  {
    var files := Under(prefix, names);
    if names != [] {
      assert files[1..] == Under(prefix, names[1..]);
      SubFilePathsUnder(prefix, names[1..], inFolders);
      RemovePrefixOfConcat(prefix, names[0]);
      if inFolders {
        assert files == [files[0]] + files[1..];
      }
    }
  }

  lemma {:induction false} TextFilesUnder(prefix: string, names: seq<string>)
    requires forall k :: 0 <= k < |names| ==> IsTextFile(prefix + names[k])
    ensures TextFiles(Under(prefix, names)) == Under(prefix, names)
    decreases |names|
  {
    var files := Under(prefix, names);
    if names != [] {
      assert files[1..] == Under(prefix, names[1..]);
      TextFilesUnder(prefix, names[1..]);
      assert files == [files[0]] + files[1..];
    }
  }

  lemma TestSubNamesInFolders()
    ensures forall k :: 0 <= k < |TestSubNames| ==> '/' in TestSubNames[k]
  {
    forall k | 0 <= k < |TestSubNames|
      ensures '/' in TestSubNames[k]
    {
      assert TestSubNames[k][4] == '/';
    }
  }

  lemma TestSubNamesAreText(prefix: string)
    ensures forall k :: 0 <= k < |TestSubNames| ==> IsTextFile(prefix + TestSubNames[k])
  {
    forall k | 0 <= k < |TestSubNames|
      ensures IsTextFile(prefix + TestSubNames[k])
    {
      var n := TestSubNames[k];
      var s := prefix + n;
      assert s[|s| - 4..] == n[|n| - 4..] == ".txt";
    }
  }

  /*
   * The facts below hold for the test's names under any prefix; keeping
   * files and prefix as parameters keeps the verifier from unfolding the
   * classification of the literal file list.
   */

  /** The test's files classify: bag-info.txt is among them. */
  lemma TestClassifies(files: seq<string>, prefix: string)
    requires files == Under(prefix, TestNames)
    ensures Classify(files, prefix, false).Success?
  {
    ClassifyLenientFails(files, prefix);
    UnderRemainder(prefix, TestNames, 0);
  }

  /** The test's k-th file, a root file, is found. */
  lemma TestRootFile(files: seq<string>, prefix: string, k: nat, name: string)
    requires files == Under(prefix, TestNames)
    requires k < |TestNames| && TestNames[k] == name && IsRootName(name)
    requires Classify(files, prefix, false).Success?
    ensures RootFile(Classify(files, prefix, false).value, name).Some?
  {
    UnderRemainder(prefix, TestNames, k);
    ClassifyLenientPresent(files, prefix, name, k);
  }

  /** All three CSV files of the test are found. */
  lemma TestCsvFiles(files: seq<string>, prefix: string)
    requires files == Under(prefix, TestNames)
    requires Classify(files, prefix, false).Success?
    ensures var m := Classify(files, prefix, false).value;
      m.fileAvCsv.Some? && m.fileFfidCsv.Some? && m.fileMetadataCsv.Some?
  {
    assert TestNames[8] == LastRoots[0] && TestNames[9] == LastRoots[1] && TestNames[10] == LastRoots[2];
    assert RootNames[2] == FileAvCsv && RootNames[3] == FileFfidCsv && RootNames[4] == FileMetadataCsv;
    TestRootFile(files, prefix, 8, FileAvCsv);
    TestRootFile(files, prefix, 9, FileFfidCsv);
    TestRootFile(files, prefix, 10, FileMetadataCsv);
    CsvRootFiles(Classify(files, prefix, false).value);
  }

  /** RootFile reads the three CSV fields; the names differ in their first or sixth character. */
  lemma CsvRootFiles(m: BagFiles)
    ensures RootFile(m, FileAvCsv) == m.fileAvCsv
    ensures RootFile(m, FileFfidCsv) == m.fileFfidCsv
    ensures RootFile(m, FileMetadataCsv) == m.fileMetadataCsv
  {
    assert BagInfoTxt[0] == BagitTxt[0] == 'b' && FileAvCsv[0] == FileFfidCsv[0] == FileMetadataCsv[0] == 'f';
    assert FileAvCsv[5] == 'a' && FileFfidCsv[5] == 'f' && FileMetadataCsv[5] == 'm';
  }

  /** The root names of the test have no '/'. */
  lemma TestRootsAtTop()
    ensures forall k :: 0 <= k < |FirstRoots| ==> '/' !in FirstRoots[k]
    ensures forall k :: 0 <= k < |LastRoots| ==> '/' !in LastRoots[k]
  {
    forall k | 0 <= k < |FirstRoots| ensures '/' !in FirstRoots[k] { RootNamesHaveNoSlash(FirstRoots[k]); }
    forall k | 0 <= k < |LastRoots| ensures '/' !in LastRoots[k] { RootNamesHaveNoSlash(LastRoots[k]); }
  }

  lemma TestFilesInThree(prefix: string)
    ensures Under(prefix, TestNames) == Under(prefix, FirstRoots) + Under(prefix, TestSubNames) + Under(prefix, LastRoots)
  {
    UnderConcat(prefix, FirstRoots + TestSubNames, LastRoots);
    UnderConcat(prefix, FirstRoots, TestSubNames);
  }

  /** Files at the top, then files in sub-folders, then files at the top: the middle ones are the sub-files. */
  lemma SubFilePathsOfThree(prefix: string, top1: seq<string>, inFolders: seq<string>, top2: seq<string>)
    requires forall k :: 0 <= k < |top1| ==> '/' !in top1[k]
    requires forall k :: 0 <= k < |inFolders| ==> '/' in inFolders[k]
    requires forall k :: 0 <= k < |top2| ==> '/' !in top2[k]
    ensures SubFilePaths(Under(prefix, top1 + inFolders + top2), prefix) == Under(prefix, inFolders)
  {
    var a, b, c := Under(prefix, top1), Under(prefix, inFolders), Under(prefix, top2);
    UnderConcat(prefix, top1 + inFolders, top2);
    UnderConcat(prefix, top1, inFolders);
    assert Under(prefix, top1 + inFolders + top2) == a + b + c;
    SubFilePathsConcat(a + b, c, prefix);
    SubFilePathsConcat(a, b, prefix);
    SubFilePathsUnder(prefix, top1, false);
    SubFilePathsUnder(prefix, inFolders, true);
    SubFilePathsUnder(prefix, top2, false);
    calc {
      SubFilePaths(a + b + c, prefix);
      SubFilePaths(a, prefix) + SubFilePaths(b, prefix) + SubFilePaths(c, prefix);
      [] + b + [];
      { assert [] + b + [] == b; }
      b;
    }
  }

  /** Of the test's seven root files and six content files, the content files lie in sub-folders. */
  lemma TestSubFilePaths(prefix: string)
    ensures SubFilePaths(Under(prefix, TestNames), prefix) == Under(prefix, TestSubNames)
  {
    TestRootsAtTop();
    TestSubNamesInFolders();
    SubFilePathsOfThree(prefix, FirstRoots, TestSubNames, LastRoots);
  }

  /** The six content files, and only they, are sub-files. */
  lemma TestSubFiles(files: seq<string>, prefix: string)
    requires files == Under(prefix, TestNames)
    requires Classify(files, prefix, false).Success?
    ensures Classify(files, prefix, false).value.bagSubFileList == Under(prefix, TestSubNames)
  {
    ClassifyLenientSubFiles(files, prefix);
    TestSubFilePaths(prefix);
  }

  lemma IndexerEventUnique(bucket: string, bagName: string, path: string, files: seq<string>)
    ensures UniqueKeys(IndexerEvent(bucket, bagName, path, files))
  {
    assert KeyBagName[0] != KeyS3Bucket[0] && KeyBagOutputS3Path[0] != KeyS3Bucket[0];
    assert KeyUnpackedFiles[0] != KeyS3Bucket[0] && KeyUnpackedFiles[0] != KeyBagName[0];
    assert KeyBagOutputS3Path[4] != KeyBagName[4] && KeyUnpackedFiles[0] != KeyBagOutputS3Path[0];
  }

  /** A str stored under a key of a dict without duplicate keys is read back. */
  lemma EventStringAt(event: Event, i: nat, value: string)
    requires UniqueKeys(event) && i < |event| && event[i].1 == JStr(value)
    ensures EventString(event, event[i].0) == Success(value)
  {
    LookupUnique(event, i);
  }

  /** lambda_handler reads back the four values an indexer event carries. */
  lemma IndexerEventFields(bucket: string, bagName: string, path: string, files: seq<string>)
    ensures var event := IndexerEvent(bucket, bagName, path, files);
      && EventString(event, KeyS3Bucket) == Success(bucket)
      && EventString(event, KeyBagName) == Success(bagName)
      && EventString(event, KeyBagOutputS3Path) == Success(path)
      && EventStrings(event, KeyUnpackedFiles) == Success(files)
  {
    var event := IndexerEvent(bucket, bagName, path, files);
    IndexerEventUnique(bucket, bagName, path, files);
    EventStringAt(event, 0, bucket);
    EventStringAt(event, 1, bagName);
    EventStringAt(event, 2, path);
    assert EventStrings(event, KeyUnpackedFiles) == Success(files) by {
      LookupUnique(event, 3);
      var items := EventStrings(event, KeyUnpackedFiles);
      assert items.Success?;
      assert items.value == files;
    }
  }

  /** bag_data has eight entries, bag-info.txt among them, when the bag's three CSV files are present. */
  lemma TestBagDataKeys(files: seq<string>, prefix: string, data: Dict<Json>, m: BagFiles)
    requires files == Under(prefix, TestNames)
    requires Classify(files, prefix, false) == Success(m)
    requires Keys(data) == ExpectedKeys(m)
    ensures |data| == 8 && HasKey(data, BagInfoTxt)
  {
    TestCsvFiles(files, prefix);
    assert |Keys(data)| == |data|;
  }

  /** The bag_sub_files entry lists the six content files. */
  lemma TestSubFilesEntry(bag: Reader, prefix: string, sub: Dict<Json>)
    requires bag.files.bagSubFileList == Under(prefix, TestSubNames)
    requires SubFilesDict(bag) == Success(sub)
    ensures |sub| == 1 && sub[0].0 == BagSubFiles && sub[0].1.JArr? && |sub[0].1.items| == 6
  {
    SubFilesDictResult(bag);
    TestSubNamesAreText(prefix);
    TextFilesUnder(prefix, TestSubNames);
    var fs :| ReadAll(bag.store, bag.bucket, TextFiles(bag.files.bagSubFileList), fs)
            && sub == [(BagSubFiles, SubFilesJson(fs))];
  }

  /** What lambda_handler returns for test_event_1, when it returns. */
  lemma TestRecord(bucket: string, store: Store, csv: CsvReader)
    requires Index(TestEvent(bucket), store, csv).Success?
    ensures Classify(TestFiles(), TestPrefix, false).Success?
    ensures var bag := Reader(bucket, Classify(TestFiles(), TestPrefix, false).value, false, store);
      && BagData(bag, csv).Success?
      && Index(TestEvent(bucket), store, csv).value == Record(BagS3Url(bucket, TestOutputPath), BagData(bag, csv).value)
  {
    IndexerEventFields(bucket, TestBagName, TestOutputPath, TestFiles());
    TestPathPrefix();
    IndexRecord(TestEvent(bucket), store, csv, bucket, TestBagName, TestOutputPath, TestFiles());
  }

  /** The bag_data of the test's bag, read in lenient mode. */
  lemma TestBagData(files: seq<string>, prefix: string, bag: Reader, csv: CsvReader)
    requires files == Under(prefix, TestNames)
    requires Classify(files, prefix, false) == Success(bag.files)
    requires BagData(bag, csv).Success?
    ensures var data := BagData(bag, csv).value;
      && |data| == 8 && HasKey(data, BagInfoTxt)
      && Lookup(data, BagSubFiles).Some? && Lookup(data, BagSubFiles).value.JArr?
      && |Lookup(data, BagSubFiles).value.items| == 6
  {
    BagDataMerged(bag, csv);
    var data := BagData(bag, csv).value;
    var parts := BagParts(bag, csv).value;
    TestBagDataKeys(files, prefix, data, bag.files);
    TestSubFiles(files, prefix);
    TestSubFilesEntry(bag, prefix, parts.subFiles);
    assert data[7] == parts.subFiles[0];
    LookupUnique(data, 7);
  }

  /**
   * test_expected_data: the record holds ayr_role, bag_s3_url and bag_data;
   * bag_data holds bag-info.txt, has eight entries, and its bag_sub_files
   * lists six files.
   */
  lemma TestExpectedData(bucket: string, store: Store, csv: CsvReader)
    requires Index(TestEvent(bucket), store, csv).Success?
    ensures var r := Index(TestEvent(bucket), store, csv).value;
      && HasKey(r, KeyAyrRole) && HasKey(r, KeyBagS3Url)
      && Lookup(r, KeyBagData).Some? && Lookup(r, KeyBagData).value.JObj?
      && var data := Lookup(r, KeyBagData).value.fields;
      && |data| == 8 && HasKey(data, BagInfoTxt)
      && Lookup(data, BagSubFiles).Some? && Lookup(data, BagSubFiles).value.JArr?
      && |Lookup(data, BagSubFiles).value.items| == 6
  {
    TestRecord(bucket, store, csv);
    var bag := Reader(bucket, Classify(TestFiles(), TestPrefix, false).value, false, store);
    TestBagData(TestFiles(), TestPrefix, bag, csv);
  }

  /** The names of lib/test_s3_bag_reader.py's file_list_1 inside its bag. */
  const MapperTestNames := [BagInfoTxt, BagitTxt, "data/content/file-c1.txt"]

  /**
   * The BagFileMapper tests: file_list_1 classifies, with its one content
   * file as the only sub-file, and an empty list is refused for lack of
   * bag-info.txt.
   */
  lemma MapperTestExpected(files: seq<string>, prefix: string)
    requires files == Under(prefix, MapperTestNames)
    ensures Classify(files, prefix, false).Success?
    ensures Classify(files, prefix, false).value.bagSubFileList == [files[2]]
    ensures Classify([], prefix, false) == Failure(BagError(NoBagInfo))
  {
    UnderRemainder(prefix, MapperTestNames, 0);
    ClassifyLenientFails(files, prefix);
    ClassifyLenientSubFiles(files, prefix);
    MapperTestSubFiles(prefix);
    ClassifyEmpty(prefix, false);
  }

  lemma MapperTestSubFiles(prefix: string)
    ensures SubFilePaths(Under(prefix, MapperTestNames), prefix) == [prefix + MapperTestNames[2]]
  {
    var roots, content := MapperTestNames[..2], MapperTestNames[2..];
    assert '/' !in roots[0] && '/' !in roots[1] by {
      RootNamesHaveNoSlash(BagInfoTxt);
      RootNamesHaveNoSlash(BagitTxt);
    }
    assert '/' in content[0] by {
      assert content[0][4] == '/';
    }
    assert MapperTestNames == roots + content + [];
    SubFilePathsOfThree(prefix, roots, content, []);
    assert Under(prefix, content) == [prefix + MapperTestNames[2]];
  }
}
