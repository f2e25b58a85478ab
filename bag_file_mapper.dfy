/**
 * lib/s3_bag_reader.py, class BagFileMapper: sorting the unpacked files of a
 * bag into its seven root files and its sub-files.
 */
module BagFileMapper {
  import opened Wrappers
  import opened Text
  import opened Dicts
  import opened Json

  // The root file names BagFileMapper knows.
  const BagInfoTxt := "bag-info.txt"
  const BagitTxt := "bagit.txt"
  const FileAvCsv := "file-av.csv"
  const FileFfidCsv := "file-ffid.csv"
  const FileMetadataCsv := "file-metadata.csv"
  const ManifestSha256Txt := "manifest-sha256.txt"
  const TagmanifestSha256Txt := "tagmanifest-sha256.txt"

  /** The root names, in the order the bag indexer reads them. */
  const RootNames: seq<string> :=
    [BagInfoTxt, BagitTxt, FileAvCsv, FileFfidCsv, FileMetadataCsv, ManifestSha256Txt, TagmanifestSha256Txt]

  predicate IsRootName(name: string) {
    name in RootNames
  }

  /** The fields BagFileMapper.__init__ sets: a path (or None) per root file, and the sub-files. */
  datatype BagFiles = BagFiles(
    bagInfoTxt: Option<string>,
    bagitTxt: Option<string>,
    fileAvCsv: Option<string>,
    fileFfidCsv: Option<string>,
    fileMetadataCsv: Option<string>,
    manifestSha256Txt: Option<string>,
    tagmanifestSha256Txt: Option<string>,
    bagSubFileList: seq<string>)

  /** The class-level defaults, before any file is seen. */
  const NoFiles := BagFiles(None, None, None, None, None, None, None, [])

  /** The field that holds the root file called name. */
  function RootFile(m: BagFiles, name: string): Option<string> {
    if name == BagInfoTxt then m.bagInfoTxt
    else if name == BagitTxt then m.bagitTxt
    else if name == FileAvCsv then m.fileAvCsv
    else if name == FileFfidCsv then m.fileFfidCsv
    else if name == FileMetadataCsv then m.fileMetadataCsv
    else if name == ManifestSha256Txt then m.manifestSha256Txt
    else if name == TagmanifestSha256Txt then m.tagmanifestSha256Txt
    else None
  }

  /** The seven `if bag_file == ...` statements of one iteration. */
  function AssignRoot(m: BagFiles, name: string, full: string): (r: BagFiles)
    ensures forall n :: IsRootName(n) ==> RootFile(r, n) == if n == name then Some(full) else RootFile(m, n)
    ensures !IsRootName(name) ==> r == m
    ensures r.bagSubFileList == m.bagSubFileList
  {
    m.(bagInfoTxt := if name == BagInfoTxt then Some(full) else m.bagInfoTxt,
       bagitTxt := if name == BagitTxt then Some(full) else m.bagitTxt,
       fileAvCsv := if name == FileAvCsv then Some(full) else m.fileAvCsv,
       fileFfidCsv := if name == FileFfidCsv then Some(full) else m.fileFfidCsv,
       fileMetadataCsv := if name == FileMetadataCsv then Some(full) else m.fileMetadataCsv,
       manifestSha256Txt := if name == ManifestSha256Txt then Some(full) else m.manifestSha256Txt,
       tagmanifestSha256Txt := if name == TagmanifestSha256Txt then Some(full) else m.tagmanifestSha256Txt)
  }

  /**
   * One iteration of the loop in BagFileMapper.__init__, as written: only the
   * last `if` (tagmanifest-sha256.txt) is chained to the `elif '/'` and the `else`.
   */
  function MapStep(m: BagFiles, full: string, prefix: string, strict: bool): Result<BagFiles, Error>
  {
    var name := RemovePrefix(full, prefix);
    var m' := AssignRoot(m, name, full);
    if name == TagmanifestSha256Txt then Success(m')
    else if '/' in name then Success(m'.(bagSubFileList := m'.bagSubFileList + [full]))
    else if strict then Failure(BagError(UnexpectedRootFile(full)))
    else Success(m')
  }

  /** The loop over the remaining files, from the fields set so far. */
  function MapFrom(m: BagFiles, files: seq<string>, prefix: string, strict: bool): Result<BagFiles, Error>
    decreases |files|
  {
    if files == [] then Success(m)
    else match MapStep(m, files[0], prefix, strict)
      case Failure(e) => Failure(e)
      case Success(m') => MapFrom(m', files[1..], prefix, strict)
  }

  /** BagFileMapper(file_list, path_prefix, only_expected_root_files), as written. */
  function Classify(files: seq<string>, prefix: string, strict: bool): Result<BagFiles, Error>
  {
    match MapFrom(NoFiles, files, prefix, strict)
    case Failure(e) => Failure(e)
    case Success(m) => if m.bagInfoTxt.None? then Failure(BagError(NoBagInfo)) else Success(m)
  }

  /** BagFileMapper.__init__: the loop over file_list, then the bag-info.txt check. */
  method MapBagFiles(fileList: seq<string>, pathPrefix: string, onlyExpectedRootFiles: bool)
    returns (r: Result<BagFiles, Error>)
    ensures r == Classify(fileList, pathPrefix, onlyExpectedRootFiles)
  {
    var bagInfoTxt, bagitTxt, fileAvCsv, fileFfidCsv: Option<string> := None, None, None, None;
    var fileMetadataCsv, manifestSha256Txt, tagmanifestSha256Txt: Option<string> := None, None, None;
    var bagSubFileList: seq<string> := [];
    var i := 0;
    while i < |fileList|
      invariant 0 <= i <= |fileList|
      invariant MapFrom(NoFiles, fileList, pathPrefix, onlyExpectedRootFiles)
             == MapFrom(BagFiles(bagInfoTxt, bagitTxt, fileAvCsv, fileFfidCsv, fileMetadataCsv,
                                 manifestSha256Txt, tagmanifestSha256Txt, bagSubFileList),
                        fileList[i..], pathPrefix, onlyExpectedRootFiles)
    {
      var bagFileFullPath := fileList[i];
      var bagFile := RemovePrefix(bagFileFullPath, pathPrefix);
      assert fileList[i..][1..] == fileList[i + 1..];
      if bagFile == BagInfoTxt {
        bagInfoTxt := Some(bagFileFullPath);
      }
      if bagFile == BagitTxt {
        bagitTxt := Some(bagFileFullPath);
      }
      if bagFile == FileAvCsv {
        fileAvCsv := Some(bagFileFullPath);
      }
      if bagFile == FileFfidCsv {
        fileFfidCsv := Some(bagFileFullPath);
      }
      if bagFile == FileMetadataCsv {
        fileMetadataCsv := Some(bagFileFullPath);
      }
      if bagFile == ManifestSha256Txt {
        manifestSha256Txt := Some(bagFileFullPath);
      }
      if bagFile == TagmanifestSha256Txt {
        tagmanifestSha256Txt := Some(bagFileFullPath);
      } else if '/' in bagFile {
        bagSubFileList := bagSubFileList + [bagFileFullPath];
      } else if onlyExpectedRootFiles {
        return Failure(BagError(UnexpectedRootFile(bagFileFullPath)));
      }
      i := i + 1;
    }
    if bagInfoTxt.None? {
      return Failure(BagError(NoBagInfo));
    }
    r := Success(BagFiles(bagInfoTxt, bagitTxt, fileAvCsv, fileFfidCsv, fileMetadataCsv,
                          manifestSha256Txt, tagmanifestSha256Txt, bagSubFileList));
  }

  // ---------------------------------------------------------------------
  // What classification promises

  /** The input paths whose remainder lies in a sub-folder, in input order. */
  function SubFilePaths(files: seq<string>, prefix: string): (r: seq<string>)
    ensures forall x :: x in r <==> x in files && '/' in RemovePrefix(x, prefix)
  {
    if files == [] then []
    else (if '/' in RemovePrefix(files[0], prefix) then [files[0]] else []) + SubFilePaths(files[1..], prefix)
  }

  /** Selecting sub-file paths distributes over concatenation. */
  lemma {:induction false} SubFilePathsConcat(a: seq<string>, b: seq<string>, prefix: string)
    ensures SubFilePaths(a + b, prefix) == SubFilePaths(a, prefix) + SubFilePaths(b, prefix)
    decreases |a|
  {
    if a == [] {
      assert a + b == b;
    } else {
      var ab := a + b;
      assert ab[0] == a[0] && ab[1..] == a[1..] + b;
      SubFilePathsConcat(a[1..], b, prefix);
    }
  }

  /** o is the full path of the last file whose remainder is name, or None when no remainder is. */
  ghost predicate IsLastMatch(files: seq<string>, prefix: string, name: string, o: Option<string>) {
    match o
    case None => forall j :: 0 <= j < |files| ==> RemovePrefix(files[j], prefix) != name
    case Some(p) =>
      exists j :: 0 <= j < |files| && files[j] == p && RemovePrefix(files[j], prefix) == name
           && forall k :: j < k < |files| ==> RemovePrefix(files[k], prefix) != name
  }

  lemma RootNamesHaveNoSlash(name: string)
    requires IsRootName(name)
    ensures '/' !in name
  {
  }

  /**
   * One iteration raises only in strict mode, for a file that is neither the
   * tagmanifest nor under a folder, and then names it; a file under a folder is
   * appended to the sub-file list.
   */
  lemma MapStepOutcome(m: BagFiles, full: string, prefix: string, strict: bool)
    ensures MapStep(m, full, prefix, strict).Success?
        <==> !strict || RemovePrefix(full, prefix) == TagmanifestSha256Txt || '/' in RemovePrefix(full, prefix)
    ensures MapStep(m, full, prefix, strict).Failure? ==>
      MapStep(m, full, prefix, strict).error == BagError(UnexpectedRootFile(full))
    ensures MapStep(m, full, prefix, strict).Success? ==>
      MapStep(m, full, prefix, strict).value.bagSubFileList
        == m.bagSubFileList + (if '/' in RemovePrefix(full, prefix) then [full] else [])
  {
    RootNamesHaveNoSlash(TagmanifestSha256Txt);
  }

  /**
   * The loop never raises in lenient mode; it only appends to the sub-file
   * list; what it raises is a strict-mode unexpected root file.
   */
  lemma {:induction false} MapFromOutcome(m: BagFiles, files: seq<string>, prefix: string, strict: bool)
    ensures !strict ==> MapFrom(m, files, prefix, strict).Success?
    ensures MapFrom(m, files, prefix, strict).Success? ==>
      m.bagSubFileList <= MapFrom(m, files, prefix, strict).value.bagSubFileList
    ensures MapFrom(m, files, prefix, strict).Failure? ==>
      strict && MapFrom(m, files, prefix, strict).error.BagError?
      && MapFrom(m, files, prefix, strict).error.problem.UnexpectedRootFile?
    decreases |files|
  {
    if files != [] {
      MapStepOutcome(m, files[0], prefix, strict);
      if MapStep(m, files[0], prefix, strict).Success? {
        MapFromOutcome(MapStep(m, files[0], prefix, strict).value, files[1..], prefix, strict);
      }
    }
  }

  /**
   * A classification that succeeds has bag-info.txt; a failure is the missing
   * bag-info error or, in strict mode, an unexpected root file.
   */
  lemma ClassifyOutcome(files: seq<string>, prefix: string, strict: bool)
    ensures Classify(files, prefix, strict).Success? ==> Classify(files, prefix, strict).value.bagInfoTxt.Some?
    ensures Classify(files, prefix, strict).Failure? ==>
      || Classify(files, prefix, strict).error == BagError(NoBagInfo)
      || (strict && Classify(files, prefix, strict).error.BagError?
          && Classify(files, prefix, strict).error.problem.UnexpectedRootFile?)
  {
    MapFromOutcome(NoFiles, files, prefix, strict);
  }

  lemma MapStepRootFile(m: BagFiles, full: string, prefix: string, strict: bool, name: string)
    requires IsRootName(name) && MapStep(m, full, prefix, strict).Success?
    ensures RootFile(MapStep(m, full, prefix, strict).value, name)
         == if RemovePrefix(full, prefix) == name then Some(full) else RootFile(m, name)
  {
    var n := RemovePrefix(full, prefix);
    var m' := AssignRoot(m, n, full);
    assert RootFile(m', name) == if n == name then Some(full) else RootFile(m, name);
    var r := MapStep(m, full, prefix, strict).value;
    assert r == m' || r == m'.(bagSubFileList := m'.bagSubFileList + [full]);
    assert RootFile(r, name) == RootFile(m', name);
  }

  lemma {:induction false} MapFromLenient(m: BagFiles, files: seq<string>, prefix: string)
    ensures MapFrom(m, files, prefix, false).Success?
    ensures MapFrom(m, files, prefix, false).value.bagSubFileList == m.bagSubFileList + SubFilePaths(files, prefix)
    decreases |files|
  {
    if files != [] {
      var name := RemovePrefix(files[0], prefix);
      var m1 := MapStep(m, files[0], prefix, false).value;
      assert m1.bagSubFileList == m.bagSubFileList + (if '/' in name then [files[0]] else []) by {
        RootNamesHaveNoSlash(TagmanifestSha256Txt);
      }
      MapFromLenient(m1, files[1..], prefix);
    }
  }

  lemma {:induction false} MapFromRootFile(m: BagFiles, files: seq<string>, prefix: string, name: string)
    requires IsRootName(name)
    ensures MapFrom(m, files, prefix, false).Success?
    ensures var r := MapFrom(m, files, prefix, false).value;
      if exists j :: 0 <= j < |files| && RemovePrefix(files[j], prefix) == name
      then IsLastMatch(files, prefix, name, RootFile(r, name))
      else RootFile(r, name) == RootFile(m, name)
    decreases |files|
  {
    MapFromLenient(m, files, prefix);
    if files != [] {
      var m1 := MapStep(m, files[0], prefix, false).value;
      MapStepRootFile(m, files[0], prefix, false, name);
      var tail := files[1..];
      MapFromRootFile(m1, tail, prefix, name);
      var r := MapFrom(m, files, prefix, false).value;
      assert r == MapFrom(m1, tail, prefix, false).value;
      if exists j :: 0 <= j < |tail| && RemovePrefix(tail[j], prefix) == name {
        assert RootFile(r, name).Some?;
        var p := RootFile(r, name).value;
        var j' :| 0 <= j' < |tail| && tail[j'] == p && RemovePrefix(tail[j'], prefix) == name
               && forall k :: j' < k < |tail| ==> RemovePrefix(tail[k], prefix) != name;
        assert files[j' + 1] == tail[j'];
        forall k | j' + 1 < k < |files|
          ensures RemovePrefix(files[k], prefix) != name
        {
          assert files[k] == tail[k - 1];
        }
      } else if RemovePrefix(files[0], prefix) == name {
        forall k | 0 < k < |files|
          ensures RemovePrefix(files[k], prefix) != name
        {
          assert files[k] == tail[k - 1];
        }
      } else {
        forall j | 0 <= j < |files|
          ensures RemovePrefix(files[j], prefix) != name
        {
          if j > 0 {
            assert files[j] == tail[j - 1];
          }
        }
      }
    }
  }

  /**
   * Default (lenient) mode, root files: the field of each root name holds the
   * full path of the last file whose remainder is that name, or None.
   */
  lemma ClassifyLenientRootFile(files: seq<string>, prefix: string, name: string)
    requires IsRootName(name)
    requires Classify(files, prefix, false).Success?
    ensures IsLastMatch(files, prefix, name, RootFile(Classify(files, prefix, false).value, name))
  {
    MapFromRootFile(NoFiles, files, prefix, name);
  }

  /** A root file that is among the input files is found. */
  lemma ClassifyLenientPresent(files: seq<string>, prefix: string, name: string, j: nat)
    requires IsRootName(name) && j < |files| && RemovePrefix(files[j], prefix) == name
    requires Classify(files, prefix, false).Success?
    ensures RootFile(Classify(files, prefix, false).value, name).Some?
  {
    ClassifyLenientRootFile(files, prefix, name);
  }

  /** Default (lenient) mode fails only for a missing bag-info.txt. */
  lemma ClassifyLenientFails(files: seq<string>, prefix: string)
    ensures Classify(files, prefix, false).Success?
        <==> exists j :: 0 <= j < |files| && RemovePrefix(files[j], prefix) == BagInfoTxt
    ensures Classify(files, prefix, false).Failure? ==> Classify(files, prefix, false).error == BagError(NoBagInfo)
  {
    MapFromRootFile(NoFiles, files, prefix, BagInfoTxt);
  }

  /** Default (lenient) mode, sub-files: exactly the paths whose remainder has a '/', in input order. */
  lemma ClassifyLenientSubFiles(files: seq<string>, prefix: string)
    requires Classify(files, prefix, false).Success?
    ensures Classify(files, prefix, false).value.bagSubFileList == SubFilePaths(files, prefix)
  {
    MapFromLenient(NoFiles, files, prefix);
    assert Classify(files, prefix, false).value == MapFrom(NoFiles, files, prefix, false).value;
  }

  /** The unit test's case: no file at all is not a bag. */
  lemma ClassifyEmpty(prefix: string, strict: bool)
    ensures Classify([], prefix, strict) == Failure(BagError(NoBagInfo))
  {
  }

  /** No path whose remainder is a root name is ever listed as a sub-file. */
  lemma SubFilesAreNotRootFiles(files: seq<string>, prefix: string, x: string)
    requires x in SubFilePaths(files, prefix)
    ensures !IsRootName(RemovePrefix(x, prefix))
  {
    if IsRootName(RemovePrefix(x, prefix)) {
      RootNamesHaveNoSlash(RemovePrefix(x, prefix));
    }
  }

  /** A file strict mode rejects: a remainder without '/' other than tagmanifest-sha256.txt. */
  predicate Offending(full: string, prefix: string) {
    var name := RemovePrefix(full, prefix);
    '/' !in name && name != TagmanifestSha256Txt
  }

  /** In strict mode a step on a file that is not offending succeeds and leaves bag-info.txt alone. */
  lemma StrictStep(m: BagFiles, full: string, prefix: string)
    requires !Offending(full, prefix)
    ensures MapStep(m, full, prefix, true).Success?
    ensures MapStep(m, full, prefix, true).value.bagInfoTxt == m.bagInfoTxt
  {
    RootNamesHaveNoSlash(BagInfoTxt);
    assert BagInfoTxt != TagmanifestSha256Txt by {
      assert BagInfoTxt[0] == 'b';
    }
  }

  /** A strict loop whose first file is not offending goes on from that file's step. */
  lemma StrictFromStep(m: BagFiles, files: seq<string>, prefix: string) returns (m1: BagFiles)
    requires files != [] && !Offending(files[0], prefix)
    ensures MapStep(m, files[0], prefix, true) == Success(m1)
    ensures m1.bagInfoTxt == m.bagInfoTxt
    ensures MapFrom(m, files, prefix, true) == MapFrom(m1, files[1..], prefix, true)
  {
    StrictStep(m, files[0], prefix);
    m1 := MapStep(m, files[0], prefix, true).value;
  }

  lemma {:induction false} MapFromStrict(m: BagFiles, files: seq<string>, prefix: string)
    ensures MapFrom(m, files, prefix, true).Success?
        <==> forall j :: 0 <= j < |files| ==> !Offending(files[j], prefix)
    ensures MapFrom(m, files, prefix, true).Success? ==>
      MapFrom(m, files, prefix, true).value.bagInfoTxt == m.bagInfoTxt
    decreases |files|
  {
    if files != [] {
      var tail := files[1..];
      if !Offending(files[0], prefix) {
        var m1 := StrictFromStep(m, files, prefix);
        MapFromStrict(m1, tail, prefix);
        forall j | 0 < j < |files|
          ensures files[j] == tail[j - 1]
        {
        }
      } else {
        StrictStepFails(m, files[0], prefix);
      }
    }
  }

  /** In strict mode the first offending file is the one reported. */
  lemma {:induction false} MapFromStrictFirst(m: BagFiles, files: seq<string>, prefix: string, j: nat)
    requires j < |files| && Offending(files[j], prefix)
    requires forall k :: 0 <= k < j ==> !Offending(files[k], prefix)
    ensures MapFrom(m, files, prefix, true) == Failure(BagError(UnexpectedRootFile(files[j])))
    decreases j
  {
    if j > 0 {
      var m1 := StrictFromStep(m, files, prefix);
      ShiftOffending(files, prefix, j);
      MapFromStrictFirst(m1, files[1..], prefix, j - 1);
    } else {
      StrictStepFails(m, files[0], prefix);
      assert files != [];
    }
  }

  /** An offending file makes its strict step fail, naming it. */
  lemma StrictStepFails(m: BagFiles, full: string, prefix: string)
    requires Offending(full, prefix)
    ensures MapStep(m, full, prefix, true) == Failure(BagError(UnexpectedRootFile(full)))
  {
  }

  /** The first offending file at j is, in the tail, the first offending file at j - 1. */
  lemma ShiftOffending(files: seq<string>, prefix: string, j: nat)
    requires 0 < j < |files| && Offending(files[j], prefix)
    requires forall k :: 0 <= k < j ==> !Offending(files[k], prefix)
    ensures files[1..][j - 1] == files[j] && Offending(files[1..][j - 1], prefix)
    ensures forall k :: 0 <= k < j - 1 ==> !Offending(files[1..][k], prefix)
  {
    var tail := files[1..];
    forall k | 0 <= k < j - 1
      ensures !Offending(tail[k], prefix)
    {
      assert tail[k] == files[k + 1] && !Offending(files[k + 1], prefix);
    }
  }

  /**
   * Strict mode, as written, never succeeds: without an offending file it ends
   * with no bag-info.txt, because bag-info.txt is itself offending.
   */
  lemma ClassifyStrict(files: seq<string>, prefix: string)
    ensures Classify(files, prefix, true).Failure?
    ensures (forall j :: 0 <= j < |files| ==> !Offending(files[j], prefix)) ==>
      Classify(files, prefix, true) == Failure(BagError(NoBagInfo))
  {
    MapFromStrict(NoFiles, files, prefix);
  }

  /** Strict mode, as written, reports the first file whose remainder has no '/' and is not tagmanifest-sha256.txt. */
  lemma ClassifyStrictFirst(files: seq<string>, prefix: string, j: nat)
    requires j < |files| && Offending(files[j], prefix)
    requires forall k :: 0 <= k < j ==> !Offending(files[k], prefix)
    ensures Classify(files, prefix, true) == Failure(BagError(UnexpectedRootFile(files[j])))
  {
    MapFromStrictFirst(NoFiles, files, prefix, j);
  }

  // ---------------------------------------------------------------------
  // The evidently intended classification: one if/elif chain

  /** One iteration with every root-name test chained by elif. */
  function MapStepIntended(m: BagFiles, full: string, prefix: string, strict: bool): Result<BagFiles, Error> {
    var name := RemovePrefix(full, prefix);
    if IsRootName(name) then Success(AssignRoot(m, name, full))
    else if '/' in name then Success(m.(bagSubFileList := m.bagSubFileList + [full]))
    else if strict then Failure(BagError(UnexpectedRootFile(full)))
    else Success(m)
  }

  function MapFromIntended(m: BagFiles, files: seq<string>, prefix: string, strict: bool): Result<BagFiles, Error>
    decreases |files|
  {
    if files == [] then Success(m)
    else match MapStepIntended(m, files[0], prefix, strict)
      case Failure(e) => Failure(e)
      case Success(m') => MapFromIntended(m', files[1..], prefix, strict)
  }

  function ClassifyIntended(files: seq<string>, prefix: string, strict: bool): Result<BagFiles, Error> {
    match MapFromIntended(NoFiles, files, prefix, strict)
    case Failure(e) => Failure(e)
    case Success(m) => if m.bagInfoTxt.None? then Failure(BagError(NoBagInfo)) else Success(m)
  }

  lemma {:induction false} MapFromLenientAgrees(m: BagFiles, files: seq<string>, prefix: string)
    ensures MapFrom(m, files, prefix, false) == MapFromIntended(m, files, prefix, false)
    decreases |files|
  {
    if files != [] {
      var name := RemovePrefix(files[0], prefix);
      if IsRootName(name) {
        RootNamesHaveNoSlash(name);
      }
      assert MapStep(m, files[0], prefix, false) == MapStepIntended(m, files[0], prefix, false);
      MapFromLenientAgrees(MapStep(m, files[0], prefix, false).value, files[1..], prefix);
    }
  }

  /** In the default mode, the one S3BagReader uses, the code as written and the intended code agree. */
  lemma ClassifyLenientAgrees(files: seq<string>, prefix: string)
    ensures Classify(files, prefix, false) == ClassifyIntended(files, prefix, false)
  {
    MapFromLenientAgrees(NoFiles, files, prefix);
  }

  /** A file the intended strict mode accepts: a known root name or a sub-file. */
  predicate Expected(full: string, prefix: string) {
    var name := RemovePrefix(full, prefix);
    IsRootName(name) || '/' in name
  }

  lemma {:induction false} MapFromIntendedStrict(m: BagFiles, files: seq<string>, prefix: string)
    ensures (forall j :: 0 <= j < |files| ==> Expected(files[j], prefix)) ==>
      MapFromIntended(m, files, prefix, true) == MapFromIntended(m, files, prefix, false)
    ensures (exists j :: 0 <= j < |files| && !Expected(files[j], prefix)) ==>
      MapFromIntended(m, files, prefix, true).Failure?
    decreases |files|
  {
    if files != [] {
      var tail := files[1..];
      if Expected(files[0], prefix) {
        var m1 := MapStepIntended(m, files[0], prefix, true).value;
        assert MapStepIntended(m, files[0], prefix, false) == Success(m1);
        MapFromIntendedStrict(m1, tail, prefix);
        assert MapFromIntended(m, files, prefix, true) == MapFromIntended(m1, tail, prefix, true);
        assert MapFromIntended(m, files, prefix, false) == MapFromIntended(m1, tail, prefix, false);
        if forall j :: 0 <= j < |files| ==> Expected(files[j], prefix) {
          forall k | 0 <= k < |tail|
            ensures Expected(tail[k], prefix)
          {
            assert tail[k] == files[k + 1];
          }
        }
        if exists j :: 0 <= j < |files| && !Expected(files[j], prefix) {
          var j :| 0 <= j < |files| && !Expected(files[j], prefix);
          assert j > 0 && tail[j - 1] == files[j];
        }
      } else {
        assert MapStepIntended(m, files[0], prefix, true).Failure?;
      }
    }
  }

  /**
   * The intended strict mode succeeds exactly when bag-info.txt is present and
   * every file is a known root file or a sub-file.
   */
  lemma ClassifyIntendedStrict(files: seq<string>, prefix: string)
    ensures ClassifyIntended(files, prefix, true).Success? <==>
      && (exists j :: 0 <= j < |files| && RemovePrefix(files[j], prefix) == BagInfoTxt)
      && (forall j :: 0 <= j < |files| ==> Expected(files[j], prefix))
  {
    MapFromIntendedStrict(NoFiles, files, prefix);
    ClassifyLenientAgrees(files, prefix);
    ClassifyLenientFails(files, prefix);
  }

  /** The smallest bag: strict mode as written rejects it, the intended strict mode accepts it. */
  lemma StrictModeRejectsBagInfo()
    ensures Classify([BagInfoTxt], "", true) == Failure(BagError(UnexpectedRootFile(BagInfoTxt)))
    ensures ClassifyIntended([BagInfoTxt], "", true).Success?
  {
    var files := [BagInfoTxt];
    assert RemovePrefix(files[0], "") == BagInfoTxt;
    RootNamesHaveNoSlash(BagInfoTxt);
    assert BagInfoTxt != TagmanifestSha256Txt by {
      assert BagInfoTxt[0] == 'b';
    }
    ClassifyStrictFirst(files, "", 0);
    assert IsRootName(BagInfoTxt);
    ClassifyIntendedStrict(files, "");
  }
}
