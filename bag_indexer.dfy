/**
 * da-ayr-bag-indexer/lambda_function.py: turning the unpacker's event into
 * the OpenSearch record of a bag, with ayr_role still None.
 */
module BagIndexer {
  import opened Wrappers
  import opened Text
  import opened Dicts
  import opened Json
  import opened BagFileMapper
  import opened S3BagReader

  const KeyS3Bucket := "s3_bucket"
  const KeyBagName := "bag_name"
  const KeyBagOutputS3Path := "bag_output_s3_path"
  const KeyUnpackedFiles := "unpacked_files"

  /** The keys validate_event requires, in the order it checks them. */
  const EventKeys := [KeyS3Bucket, KeyBagName, KeyBagOutputS3Path, KeyUnpackedFiles]

  /** validate_event: the first required key that is missing is reported. */
  function ValidateEvent(event: Event): (r: Outcome)
    ensures r.Success? <==> forall i :: 0 <= i < |EventKeys| ==> HasKey(event, EventKeys[i])
    ensures r.Failure? ==>
      exists i :: && 0 <= i < |EventKeys|
                  && r.error == IndexerError(EventKeys[i])
                  && !HasKey(event, EventKeys[i])
                  && forall j :: 0 <= j < i ==> HasKey(event, EventKeys[j])
  {
    assert EventKeys[0] == KeyS3Bucket && EventKeys[1] == KeyBagName;
    assert EventKeys[2] == KeyBagOutputS3Path && EventKeys[3] == KeyUnpackedFiles;
    if !HasKey(event, KeyS3Bucket) then Failure(IndexerError(KeyS3Bucket))
    else if !HasKey(event, KeyBagName) then Failure(IndexerError(KeyBagName))
    else if !HasKey(event, KeyBagOutputS3Path) then Failure(IndexerError(KeyBagOutputS3Path))
    else if !HasKey(event, KeyUnpackedFiles) then Failure(IndexerError(KeyUnpackedFiles))
    else Success(())
  }

  /** bag_s3_url: f's3://{s3_bucket}/{bag_output_s3_path}'. */
  function BagS3Url(bucket: string, path: string): (url: string)
    ensures "s3://" <= url
  {
    "s3://" + bucket + "/" + path
  }

  /** The bucket and the path can be read back from the URL when the bucket name has no '/'. */
  lemma BagS3UrlParts(bucket: string, path: string)
    requires '/' !in bucket
    ensures SplitOnce(RemovePrefix(BagS3Url(bucket, path), "s3://"), '/') == [bucket, path]
  {
    var rest := bucket + "/" + path;
    assert BagS3Url(bucket, path) == "s3://" + rest;
    RemovePrefixOfConcat("s3://", rest);
    SplitOnceAt(bucket, '/', path);
  }

  /** path_prefix: the bag's root folder, the bag name without ".tar.gz", under the output path. */
  function PathPrefix(path: string, bagName: string): (p: string)
    ensures |p| >= |path| + 2 && p[..|path| + 1] == path + "/" && p[|p| - 1] == '/'
  {
    path + "/" + RemoveSuffix(bagName, ".tar.gz") + "/"
  }

  /** For a tarball named folder.tar.gz the prefix is path/folder/. */
  lemma PathPrefixOfTarball(path: string, folder: string)
    ensures PathPrefix(path, folder + ".tar.gz") == path + "/" + folder + "/"
  {
    RemoveSuffixOfConcat(folder, ".tar.gz");
  }

  /** A file unpacked under the bag's root folder is classified by its name inside the bag. */
  lemma PathPrefixRemainder(path: string, bagName: string, name: string)
    ensures RemovePrefix(PathPrefix(path, bagName) + name, PathPrefix(path, bagName)) == name
  {
    RemovePrefixOfConcat(PathPrefix(path, bagName), name);
  }

  // ---------------------------------------------------------------------
  // bag_data

  /** A CSV root file's key, when the bag has that file. */
  function Optional(path: Option<string>, name: string): seq<string> {
    if path.Some? then [name] else []
  }

  /** The eight dicts that lambda_handler merges into bag_data. */
  datatype Parts = Parts(
    bagInfo: Dict<Json>, bagit: Dict<Json>, fileAv: Dict<Json>, fileFfid: Dict<Json>,
    fileMetadata: Dict<Json>, manifest: Dict<Json>, tagmanifest: Dict<Json>, subFiles: Dict<Json>)

  /** The parts in the order lambda_handler applies them. */
  function Ordered(p: Parts): (ps: seq<Dict<Json>>)
    ensures |ps| == 8
  {
    [p.bagInfo, p.bagit, p.fileAv, p.fileFfid, p.fileMetadata, p.manifest, p.tagmanifest, p.subFiles]
  }

  /** The keys of each part: its root file's name (a CSV file's only when present), or bag_sub_files. */
  predicate PartKeys(p: Parts, files: BagFiles) {
    && Keys(p.bagInfo) == [BagInfoTxt] && Keys(p.bagit) == [BagitTxt]
    && Keys(p.fileAv) == Optional(files.fileAvCsv, FileAvCsv)
    && Keys(p.fileFfid) == Optional(files.fileFfidCsv, FileFfidCsv)
    && Keys(p.fileMetadata) == Optional(files.fileMetadataCsv, FileMetadataCsv)
    && Keys(p.manifest) == [ManifestSha256Txt] && Keys(p.tagmanifest) == [TagmanifestSha256Txt]
    && Keys(p.subFiles) == [BagSubFiles]
  }

  /** The eight bag.get_*() calls of lambda_handler, in order; the first failure is raised. */
  function BagParts(bag: Reader, csv: CsvReader): (r: Result<Parts, Error>)
    ensures r.Success? ==> PartKeys(r.value, bag.files)
    ensures r.Success? ==> SubFilesDict(bag) == Success(r.value.subFiles)
  {
    var info :- PropertyRootFile(bag, BagInfoTxt, bag.files.bagInfoTxt);
    var bagit :- PropertyRootFile(bag, BagitTxt, bag.files.bagitTxt);
    var av :- CsvRootFile(bag, FileAvCsv, bag.files.fileAvCsv, csv);
    var ffid :- CsvRootFile(bag, FileFfidCsv, bag.files.fileFfidCsv, csv);
    var metadata :- CsvRootFile(bag, FileMetadataCsv, bag.files.fileMetadataCsv, csv);
    var manifest :- ChecksumRootFile(bag, ManifestSha256Txt, bag.files.manifestSha256Txt);
    var tagmanifest :- ChecksumRootFile(bag, TagmanifestSha256Txt, bag.files.tagmanifestSha256Txt);
    var subFiles :- SubFilesDict(bag);
    Success(Parts(info, bagit, av, ffid, metadata, manifest, tagmanifest, subFiles))
  }

  /** bag_data = {} followed by bag_data.update(part) for every part. */
  function BagData(bag: Reader, csv: CsvReader): (r: Result<Dict<Json>, Error>)
    ensures r.Success? <==> BagParts(bag, csv).Success?
    ensures r.Success? ==> Keys(r.value) == ExpectedKeys(bag.files) && UniqueKeys(r.value)
  {
    var parts :- BagParts(bag, csv);
    MergeParts(parts, bag.files);
    Success(UpdateAll([], Ordered(parts)))
  }

  /** The keys bag_data ends up with: every root file, a CSV file only when present, then the sub-files. */
  function ExpectedKeys(files: BagFiles): (ks: seq<string>)
    ensures BagInfoTxt in ks && BagSubFiles in ks
    ensures forall k :: k in ks ==> IsRootName(k) || k == BagSubFiles
    ensures files.fileAvCsv.None? ==> FileAvCsv !in ks
    ensures files.fileFfidCsv.None? ==> FileFfidCsv !in ks
    ensures files.fileMetadataCsv.None? ==> FileMetadataCsv !in ks
  {
    [BagInfoTxt, BagitTxt] + Optional(files.fileAvCsv, FileAvCsv) + Optional(files.fileFfidCsv, FileFfidCsv)
      + Optional(files.fileMetadataCsv, FileMetadataCsv) + [ManifestSha256Txt, TagmanifestSha256Txt, BagSubFiles]
  }

  lemma ExpectedKeysDistinct(files: BagFiles)
    ensures forall i, j :: 0 <= i < j < |ExpectedKeys(files)| ==> ExpectedKeys(files)[i] != ExpectedKeys(files)[j]
  {
  }

  lemma ConcatFrom<V>(parts: seq<Dict<V>>, k: nat)
    requires k < |parts|
    ensures Concat(parts[k..]) == parts[k] + Concat(parts[k + 1..])
  {
    assert parts[k..][1..] == parts[k + 1..];
  }

  /** The eight parts laid end to end. */
  function Merged(p: Parts): Dict<Json> {
    p.bagInfo + p.bagit + p.fileAv + p.fileFfid + p.fileMetadata + p.manifest + p.tagmanifest + p.subFiles
  }

  lemma ConcatEight(p: Parts)
    ensures Concat(Ordered(p)) == Merged(p)
  {
    var ps := Ordered(p);
    assert ps[8..] == [];
    ConcatFrom(ps, 7);
    ConcatFrom(ps, 6);
    ConcatFrom(ps, 5);
    ConcatFrom(ps, 4);
    ConcatFrom(ps, 3);
    ConcatFrom(ps, 2);
    ConcatFrom(ps, 1);
    ConcatFrom(ps, 0);
    assert ps[0..] == ps;
    assert ps[7] + [] == ps[7];
  }

  lemma PartKeysConcat(p: Parts, files: BagFiles)
    requires PartKeys(p, files)
    ensures Keys(Merged(p)) == ExpectedKeys(files)
  {
    var a := p.bagInfo + p.bagit;
    KeysConcat(p.bagInfo, p.bagit);
    KeysConcat(a, p.fileAv);
    a := a + p.fileAv;
    KeysConcat(a, p.fileFfid);
    a := a + p.fileFfid;
    KeysConcat(a, p.fileMetadata);
    a := a + p.fileMetadata;
    KeysConcat(a, p.manifest);
    a := a + p.manifest;
    KeysConcat(a, p.tagmanifest);
    a := a + p.tagmanifest;
    KeysConcat(a, p.subFiles);
  }

  /** Eight parts with the keys BagParts promises: updating with them overwrites nothing. */
  lemma MergeParts(p: Parts, files: BagFiles)
    requires PartKeys(p, files)
    ensures UpdateAll([], Ordered(p)) == Merged(p)
    ensures Keys(Merged(p)) == ExpectedKeys(files)
    ensures UniqueKeys(Merged(p))
  {
    var ps := Ordered(p);
    var all := Merged(p);
    ConcatEight(p);
    PartKeysConcat(p, files);
    ExpectedKeysDistinct(files);
    assert UniqueKeys(all) by {
      assert forall i :: 0 <= i < |all| ==> all[i].0 == ExpectedKeys(files)[i];
    }
    var empty: Dict<Json> := [];
    assert empty + all == all;
    UpdateAllDisjoint(empty, ps);
  }

  /**
   * No update overwrites another: bag_data is the eight parts laid end to
   * end, with exactly the expected keys, none of them twice.
   */
  lemma BagDataMerged(bag: Reader, csv: CsvReader)
    requires BagData(bag, csv).Success?
    ensures BagData(bag, csv).value == Merged(BagParts(bag, csv).value)
    ensures Keys(BagData(bag, csv).value) == ExpectedKeys(bag.files)
    ensures UniqueKeys(BagData(bag, csv).value)
  {
    MergeParts(BagParts(bag, csv).value, bag.files);
  }

  // ---------------------------------------------------------------------
  // The record

  const KeyAyrRole := "ayr_role"
  const KeyBagS3Url := "bag_s3_url"
  const KeyBagData := "bag_data"

  /** opensearch_record: no role yet, the bag's URL and its data. */
  function Record(url: string, bagData: Dict<Json>): (r: Dict<Json>)
    ensures Keys(r) == [KeyAyrRole, KeyBagS3Url, KeyBagData] && UniqueKeys(r)
    ensures Lookup(r, KeyAyrRole) == Some(JNull)
    ensures Lookup(r, KeyBagS3Url) == Some(JStr(url))
    ensures Lookup(r, KeyBagData) == Some(JObj(bagData))
  {
    [(KeyAyrRole, JNull), (KeyBagS3Url, JStr(url)), (KeyBagData, JObj(bagData))]
  }

  /** event[key] used as a str. */
  function EventString(event: Event, key: string): (r: Result<string, Error>)
    ensures r.Success? <==> HasKey(event, key) && Lookup(event, key).value.JStr?
    ensures r.Success? ==> Lookup(event, key) == Some(JStr(r.value))
    ensures r.Failure? ==> r.error == if HasKey(event, key) then TypeError else KeyError(key)
  {
    var j :- At(event, key);
    AsString(j)
  }

  /** event[key] used as a list of str. */
  function EventStrings(event: Event, key: string): (r: Result<seq<string>, Error>)
    ensures r.Success? <==> HasKey(event, key) && Lookup(event, key).value.JArr?
                            && forall k :: 0 <= k < |Lookup(event, key).value.items| ==> Lookup(event, key).value.items[k].JStr?
    ensures r.Success? ==> |r.value| == |Lookup(event, key).value.items|
                           && forall k :: 0 <= k < |r.value| ==> Lookup(event, key).value.items[k] == JStr(r.value[k])
    ensures r.Failure? ==> r.error == if HasKey(event, key) then TypeError else KeyError(key)
  {
    var j :- At(event, key);
    AsStrings(j)
  }

  /** lambda_handler, from the event to the OpenSearch record. */
  function Index(event: Event, store: Store, csv: CsvReader): (r: Result<Dict<Json>, Error>)
    ensures ValidateEvent(event).Failure? ==> r == Failure(ValidateEvent(event).error)
    ensures r.Success? ==> Keys(r.value) == [KeyAyrRole, KeyBagS3Url, KeyBagData]
    ensures r.Success? ==> Lookup(r.value, KeyAyrRole) == Some(JNull)
    ensures r.Success? ==> var bagData := Lookup(r.value, KeyBagData);
      && bagData.Some? && bagData.value.JObj? && UniqueKeys(bagData.value.fields)
      && HasKey(bagData.value.fields, BagInfoTxt) && HasKey(bagData.value.fields, BagSubFiles)
  {
    var _ :- ValidateEvent(event);
    var bucket :- EventString(event, KeyS3Bucket);
    var bagName :- EventString(event, KeyBagName);
    var path :- EventString(event, KeyBagOutputS3Path);
    var files :- EventStrings(event, KeyUnpackedFiles);
    var bag :- OpenReader(bucket, files, PathPrefix(path, bagName), false, store);
    var bagData :- BagData(bag, csv);
    Success(Record(BagS3Url(bucket, path), bagData))
  }

  /** An event that lacks a required key is rejected, naming the first key missing. */
  lemma IndexMissingKey(event: Event, store: Store, csv: CsvReader, i: nat)
    requires i < |EventKeys| && !HasKey(event, EventKeys[i])
    requires forall j :: 0 <= j < i ==> HasKey(event, EventKeys[j])
    ensures Index(event, store, csv) == Failure(IndexerError(EventKeys[i]))
  {
  }

  /**
   * What a successful run returns: the record of the bag the event names,
   * read in default (lenient) mode from the bag's root folder. Its
   * bag_data is described by BagDataMerged.
   */
  lemma IndexRecord(event: Event, store: Store, csv: CsvReader, bucket: string, bagName: string, path: string, files: seq<string>)
    requires EventString(event, KeyS3Bucket) == Success(bucket)
    requires EventString(event, KeyBagName) == Success(bagName)
    requires EventString(event, KeyBagOutputS3Path) == Success(path)
    requires EventStrings(event, KeyUnpackedFiles) == Success(files)
    requires Index(event, store, csv).Success?
    ensures Classify(files, PathPrefix(path, bagName), false).Success?
    ensures var bag := Reader(bucket, Classify(files, PathPrefix(path, bagName), false).value, false, store);
      && BagData(bag, csv).Success?
      && Index(event, store, csv).value == Record(BagS3Url(bucket, path), BagData(bag, csv).value)
  {
  }

  method LambdaHandler(event: Event, store: Store, csv: CsvReader) returns (r: Result<Dict<Json>, Error>)
    ensures r == Index(event, store, csv)
  {
    var valid := ValidateEvent(event);
    if valid.Failure? {
      return Failure(valid.error);
    }
    var s3Bucket := EventString(event, KeyS3Bucket);
    if s3Bucket.Failure? {
      return Failure(s3Bucket.error);
    }
    var bagName := EventString(event, KeyBagName);
    if bagName.Failure? {
      return Failure(bagName.error);
    }
    var bagOutputS3Path := EventString(event, KeyBagOutputS3Path);
    if bagOutputS3Path.Failure? {
      return Failure(bagOutputS3Path.error);
    }
    var unpackedFileList := EventStrings(event, KeyUnpackedFiles);
    if unpackedFileList.Failure? {
      return Failure(unpackedFileList.error);
    }
    var bagS3Url := BagS3Url(s3Bucket.value, bagOutputS3Path.value);
    var pathPrefix := PathPrefix(bagOutputS3Path.value, bagName.value);
    var reader := NewS3BagReader(s3Bucket.value, unpackedFileList.value, pathPrefix, false, store);
    if reader.Failure? {
      return Failure(reader.error);
    }
    var bag := reader.value;
    var bagData: Dict<Json> := [];
    var info := GetPropertyRootFile(bag, BagInfoTxt, bag.files.bagInfoTxt);
    if info.Failure? {
      return Failure(info.error);
    }
    bagData := Update(bagData, info.value);
    var bagit := GetPropertyRootFile(bag, BagitTxt, bag.files.bagitTxt);
    if bagit.Failure? {
      return Failure(bagit.error);
    }
    bagData := Update(bagData, bagit.value);
    var av := GetCsvRootFile(bag, FileAvCsv, bag.files.fileAvCsv, csv);
    if av.Failure? {
      return Failure(av.error);
    }
    bagData := Update(bagData, av.value);
    var ffid := GetCsvRootFile(bag, FileFfidCsv, bag.files.fileFfidCsv, csv);
    if ffid.Failure? {
      return Failure(ffid.error);
    }
    bagData := Update(bagData, ffid.value);
    var metadata := GetCsvRootFile(bag, FileMetadataCsv, bag.files.fileMetadataCsv, csv);
    if metadata.Failure? {
      return Failure(metadata.error);
    }
    bagData := Update(bagData, metadata.value);
    var manifest := GetChecksumRootFile(bag, ManifestSha256Txt, bag.files.manifestSha256Txt);
    if manifest.Failure? {
      return Failure(manifest.error);
    }
    bagData := Update(bagData, manifest.value);
    var tagmanifest := GetChecksumRootFile(bag, TagmanifestSha256Txt, bag.files.tagmanifestSha256Txt);
    if tagmanifest.Failure? {
      return Failure(tagmanifest.error);
    }
    bagData := Update(bagData, tagmanifest.value);
    var subFiles := GetSubFilesDict(bag);
    if subFiles.Failure? {
      return Failure(subFiles.error);
    }
    bagData := Update(bagData, subFiles.value);
    var parts := Parts(info.value, bagit.value, av.value, ffid.value, metadata.value,
                       manifest.value, tagmanifest.value, subFiles.value);
    assert BagParts(bag, csv) == Success(parts);
    UpdateAllEight(parts);
    r := Success(Record(bagS3Url, bagData));
  }

  /** UpdateAll over the eight parts is the eight bag_data.update calls. */
  lemma UpdateAllEight(p: Parts)
    ensures UpdateAll([], Ordered(p))
         == Update(Update(Update(Update(Update(Update(Update(Update([],
              p.bagInfo), p.bagit), p.fileAv), p.fileFfid), p.fileMetadata), p.manifest), p.tagmanifest), p.subFiles)
  {
    var ps := Ordered(p);
    assert ps[0..] == ps;
    var d: Dict<Json> := [];
    UpdateAllFrom(d, ps, 0);
    d := Update(d, ps[0]);
    UpdateAllFrom(d, ps, 1);
    d := Update(d, ps[1]);
    UpdateAllFrom(d, ps, 2);
    d := Update(d, ps[2]);
    UpdateAllFrom(d, ps, 3);
    d := Update(d, ps[3]);
    UpdateAllFrom(d, ps, 4);
    d := Update(d, ps[4]);
    UpdateAllFrom(d, ps, 5);
    d := Update(d, ps[5]);
    UpdateAllFrom(d, ps, 6);
    d := Update(d, ps[6]);
    UpdateAllFrom(d, ps, 7);
    d := Update(d, ps[7]);
    assert ps[8..] == [];
  }

  lemma UpdateAllFrom<V>(d: Dict<V>, ps: seq<Dict<V>>, k: nat)
    requires k < |ps|
    ensures UpdateAll(d, ps[k..]) == UpdateAll(Update(d, ps[k]), ps[k + 1..])
  {
    assert ps[k..][1..] == ps[k + 1..];
  }
}
