/**
 * lib/s3_bag_reader.py, class S3BagReader: reading the root files and the
 * text sub-files of an unpacked bag back from object storage and decoding
 * them into dictionaries and lists.
 */
module S3BagReader {
  import opened Wrappers
  import opened Text
  import opened Dicts
  import opened Json
  import opened BagFileMapper

  /** The object store as the reader sees it: (bucket, key) to the object's text. */
  type Store = map<(string, string), string>

  /**
   * get_object(Bucket=bucket, Key=key) followed by reading and decoding the
   * body: Key=None is refused before any request, an absent object fails.
   */
  function GetObject(store: Store, bucket: string, key: Option<string>): (r: Result<string, Error>)
    ensures key.None? ==> r == Failure(ParamValidationError)
    ensures key.Some? ==> (r.Success? <==> (bucket, key.value) in store)
    ensures key.Some? && r.Failure? ==> r.error == NoSuchKey(bucket, key.value)
    ensures r.Success? ==> key.Some? && r.value == store[(bucket, key.value)]
  {
    match key
    case None => Failure(ParamValidationError)
    case Some(k) => if (bucket, k) in store then Success(store[(bucket, k)]) else Failure(NoSuchKey(bucket, k))
  }

  // ---------------------------------------------------------------------
  // Property files (bag-info.txt, bagit.txt)

  /** One line of a property file: the stripped text before and after its first ':'. */
  function PropertyLine(line: string): (r: Result<(string, string), Error>)
    ensures r.Failure? <==> ':' !in line
    ensures r.Failure? ==> r.error == IndexError
    ensures r.Success? ==> ':' !in r.value.0 && IsStripped(r.value.0) && IsStripped(r.value.1)
  {
    StripKeeps(line, ':');
    var items := SplitOnce(Strip(line), ':');
    if |items| < 2 then Failure(IndexError)
    else
      StripKeeps(items[0], ':');
      Success((Strip(items[0]), Strip(items[1])))
  }

  /** What PropertyLine computes from the pieces of the stripped line. */
  lemma PropertyLineItems(line: string)
    ensures var items := SplitOnce(Strip(line), ':');
      PropertyLine(line) == if |items| < 2 then Failure(IndexError) else Success((Strip(items[0]), Strip(items[1])))
  {
  }

  /** get_property_file_as_dict on the decoded body of an object: output[key] = value, line by line. */
  function PropertyFile(body: string): (r: Result<Dict<string>, Error>)
    ensures r.Failure? ==> r.error == IndexError
    ensures r.Success? ==> UniqueKeys(r.value)
  {
    PutParsedUpdate(PropertyLine, [], SplitLines(body));
    PutParsedUnique(PropertyLine, [], SplitLines(body));
    PutParsed(PropertyLine, [], SplitLines(body))
  }

  method GetPropertyFileAsDict(body: string) returns (r: Result<Dict<string>, Error>)
    ensures r == PropertyFile(body)
  {
    var output: Dict<string> := [];
    var lines := SplitLines(body);
    var i := 0;
    while i < |lines|
      invariant 0 <= i <= |lines|
      invariant PropertyFile(body) == PutParsed(PropertyLine, output, lines[i..])
    {
      var lineItems := SplitOnce(Strip(lines[i]), ':');
      PropertyLineItems(lines[i]);
      PutParsedStep(PropertyLine, output, lines[i..]);
      if |lineItems| < 2 {
        return Failure(IndexError);
      }
      assert lines[i..][1..] == lines[i + 1..];
      output := Put(output, Strip(lineItems[0]), Strip(lineItems[1]));
      i := i + 1;
    }
    return Success(output);
  }

  /**
   * A property file decodes exactly when every line has a ':', and then into
   * the dict that assigning each line's pair in turn builds: no key twice, a
   * repeated key in its first position with its last value.
   */
  lemma PropertyFileResult(body: string)
    ensures PropertyFile(body).Success?
        <==> forall k :: 0 <= k < |SplitLines(body)| ==> ':' in SplitLines(body)[k]
    ensures PropertyFile(body).Failure? ==> PropertyFile(body).error == IndexError
    ensures PropertyFile(body).Success? ==>
      && PropertyFile(body).value == Update([], ParseAll(PropertyLine, SplitLines(body)).value)
      && UniqueKeys(PropertyFile(body).value)
  {
    PutParsedUpdate(PropertyLine, [], SplitLines(body));
    PutParsedUnique(PropertyLine, [], SplitLines(body));
  }

  /** A pair a property file can carry: a stripped key without ':', a non-empty stripped value, no line break. */
  predicate IsPropertyPair(p: (string, string)) {
    && IsStripped(p.0) && ':' !in p.0 && '\n' !in p.0
    && p.1 != [] && IsStripped(p.1) && '\n' !in p.1
  }

  /** The line "key: value" that bag-info.txt and bagit.txt hold. */
  function FormatProperty(p: (string, string)): string {
    p.0 + ": " + p.1
  }

  lemma PropertyLineFormat(p: (string, string))
    requires IsPropertyPair(p)
    ensures PropertyLine(FormatProperty(p)) == Success(p)
  {
    assert Strip(" " + p.1) == p.1 by {
      assert AllSpace(" ");
      StripAfterSpace(" ", p.1);
    }
    StripStripped(p.0);
    FormatPropertyStripped(p.0, p.1);
    FormatPropertySplit(p.0, p.1);
    PropertyLineOfParts(FormatProperty(p), p.0, " " + p.1, p.1);
  }

  lemma PropertyLineOfParts(s: string, a: string, b: string, v: string)
    requires Strip(s) == s && SplitOnce(s, ':') == [a, b] && Strip(a) == a && Strip(b) == v
    ensures PropertyLine(s) == Success((a, v))
  {
    PropertyLineItems(s);
  }

  lemma FormatPropertyStripped(k: string, v: string)
    requires IsStripped(k) && IsStripped(v) && v != []
    ensures Strip(k + ": " + v) == k + ": " + v
  {
    var s := k + ": " + v;
    assert s[|s| - 1] == v[|v| - 1];
    assert s[0] == if k == [] then ':' else k[0];
    StripStripped(s);
  }

  lemma FormatPropertySplit(k: string, v: string)
    requires ':' !in k
    ensures SplitOnce(k + ": " + v, ':') == [k, " " + v]
  {
    var s := k + ": " + v;
    assert s == k + [':'] + (" " + v);
    IndexOfSeparator(k, ':', " " + v);
    assert s[..|k|] == k;
    assert s[|k| + 1..] == " " + v;
  }

  function FormatProperties(ps: seq<(string, string)>): (lines: seq<string>)
    ensures |lines| == |ps|
  {
    seq(|ps|, k requires 0 <= k < |ps| => FormatProperty(ps[k]))
  }

  /** Writing pairs with distinct keys as "key: value" lines and reading them back gives the same pairs. */
  lemma PropertyFileRoundTrip(ps: seq<(string, string)>)
    requires |ps| >= 1 && UniqueKeys(ps)
    requires forall k :: 0 <= k < |ps| ==> IsPropertyPair(ps[k])
    ensures PropertyFile(Join(FormatProperties(ps), '\n')) == Success(ps)
  {
    FormatPropertiesLines(ps);
    FormatPropertiesParse(ps);
    PutParsedDistinct(PropertyLine, FormatProperties(ps), ps);
  }

  lemma FormatPropertiesLines(ps: seq<(string, string)>)
    requires |ps| >= 1
    requires forall k :: 0 <= k < |ps| ==> IsPropertyPair(ps[k])
    ensures SplitLines(Join(FormatProperties(ps), '\n')) == FormatProperties(ps)
  {
    var lines := FormatProperties(ps);
    forall k | 0 <= k < |lines|
      ensures '\n' !in lines[k]
    {
      assert lines[k] == ps[k].0 + ": " + ps[k].1;
    }
    assert lines[|lines| - 1] != [];
    SplitLinesJoin(lines);
  }

  lemma FormatPropertiesParse(ps: seq<(string, string)>)
    requires forall k :: 0 <= k < |ps| ==> IsPropertyPair(ps[k])
    ensures ParseAll(PropertyLine, FormatProperties(ps)) == Success(ps)
  {
    var lines := FormatProperties(ps);
    forall k | 0 <= k < |lines|
      ensures PropertyLine(lines[k]) == Success(ps[k])
    {
      PropertyLineFormat(ps[k]);
    }
    ParseAllPointwise(PropertyLine, lines, ps);
  }

  /** An empty file decodes to an empty map. */
  lemma PropertyFileEmpty()
    ensures PropertyFile("") == Success([])
  {
  }

  /** "A: 1\nB: 2" decodes to {A: 1, B: 2}. */
  lemma PropertyFileTwoLines()
    ensures PropertyFile("A: 1\nB: 2") == Success([("A", "1"), ("B", "2")])
  {
    var ps := [("A", "1"), ("B", "2")];
    assert IsPropertyPair(ps[0]) && IsPropertyPair(ps[1]) by {
      assert IsStripped("A") && IsStripped("1") && IsStripped("B") && IsStripped("2");
    }
    assert UniqueKeys(ps) by {
      assert Keys(ps) == ["A", "B"];
    }
    var lines := FormatProperties(ps);
    assert lines == ["A: 1", "B: 2"] by {
      assert |lines| == 2 && lines[0] == FormatProperty(ps[0]) && lines[1] == FormatProperty(ps[1]);
      assert FormatProperty(ps[0]) == "A" + ": " + "1" == "A: 1";
      assert FormatProperty(ps[1]) == "B" + ": " + "2" == "B: 2";
    }
    assert Join(lines, '\n') == "A: 1\nB: 2" by {
      assert Join(lines, '\n') == "A: 1" + ['\n'] + Join(["B: 2"], '\n');
    }
    PropertyFileRoundTrip(ps);
  }

  /** A blank line between two properties makes the decode fail. */
  lemma PropertyFileBlankLine()
    ensures PropertyFile("A: 1\n\nB: 2") == Failure(IndexError)
  {
    var lines := ["A: 1", "", "B: 2"];
    assert Join(lines, '\n') == "A: 1\n\nB: 2" by {
      assert Join(lines, '\n') == "A: 1" + ['\n'] + Join(lines[1..], '\n');
      assert Join(lines[1..], '\n') == "" + ['\n'] + Join(["B: 2"], '\n');
    }
    SplitJoin(lines, '\n');
    assert SplitLines("A: 1\n\nB: 2") == lines;
    PropertyFileResult("A: 1\n\nB: 2");
    assert ':' !in SplitLines("A: 1\n\nB: 2")[1];
  }

  // ---------------------------------------------------------------------
  // Checksum files (manifest-sha256.txt, tagmanifest-sha256.txt)

  /** One entry of a checksum file. */
  datatype ChecksumEntry = ChecksumEntry(objectPath: string, checksum: string)

  /**
   * One line of a checksum file: tabs become spaces, the checksum is the text
   * before the first space, the object the stripped rest.
   */
  function ChecksumLine(line: string): (r: Result<ChecksumEntry, Error>)
    ensures r.Failure? <==> ' ' !in Strip(line) && '\t' !in Strip(line)
    ensures r.Failure? ==> r.error == IndexError
  {
    ReplaceCharHas(Strip(line), '\t', ' ');
    var items := SplitOnce(ReplaceChar(Strip(line), '\t', ' '), ' ');
    if |items| < 2 then Failure(IndexError)
    else Success(ChecksumEntry(Strip(items[1]), Strip(items[0])))
  }

  /** What ChecksumLine computes from the pieces of the stripped line. */
  lemma ChecksumLineItems(line: string)
    ensures var items := SplitOnce(ReplaceChar(Strip(line), '\t', ' '), ' ');
      ChecksumLine(line) == if |items| < 2 then Failure(IndexError) else Success(ChecksumEntry(Strip(items[1]), Strip(items[0])))
  {
  }

  /** get_checksum_file_as_list on the decoded body of an object: one entry per line, in order. */
  function ChecksumFile(body: string): (r: Result<seq<ChecksumEntry>, Error>)
    ensures r.Failure? ==> r.error == IndexError
    ensures r.Success? ==> |r.value| == |SplitLines(body)|
  {
    AppendParsedAll(ChecksumLine, [], SplitLines(body));
    AppendParsed(ChecksumLine, [], SplitLines(body))
  }

  method GetChecksumFileAsList(body: string) returns (r: Result<seq<ChecksumEntry>, Error>)
    ensures r == ChecksumFile(body)
  {
    var output: seq<ChecksumEntry> := [];
    var lines := SplitLines(body);
    var i := 0;
    while i < |lines|
      invariant 0 <= i <= |lines|
      invariant ChecksumFile(body) == AppendParsed(ChecksumLine, output, lines[i..])
    {
      var lineItems := SplitOnce(ReplaceChar(Strip(lines[i]), '\t', ' '), ' ');
      ChecksumLineItems(lines[i]);
      AppendParsedStep(ChecksumLine, output, lines[i..]);
      if |lineItems| < 2 {
        return Failure(IndexError);
      }
      assert lines[i..][1..] == lines[i + 1..];
      output := output + [ChecksumEntry(Strip(lineItems[1]), Strip(lineItems[0]))];
      i := i + 1;
    }
    return Success(output);
  }

  /**
   * A checksum file decodes exactly when every stripped line has a space or a
   * tab, and then holds one entry per line, in order.
   */
  lemma ChecksumFileResult(body: string)
    ensures ChecksumFile(body).Success?
        <==> forall k :: 0 <= k < |SplitLines(body)| ==> ChecksumLine(SplitLines(body)[k]).Success?
    ensures ChecksumFile(body).Failure? ==> ChecksumFile(body).error == IndexError
    ensures ChecksumFile(body).Success? ==>
      && |ChecksumFile(body).value| == |SplitLines(body)|
      && forall k :: 0 <= k < |SplitLines(body)| ==>
           ChecksumFile(body).value[k] == ChecksumLine(SplitLines(body)[k]).value
  {
    AppendParsedAll(ChecksumLine, [], SplitLines(body));
  }

  /** A checksum: non-empty, without whitespace (a hex digest). */
  predicate IsChecksum(c: string) {
    c != [] && forall k :: 0 <= k < |c| ==> !IsSpace(c[k])
  }

  /** An object path a checksum line can carry unchanged: non-empty, stripped, no tab, no line break. */
  predicate IsObjectPath(o: string) {
    o != [] && IsStripped(o) && '\t' !in o && '\n' !in o
  }

  predicate IsEntry(e: ChecksumEntry) {
    IsChecksum(e.checksum) && IsObjectPath(e.objectPath)
  }

  function Spaces(n: nat): (w: string)
    ensures |w| == n && forall k :: 0 <= k < n ==> w[k] == ' '
  {
    seq(n, k => ' ')
  }

  /** The line "checksum<spaces>object" of a BagIt manifest. */
  function FormatChecksum(e: ChecksumEntry, n: nat): string {
    e.checksum + Spaces(n) + e.objectPath
  }

  lemma ChecksumLineFormat(e: ChecksumEntry, n: nat)
    requires IsEntry(e) && n >= 1
    ensures ChecksumLine(FormatChecksum(e, n)) == Success(e)
  {
    var w := Spaces(n);
    assert Strip(w[1..] + e.objectPath) == e.objectPath by {
      assert AllSpace(w[1..]);
      StripAfterSpace(w[1..], e.objectPath);
    }
    ChecksumStripped(e.checksum);
    FormatChecksumStripped(e, n);
    FormatChecksumNoTab(e, n);
    FormatChecksumSplit(e, n);
    ChecksumLineOfParts(FormatChecksum(e, n), e.checksum, w[1..] + e.objectPath, e.objectPath);
  }

  lemma ChecksumLineOfParts(s: string, c: string, rest: string, o: string)
    requires Strip(s) == s && ReplaceChar(s, '\t', ' ') == s
    requires SplitOnce(s, ' ') == [c, rest] && Strip(c) == c && Strip(rest) == o
    ensures ChecksumLine(s) == Success(ChecksumEntry(o, c))
  {
    ChecksumLineItems(s);
  }

  lemma ChecksumStripped(c: string)
    requires IsChecksum(c)
    ensures Strip(c) == c
  {
    assert !IsSpace(c[0]) && !IsSpace(c[|c| - 1]);
    StripStripped(c);
  }

  lemma FormatChecksumStripped(e: ChecksumEntry, n: nat)
    requires IsEntry(e)
    ensures Strip(FormatChecksum(e, n)) == FormatChecksum(e, n)
  {
    var s := FormatChecksum(e, n);
    assert s[0] == e.checksum[0];
    assert s[|s| - 1] == e.objectPath[|e.objectPath| - 1];
    StripStripped(s);
  }

  lemma FormatChecksumNoTab(e: ChecksumEntry, n: nat)
    requires IsEntry(e)
    ensures ReplaceChar(FormatChecksum(e, n), '\t', ' ') == FormatChecksum(e, n)
  {
    var s := FormatChecksum(e, n);
    forall k | 0 <= k < |s|
      ensures s[k] != '\t'
    {
      if k < |e.checksum| {
        assert s[k] == e.checksum[k];
      } else if k < |e.checksum| + n {
        assert s[k] == ' ';
      } else {
        assert s[k] == e.objectPath[k - |e.checksum| - n];
      }
    }
    ReplaceCharAbsent(s, '\t', ' ');
  }

  lemma FormatChecksumSplit(e: ChecksumEntry, n: nat)
    requires IsEntry(e) && n >= 1
    ensures SplitOnce(FormatChecksum(e, n), ' ') == [e.checksum, Spaces(n)[1..] + e.objectPath]
  {
    var c, w, o := e.checksum, Spaces(n), e.objectPath;
    var s := FormatChecksum(e, n);
    assert ' ' !in c by {
      assert forall k :: 0 <= k < |c| ==> c[k] != ' ';
    }
    assert s == c + [' '] + (w[1..] + o) by {
      assert w == [' '] + w[1..];
    }
    IndexOfSeparator(c, ' ', w[1..] + o);
    assert s[..|c|] == c;
    assert s[|c| + 1..] == w[1..] + o;
  }

  function FormatChecksums(es: seq<ChecksumEntry>, n: nat): (lines: seq<string>)
    ensures |lines| == |es|
  {
    seq(|es|, k requires 0 <= k < |es| => FormatChecksum(es[k], n))
  }

  /** A manifest written one entry per line reads back as the same entries, in order. */
  lemma ChecksumFileRoundTrip(es: seq<ChecksumEntry>, n: nat)
    requires |es| >= 1 && n >= 1
    requires forall k :: 0 <= k < |es| ==> IsEntry(es[k])
    ensures ChecksumFile(Join(FormatChecksums(es, n), '\n')) == Success(es)
  {
    FormatChecksumsLines(es, n);
    FormatChecksumsParse(es, n);
    AppendParsedOfParsed(ChecksumLine, FormatChecksums(es, n), es);
  }

  lemma FormatChecksumsLines(es: seq<ChecksumEntry>, n: nat)
    requires |es| >= 1
    requires forall k :: 0 <= k < |es| ==> IsEntry(es[k])
    ensures SplitLines(Join(FormatChecksums(es, n), '\n')) == FormatChecksums(es, n)
  {
    var lines := FormatChecksums(es, n);
    forall k | 0 <= k < |lines|
      ensures '\n' !in lines[k]
    {
      FormatChecksumNoBreak(es[k], n);
    }
    assert lines[|lines| - 1] != [];
    SplitLinesJoin(lines);
  }

  lemma FormatChecksumsParse(es: seq<ChecksumEntry>, n: nat)
    requires n >= 1
    requires forall k :: 0 <= k < |es| ==> IsEntry(es[k])
    ensures ParseAll(ChecksumLine, FormatChecksums(es, n)) == Success(es)
  {
    var lines := FormatChecksums(es, n);
    forall k | 0 <= k < |lines|
      ensures ChecksumLine(lines[k]) == Success(es[k])
    {
      ChecksumLineFormat(es[k], n);
    }
    ParseAllPointwise(ChecksumLine, lines, es);
  }

  lemma FormatChecksumNoBreak(e: ChecksumEntry, n: nat)
    requires IsEntry(e)
    ensures '\n' !in FormatChecksum(e, n)
  {
    assert IsSpace('\n');
    assert '\n' !in e.checksum;
  }

  // ---------------------------------------------------------------------
  // CSV files (file-av.csv, file-ffid.csv, file-metadata.csv)

  /** A csv.DictReader row; a cell is None where the row is shorter than the header. */
  type Row = Dict<Option<string>>

  /** csv.DictReader over the lines of a file. */
  type CsvReader = seq<string> -> seq<Row>

  /** An empty cell becomes None (null in the OpenSearch record); any other cell stays. */
  function NullIfEmpty(c: Option<string>): Option<string> {
    if c == Some("") then None else c
  }

  /** The row with every empty cell set to None. */
  function NullEmpty(row: Row): (r: Row)
    ensures |r| == |row| && Keys(r) == Keys(row)
  {
    seq(|row|, j requires 0 <= j < |row| => (row[j].0, NullIfEmpty(row[j].1)))
  }

  /** After NullEmpty no cell is empty, and every other cell is as it was. */
  lemma NullEmptyCells(row: Row)
    ensures forall j :: 0 <= j < |row| ==> NullEmpty(row)[j].1 != Some("")
    ensures forall j :: 0 <= j < |row| && row[j].1 != Some("") ==> NullEmpty(row)[j] == row[j]
  {
  }

  lemma NullEmptyIdempotent(row: Row)
    ensures NullEmpty(NullEmpty(row)) == NullEmpty(row)
  {
  }

  /** Looked up by column name, a cell reads None exactly where it was empty or missing. */
  lemma {:induction false} NullEmptyLookup(row: Row, k: string)
    ensures Lookup(NullEmpty(row), k)
         == if Lookup(row, k).None? then None else Some(NullIfEmpty(Lookup(row, k).value))
  {
    if row != [] {
      NullEmptyLookup(row[1..], k);
      assert NullEmpty(row)[1..] == NullEmpty(row[1..]);
    }
  }

  function CsvFile(body: string, reader: CsvReader): (rows: seq<Row>)
    ensures |rows| == |reader(SplitLines(body))|
    ensures forall i :: 0 <= i < |rows| ==> rows[i] == NullEmpty(reader(SplitLines(body))[i])
    ensures forall i :: 0 <= i < |rows| ==> Keys(rows[i]) == Keys(reader(SplitLines(body))[i])
    ensures forall i, j :: 0 <= i < |rows| && 0 <= j < |rows[i]| ==> rows[i][j].1 != Some("")
  {
    var lines := reader(SplitLines(body));
    seq(|lines|, i requires 0 <= i < |lines| => NullEmpty(lines[i]))
  }

  method GetCsvFileAsList(body: string, reader: CsvReader) returns (output: seq<Row>)
    ensures output == CsvFile(body, reader)
  {
    var csvReader := reader(SplitLines(body));
    output := [];
    var i := 0;
    while i < |csvReader|
      invariant 0 <= i <= |csvReader|
      invariant |output| == i
      invariant forall k :: 0 <= k < i ==> output[k] == NullEmpty(csvReader[k])
    {
      var line := csvReader[i];
      var j := 0;
      while j < |line|
        invariant 0 <= j <= |line| == |csvReader[i]|
        invariant forall m :: 0 <= m < |line| ==>
          line[m] == if m < j then NullEmpty(csvReader[i])[m] else csvReader[i][m]
      {
        if line[j].1 == Some("") {
          line := line[j := (line[j].0, None)];
        }
        j := j + 1;
      }
      output := output + [line];
      i := i + 1;
    }
  }

  // ---------------------------------------------------------------------
  // Sub-files

  /** The sub-files whose text is read: names ending in .txt or .csv. */
  predicate IsTextFile(path: string) {
    LastChars(path, 4) == ".txt" || LastChars(path, 4) == ".csv"
  }

  function TextFiles(paths: seq<string>): (r: seq<string>)
    ensures forall x :: x in r <==> x in paths && IsTextFile(x)
  {
    if paths == [] then []
    else (if IsTextFile(paths[0]) then [paths[0]] else []) + TextFiles(paths[1..])
  }

  /** The key get_sub_files_dict returns its list under. */
  const BagSubFiles := "bag_sub_files"

  /** One entry of bag_sub_files: the object's key and its text. */
  datatype SubFile = SubFile(objectPath: string, data: string)

  /** The loop of get_sub_files_dict over the remaining sub-files. */
  function SubFilesFrom(store: Store, bucket: string, acc: seq<SubFile>, paths: seq<string>): (r: Result<seq<SubFile>, Error>)
    ensures r.Success? ==> acc <= r.value && |r.value| == |acc| + |TextFiles(paths)|
    ensures r.Failure? ==> r.error.NoSuchKey? && r.error.bucket == bucket
    decreases |paths|
  {
    if paths == [] then Success(acc)
    else if !IsTextFile(paths[0]) then SubFilesFrom(store, bucket, acc, paths[1..])
    else match GetObject(store, bucket, Some(paths[0]))
      case Failure(e) => Failure(e)
      case Success(data) => SubFilesFrom(store, bucket, acc + [SubFile(paths[0], data)], paths[1..])
  }

  /** The entries read for some text files: each path with its object's text. */
  ghost predicate ReadAll(store: Store, bucket: string, ts: seq<string>, fs: seq<SubFile>) {
    && |fs| == |ts|
    && forall k :: 0 <= k < |ts| ==> (bucket, ts[k]) in store && fs[k] == SubFile(ts[k], store[(bucket, ts[k])])
  }

  /** Reading sub-files succeeds exactly when every text sub-file is in the store. */
  lemma {:induction false} SubFilesFromSuccess(store: Store, bucket: string, acc: seq<SubFile>, paths: seq<string>)
    ensures SubFilesFrom(store, bucket, acc, paths).Success?
        <==> forall p :: p in TextFiles(paths) ==> (bucket, p) in store
    decreases |paths|
  {
    if paths != [] {
      var tail := paths[1..];
      assert TextFiles(paths) == (if IsTextFile(paths[0]) then [paths[0]] else []) + TextFiles(tail);
      if !IsTextFile(paths[0]) {
        SubFilesFromSuccess(store, bucket, acc, tail);
      } else if (bucket, paths[0]) in store {
        SubFilesFromSuccess(store, bucket, acc + [SubFile(paths[0], store[(bucket, paths[0])])], tail);
      }
    }
  }

  /** A failed read names a text sub-file that is missing from the store. */
  lemma {:induction false} SubFilesFromFailure(store: Store, bucket: string, acc: seq<SubFile>, paths: seq<string>)
    requires SubFilesFrom(store, bucket, acc, paths).Failure?
    ensures exists p :: && p in TextFiles(paths) && (bucket, p) !in store
                        && SubFilesFrom(store, bucket, acc, paths).error == NoSuchKey(bucket, p)
    decreases |paths|
  {
    var tail := paths[1..];
    assert TextFiles(paths) == (if IsTextFile(paths[0]) then [paths[0]] else []) + TextFiles(tail);
    if !IsTextFile(paths[0]) {
      SubFilesFromFailure(store, bucket, acc, tail);
    } else if (bucket, paths[0]) in store {
      SubFilesFromFailure(store, bucket, acc + [SubFile(paths[0], store[(bucket, paths[0])])], tail);
    } else {
      assert paths[0] in TextFiles(paths);
    }
  }

  /** A successful read keeps what was collected and adds each text sub-file with its text. */
  lemma {:induction false} SubFilesFromContent(store: Store, bucket: string, acc: seq<SubFile>, paths: seq<string>)
    requires SubFilesFrom(store, bucket, acc, paths).Success?
    ensures var r := SubFilesFrom(store, bucket, acc, paths).value;
      |acc| <= |r| && r[..|acc|] == acc && ReadAll(store, bucket, TextFiles(paths), r[|acc|..])
    decreases |paths|
  {
    var r := SubFilesFrom(store, bucket, acc, paths).value;
    if paths == [] {
      assert r == acc;
    } else {
      var tail := paths[1..];
      if !IsTextFile(paths[0]) {
        SubFilesFromContent(store, bucket, acc, tail);
        assert TextFiles(paths) == TextFiles(tail);
      } else {
        var f := SubFile(paths[0], store[(bucket, paths[0])]);
        var acc' := acc + [f];
        assert r == SubFilesFrom(store, bucket, acc', tail).value;
        SubFilesFromContent(store, bucket, acc', tail);
        assert TextFiles(paths) == [paths[0]] + TextFiles(tail);
        ExtendedPrefix(r, acc, f);
        ReadAllCons(store, bucket, paths[0], TextFiles(tail), r[|acc'|..]);
      }
    }
  }

  lemma ExtendedPrefix<T>(r: seq<T>, acc: seq<T>, x: T)
    requires |acc| + 1 <= |r| && r[..|acc| + 1] == acc + [x]
    ensures r[..|acc|] == acc && r[|acc|..] == [x] + r[|acc| + 1..]
  {
    assert r[..|acc|] == r[..|acc| + 1][..|acc|];
    assert r[|acc|] == (acc + [x])[|acc|];
  }

  lemma ReadAllCons(store: Store, bucket: string, t: string, ts: seq<string>, fs: seq<SubFile>)
    requires (bucket, t) in store && ReadAll(store, bucket, ts, fs)
    ensures ReadAll(store, bucket, [t] + ts, [SubFile(t, store[(bucket, t)])] + fs)
  {
    var ts', fs' := [t] + ts, [SubFile(t, store[(bucket, t)])] + fs;
    forall k | 1 <= k < |ts'|
      ensures ts'[k] == ts[k - 1] && fs'[k] == fs[k - 1]
    {
    }
  }

  function SubFilesJson(fs: seq<SubFile>): (r: Json)
    ensures r.JArr? && |r.items| == |fs|
    ensures forall k :: 0 <= k < |fs| ==>
      r.items[k] == JObj([("object", JStr(fs[k].objectPath)), ("data", JStr(fs[k].data))])
  {
    JArr(seq(|fs|, k requires 0 <= k < |fs| => JObj([("object", JStr(fs[k].objectPath)), ("data", JStr(fs[k].data))])))
  }

  // ---------------------------------------------------------------------
  // The reader

  /** An S3BagReader: the bucket, the classified files, the strict flag it keeps, and its store. */
  datatype Reader = Reader(bucket: string, files: BagFiles, onlyExpectedRootFiles: bool, store: Store)

  /** S3BagReader(...): classifies the files; the strict flag is kept but not passed on. */
  function OpenReader(bucket: string, fileList: seq<string>, pathPrefix: string, onlyExpectedRootFiles: bool, store: Store)
    : (r: Result<Reader, Error>)
    ensures r.Success? <==> Classify(fileList, pathPrefix, false).Success?
    ensures r.Success? ==> r.value.files == Classify(fileList, pathPrefix, false).value
  {
    var m :- Classify(fileList, pathPrefix, false);
    Success(Reader(bucket, m, onlyExpectedRootFiles, store))
  }

  method NewS3BagReader(bucket: string, fileList: seq<string>, pathPrefix: string, onlyExpectedRootFiles: bool, store: Store)
    returns (r: Result<Reader, Error>)
    ensures r == OpenReader(bucket, fileList, pathPrefix, onlyExpectedRootFiles, store)
  {
    var m := MapBagFiles(fileList, pathPrefix, false);
    if m.Failure? {
      return Failure(m.error);
    }
    r := Success(Reader(bucket, m.value, onlyExpectedRootFiles, store));
  }

  /** Asking for strict mode changes nothing: an unexpected root file is still skipped. */
  lemma StrictFlagIgnored(bucket: string, fileList: seq<string>, pathPrefix: string, store: Store)
    ensures OpenReader(bucket, fileList, pathPrefix, true, store).Success?
        <==> exists j :: 0 <= j < |fileList| && RemovePrefix(fileList[j], pathPrefix) == BagInfoTxt
    ensures OpenReader(bucket, fileList, pathPrefix, true, store).Success? ==>
      OpenReader(bucket, fileList, pathPrefix, true, store).value.files
        == OpenReader(bucket, fileList, pathPrefix, false, store).value.files
  {
    ClassifyLenientFails(fileList, pathPrefix);
  }

  function PropertiesJson(d: Dict<string>): (r: Dict<Json>)
    ensures Keys(r) == Keys(d)
    ensures forall k :: 0 <= k < |d| ==> r[k].1 == JStr(d[k].1)
  {
    seq(|d|, k requires 0 <= k < |d| => (d[k].0, JStr(d[k].1)))
  }

  function ChecksumsJson(es: seq<ChecksumEntry>): (r: Json)
    ensures r.JArr? && |r.items| == |es|
    ensures forall k :: 0 <= k < |es| ==>
      r.items[k] == JObj([("object", JStr(es[k].objectPath)), ("checksum", JStr(es[k].checksum))])
  {
    JArr(seq(|es|, k requires 0 <= k < |es| => JObj([("object", JStr(es[k].objectPath)), ("checksum", JStr(es[k].checksum))])))
  }

  function CellJson(c: Option<string>): Json {
    match c
    case None => JNull
    case Some(s) => JStr(s)
  }

  function RowsJson(rows: seq<Row>): (r: Json)
    ensures r.JArr? && |r.items| == |rows|
    ensures forall i :: 0 <= i < |rows| ==>
      r.items[i].JObj? && |r.items[i].fields| == |rows[i]| && Keys(r.items[i].fields) == Keys(rows[i])
    ensures forall i, j :: 0 <= i < |rows| && 0 <= j < |rows[i]| ==> r.items[i].fields[j].1 == CellJson(rows[i][j].1)
  {
    JArr(seq(|rows|, i requires 0 <= i < |rows| =>
      JObj(seq(|rows[i]|, j requires 0 <= j < |rows[i]| => (rows[i][j].0, CellJson(rows[i][j].1))))))
  }

  /**
   * get_bag_info_txt_as_dict, get_bagit_txt_as_dict: {name: the decoded
   * property file}, where path is the field that holds the file's key.
   */
  function PropertyRootFile(r: Reader, name: string, path: Option<string>): (d: Result<Dict<Json>, Error>)
    ensures path.None? ==> d == Failure(ParamValidationError)
    ensures path.Some? && (r.bucket, path.value) !in r.store ==> d == Failure(NoSuchKey(r.bucket, path.value))
    ensures d.Success? <==>
      path.Some? && (r.bucket, path.value) in r.store && PropertyFile(r.store[(r.bucket, path.value)]).Success?
    ensures path.Some? && (r.bucket, path.value) in r.store && d.Failure? ==> d.error == IndexError
    ensures d.Success? ==> Keys(d.value) == [name]
    ensures d.Success? ==>
      d.value == [(name, JObj(PropertiesJson(PropertyFile(r.store[(r.bucket, path.value)]).value)))]
  {
    var body :- GetObject(r.store, r.bucket, path);
    var data :- PropertyFile(body);
    Success([(name, JObj(PropertiesJson(data)))])
  }

  /** get_file_av_csv_as_dict and the other two: {} when the bag has no such file. */
  function CsvRootFile(r: Reader, name: string, path: Option<string>, csv: CsvReader): (d: Result<Dict<Json>, Error>)
    ensures path.None? ==> d == Success([])
    ensures d.Success? ==> Keys(d.value) == if path.Some? then [name] else []
    ensures path.Some? ==> (d.Success? <==> (r.bucket, path.value) in r.store)
    ensures path.Some? && d.Failure? ==> d.error == NoSuchKey(r.bucket, path.value)
    ensures path.Some? && d.Success? ==>
      d.value == [(name, RowsJson(CsvFile(r.store[(r.bucket, path.value)], csv)))]
  {
    if path.None? then Success([])
    else
      var body :- GetObject(r.store, r.bucket, path);
      Success([(name, RowsJson(CsvFile(body, csv)))])
  }

  /** get_manifest_sha256_as_dict, get_tagmanifest_sha256_as_dict: {name: the decoded entries}. */
  function ChecksumRootFile(r: Reader, name: string, path: Option<string>): (d: Result<Dict<Json>, Error>)
    ensures path.None? ==> d == Failure(ParamValidationError)
    ensures path.Some? && (r.bucket, path.value) !in r.store ==> d == Failure(NoSuchKey(r.bucket, path.value))
    ensures d.Success? <==>
      path.Some? && (r.bucket, path.value) in r.store && ChecksumFile(r.store[(r.bucket, path.value)]).Success?
    ensures path.Some? && (r.bucket, path.value) in r.store && d.Failure? ==> d.error == IndexError
    ensures d.Success? ==> Keys(d.value) == [name]
    ensures d.Success? ==>
      d.value == [(name, ChecksumsJson(ChecksumFile(r.store[(r.bucket, path.value)]).value))]
  {
    var body :- GetObject(r.store, r.bucket, path);
    var data :- ChecksumFile(body);
    Success([(name, ChecksumsJson(data))])
  }

  /** get_sub_files_dict: {'bag_sub_files': the text sub-files with their text}. */
  function SubFilesDict(r: Reader): (d: Result<Dict<Json>, Error>)
    ensures d.Success? ==> Keys(d.value) == [BagSubFiles]
  {
    var fs :- SubFilesFrom(r.store, r.bucket, [], r.files.bagSubFileList);
    Success([(BagSubFiles, SubFilesJson(fs))])
  }

  /** Which sub-files get_sub_files_dict reads, and what it then holds. */
  lemma SubFilesDictResult(r: Reader)
    ensures SubFilesDict(r).Success?
        <==> forall p :: p in TextFiles(r.files.bagSubFileList) ==> (r.bucket, p) in r.store
    ensures SubFilesDict(r).Success? ==>
      exists fs :: ReadAll(r.store, r.bucket, TextFiles(r.files.bagSubFileList), fs)
                && SubFilesDict(r).value == [(BagSubFiles, SubFilesJson(fs))]
  {
    SubFilesFromSuccess(r.store, r.bucket, [], r.files.bagSubFileList);
    if SubFilesDict(r).Success? {
      SubFilesFromContent(r.store, r.bucket, [], r.files.bagSubFileList);
      var fs := SubFilesFrom(r.store, r.bucket, [], r.files.bagSubFileList).value;
      assert fs[0..] == fs;
    }
  }

  method GetPropertyRootFile(r: Reader, name: string, path: Option<string>) returns (d: Result<Dict<Json>, Error>)
    ensures d == PropertyRootFile(r, name, path)
  {
    var body := GetObject(r.store, r.bucket, path);
    if body.Failure? {
      return Failure(body.error);
    }
    var data := GetPropertyFileAsDict(body.value);
    if data.Failure? {
      return Failure(data.error);
    }
    d := Success([(name, JObj(PropertiesJson(data.value)))]);
  }

  method GetCsvRootFile(r: Reader, name: string, path: Option<string>, csv: CsvReader) returns (d: Result<Dict<Json>, Error>)
    ensures d == CsvRootFile(r, name, path, csv)
  {
    if path.None? {
      return Success([]);
    }
    var body := GetObject(r.store, r.bucket, path);
    if body.Failure? {
      return Failure(body.error);
    }
    var data := GetCsvFileAsList(body.value, csv);
    d := Success([(name, RowsJson(data))]);
  }

  method GetChecksumRootFile(r: Reader, name: string, path: Option<string>) returns (d: Result<Dict<Json>, Error>)
    ensures d == ChecksumRootFile(r, name, path)
  {
    var body := GetObject(r.store, r.bucket, path);
    if body.Failure? {
      return Failure(body.error);
    }
    var data := GetChecksumFileAsList(body.value);
    if data.Failure? {
      return Failure(data.error);
    }
    d := Success([(name, ChecksumsJson(data.value))]);
  }

  method GetSubFilesDict(r: Reader) returns (d: Result<Dict<Json>, Error>)
    ensures d == SubFilesDict(r)
  {
    var fileList: seq<SubFile> := [];
    var subFiles := r.files.bagSubFileList;
    var i := 0;
    while i < |subFiles|
      invariant 0 <= i <= |subFiles|
      invariant SubFilesFrom(r.store, r.bucket, [], subFiles) == SubFilesFrom(r.store, r.bucket, fileList, subFiles[i..])
    {
      var subFile := subFiles[i];
      assert subFiles[i..][1..] == subFiles[i + 1..];
      if IsTextFile(subFile) {
        var data := GetObject(r.store, r.bucket, Some(subFile));
        if data.Failure? {
          return Failure(data.error);
        }
        fileList := fileList + [SubFile(subFile, data.value)];
      }
      i := i + 1;
    }
    d := Success([(BagSubFiles, SubFilesJson(fileList))]);
  }
}
