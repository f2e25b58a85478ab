# da-ayr-lambdas: bag ingest and search access control, modelled in Dafny

The da-ayr lambdas take an archival transfer package (a BagIt bag unpacked on
S3) and turn it into an OpenSearch record. They also guard the search API that
reads those records.

- The **bag indexer** classifies the unpacked paths into the seven bag root
  files and the content sub-files. It decodes each file: property files,
  checksum manifests, CSV metadata, and text sub-files inlined with their
  content. It merges the results into a `bag_data` record with
  `ayr_role = None`.
- The **role assigner** looks up the bag's `Source-Organization` in an ordered
  department-to-role map. It writes the first matching role into the record,
  and fails when no entry matches.
- **bag-to-opensearch** stores the record with an HTTP PUT. The document id is
  the bag's `Internal-Sender-Identifier`.
- The **REST API** sends a user's search to OpenSearch. Its query is a bool
  query whose `should` clauses are the user's Keycloak realm roles, so only
  records whose `ayr_role` is one of those roles match.
- The **REST API authorizer** introspects the caller's token with Keycloak. It
  answers API Gateway with an Allow or Deny policy for the calling API stage.

## Layout

| file | module | models |
|---|---|---|
| wrappers.dfy | Wrappers | `Option`, `Result` and the exceptions the lambdas raise |
| text.dfy | Text | the Python `str` operations used: `strip`, `removeprefix`, `removesuffix`, `split`, `split(c, 1)`, `replace`, `splitlines`, `s[-4:]` |
| json.dfy | Dicts, Json, Environ | insertion-ordered dicts; JSON-like event values, with `d[k]`, `k in d`, `for x in d`, `str()`; `os.environ[...]` |
| bag_file_mapper.dfy | BagFileMapper | `BagFileMapper.__init__` |
| s3_bag_reader.dfy | S3BagReader | the decoders and `get_*_as_dict` readers of `S3BagReader` |
| bag_indexer.dfy | BagIndexer | the bag indexer lambda |
| bag_role_assigner.dfy | BagRoleAssigner | the role assigner lambda |
| opensearch_host.dfy | OpenSearchHost | the connection settings both OpenSearch lambdas read |
| bag_to_opensearch.dfy | BagToOpenSearch | the bag-to-opensearch lambda |
| rest_api.dfy | RestApi | the REST API lambda |
| rest_api_auth.dfy | RestApiAuth | the REST API authorizer |
| indexer_example.dfy, role_assigner_example.dfy | IndexerExample, RoleAssignerExample | the repository's unit tests, as lemmas |

Each imperative piece of the source is a `method` with a loop. It is proved
equal to a specification function, and the properties are lemmas about that
function. This covers the classification loop, each decoder, the sub-file
reader, the indexer's `update` sequence, the role lookup and the two query
loops. The role assigner's handler updates the event dict in place, so it is a
method that modifies an `EventDict` object holding the dict.

Everything outside the code is a parameter:
- the S3 bucket contents: a map from (bucket, key) to the decoded text;
- the parameter store: a map from parameter name to value;
- the environment: a map from variable name to value;
- `csv.DictReader`: a function from lines to rows;
- `json.loads`: a function on values;
- the introspection response: a function from the request to a value.

Points where the code behaves differently from what a reader might expect, and
which the model follows:
- A missing `bagit.txt`, `manifest-sha256.txt` or `tagmanifest-sha256.txt` is
  not tolerated: the reader calls `get_object(Key=None)`, which fails. This is
  modelled as `ParamValidationError`.
- A root name that occurs twice keeps its **last** path, not its first.
- The role assigner compares the bag's `Source-Organization` **untrimmed**. Only
  the table's `bag_department` is stripped.
- `S3BagReader` never passes its strict flag on, so the indexer always
  classifies leniently.
- bag-to-opensearch never calls its own `validate_event` (second finding below).
- The REST API handler reads the realm roles with the code as written
  (`RealmRolesAsWritten`), so an event without `requestContext` fails with a
  bare TypeError (third finding below).

## Model

| member | source | states |
|---|---|---|
| Text.Strip | lib/s3_bag_reader.py:132 | `str.strip()` over Python's whitespace set: the result neither starts nor ends with whitespace |
| Text.StripIdempotent | lib/s3_bag_reader.py:132-133 | stripping twice is stripping once |
| Text.RemovePrefix | lib/s3_bag_reader.py:62 | `removeprefix`: prefix plus result is the input when the prefix is there; otherwise the input is unchanged |
| Text.RemovePrefixOfConcat | lib/s3_bag_reader.py:62 | removing p from p + x gives x |
| Text.RemoveSuffix | da-ayr-bag-indexer/lambda_function.py:92 | `removesuffix`: result plus suffix is the input when it ends so; otherwise the input is unchanged |
| Text.RemoveSuffixOfConcat | da-ayr-bag-indexer/lambda_function.py:92 | removing x from s + x gives s |
| Text.LastChars | lib/s3_bag_reader.py:250 | `s[-4:]`: the last n characters, or all of a shorter string |
| Text.ReplaceChar | lib/s3_bag_reader.py:146 | `replace('\t', ' ')`: same length, every a becomes b, every other character is kept |
| Text.Split | da-ayr-rest-api-auth/lambda_function.py:73 | `split(c)`: at least one field, no field holds c |
| Text.JoinSplit | da-ayr-rest-api-auth/lambda_function.py:73 | joining the fields with c gives the string back |
| Text.SplitJoin | da-ayr-rest-api-auth/lambda_function.py:73 | splitting fields joined by c, none of which holds c, gives the fields back |
| Text.SplitOnce | lib/s3_bag_reader.py:132 | `split(c, 1)`: the whole string when c is absent; else two parts around the first c |
| Text.SplitLines | lib/s3_bag_reader.py:130 | `splitlines()` on '\n': no line holds a line break |
| Text.SplitLinesJoin | lib/s3_bag_reader.py:130 | lines joined by '\n' split back into the same lines |
| Dicts.Lookup | lib/s3_bag_reader.py:133 | `d.get(k)`: None exactly when k is absent; otherwise a value stored under k |
| Dicts.Put | da-ayr-bag-role-assigner/lambda_function.py:127 | `d[k] = v`: an existing key keeps its position, a new key is appended at the end |
| Dicts.PutLookup | da-ayr-bag-role-assigner/lambda_function.py:127 | after `d[k] = v`, k reads as v and every other key reads as before |
| Dicts.PutPresent | da-ayr-bag-role-assigner/lambda_function.py:127 | with unique keys, assigning an existing key replaces its entry in place |
| Dicts.PutAbsent | lib/s3_bag_reader.py:133 | assigning a new key appends the entry |
| Dicts.PutUnique | lib/s3_bag_reader.py:133 | assigning keeps keys unique |
| Dicts.UpdateDisjoint | da-ayr-bag-indexer/lambda_function.py:101-109 | `d.update(e)` with keys disjoint from d is concatenation |
| Dicts.UpdateAllDisjoint | da-ayr-bag-indexer/lambda_function.py:101-109 | a sequence of updates whose keys are pairwise disjoint concatenates them |
| Dicts.ParseAll | lib/s3_bag_reader.py:131-133 | parsing every line succeeds iff each line parses; results pointwise; a failure is some line's error |
| Dicts.AppendParsedAll | lib/s3_bag_reader.py:145-151 | the append loop yields ParseAll's list after what was collected |
| Dicts.PutParsedUpdate | lib/s3_bag_reader.py:131-133 | the assignment loop is ParseAll followed by key-by-key assignment |
| Dicts.PutParsedDistinct | lib/s3_bag_reader.py:131-133 | with distinct keys, the assignment loop yields the parsed pairs in order |
| Dicts.PutParsedUnique | lib/s3_bag_reader.py:131-133 | the assignment loop yields unique keys |
| BagFileMapper.AssignRoot | lib/s3_bag_reader.py:63-76 | the seven `if` statements: the field named by the stripped name gets the full path; every other field and the sub-file list stay as they were |
| BagFileMapper.MapStepOutcome | lib/s3_bag_reader.py:60-83 | one iteration raises only in strict mode, for a file that is neither the tagmanifest nor under a folder, naming that file; otherwise the full path is appended to the sub-file list exactly when its remainder holds a '/' (the root fields: MapStepRootFile) |
| BagFileMapper.MapFromOutcome | lib/s3_bag_reader.py:60-83 | the loop never raises in lenient mode; the sub-file list only grows; a failure is a strict-mode unexpected root file |
| BagFileMapper.ClassifyOutcome | lib/s3_bag_reader.py:42-86 | a classification that succeeds has bag-info.txt; a failure is the missing bag-info error, or in strict mode an unexpected root file |
| BagFileMapper.MapBagFiles | lib/s3_bag_reader.py:58-86 | the `__init__` loop and bag-info check compute exactly `Classify` |
| BagFileMapper.SubFilePaths | lib/s3_bag_reader.py:77-78 | a path is a sub-file path iff it is an input whose stripped remainder contains '/' |
| BagFileMapper.SubFilePathsConcat | lib/s3_bag_reader.py:60-78 | sub-file order follows input order: the sub-files of a + b are those of a, then those of b |
| BagFileMapper.RootNamesHaveNoSlash | lib/s3_bag_reader.py:24-30 | no root file name contains '/' |
| BagFileMapper.MapStepRootFile | lib/s3_bag_reader.py:62-76 | one iteration sets a root field iff the file's remainder is that name |
| BagFileMapper.MapFromLenient | lib/s3_bag_reader.py:60-83 | in lenient mode the loop never raises, and appends exactly the sub-file paths, in order |
| BagFileMapper.MapFromRootFile | lib/s3_bag_reader.py:62-76 | after the loop each root field holds the last path with that remainder, or is unchanged if there is none |
| BagFileMapper.ClassifyLenientRootFile | lib/s3_bag_reader.py:62-76 | each root field holds the full path of the last file whose remainder is that name, and None when no file has it |
| BagFileMapper.ClassifyLenientPresent | lib/s3_bag_reader.py:62-76 | a root name that occurs is always set |
| BagFileMapper.ClassifyLenientFails | lib/s3_bag_reader.py:85-86 | lenient classification succeeds iff some remainder is `bag-info.txt`; else it raises the missing bag-info error |
| BagFileMapper.ClassifyLenientSubFiles | lib/s3_bag_reader.py:58-78 | `bag_sub_file_list` is exactly the inputs whose remainder contains '/', in input order |
| BagFileMapper.ClassifyEmpty | lib/s3_bag_reader.py:85-86 | an empty file list raises the missing bag-info error, in either mode |
| BagFileMapper.SubFilesAreNotRootFiles | lib/s3_bag_reader.py:75-78 | no sub-file's remainder is a root file name |
| BagFileMapper.StrictStep | lib/s3_bag_reader.py:75-83 | in strict mode, a sub-file or `tagmanifest-sha256.txt` passes and leaves bag-info.txt unset |
| BagFileMapper.MapFromStrict | lib/s3_bag_reader.py:60-83 | the strict loop succeeds iff no file is a root-level file other than `tagmanifest-sha256.txt`, and then never sets bag-info.txt |
| BagFileMapper.MapFromStrictFirst | lib/s3_bag_reader.py:79-83 | the strict loop raises for the first such file, naming it |
| BagFileMapper.ClassifyStrict | lib/s3_bag_reader.py:63-86 | strict classification always fails; with no offending file it fails for missing bag-info |
| BagFileMapper.ClassifyStrictFirst | lib/s3_bag_reader.py:79-83 | strict classification reports the first root-level file other than `tagmanifest-sha256.txt` |
| BagFileMapper.MapFromLenientAgrees | lib/s3_bag_reader.py:63-83 | in lenient mode the code as written and the corrected branch chain give the same loop result |
| BagFileMapper.ClassifyLenientAgrees | lib/s3_bag_reader.py:63-86 | in lenient mode the code as written and the corrected classification agree on every input |
| BagFileMapper.MapFromIntendedStrict | lib/s3_bag_reader.py:75-83 | corrected strict loop: the lenient result when every file is a root file or a sub-file, a failure otherwise |
| BagFileMapper.ClassifyIntendedStrict | lib/s3_bag_reader.py:63-86 | corrected strict classification succeeds iff bag-info.txt is present and every file is a known root file or a sub-file |
| BagFileMapper.StrictModeRejectsBagInfo | lib/s3_bag_reader.py:63-83 | the bag ["bag-info.txt"] fails in strict mode as written, naming bag-info.txt, and classifies under the corrected code |
| S3BagReader.PropertyLine | lib/s3_bag_reader.py:132-133 | a line fails (IndexError) iff it has no ':'; the key is the stripped text before the first ':', the value the stripped rest |
| S3BagReader.PropertyFile | lib/s3_bag_reader.py:123-134 | a failure is IndexError; a decoded dict holds no key twice |
| S3BagReader.GetPropertyFileAsDict | lib/s3_bag_reader.py:122-134 | the line loop computes `PropertyFile` |
| S3BagReader.PropertyFileResult | lib/s3_bag_reader.py:129-134 | decoding succeeds iff every line has ':'; the result is the lines' pairs assigned key by key (a repeated key keeps its first position and last value); keys are unique |
| S3BagReader.PropertyLineFormat | lib/s3_bag_reader.py:132-133 | a "key: value" line parses back to (key, value) |
| S3BagReader.PropertyFileRoundTrip | lib/s3_bag_reader.py:129-134 | pairs with distinct keys written as "key: value" lines decode to the same pairs, in order |
| S3BagReader.PropertyFileEmpty | lib/s3_bag_reader.py:129-134 | an empty file decodes to the empty dict |
| S3BagReader.PropertyFileTwoLines | lib/s3_bag_reader.py:129-134 | "A: 1\nB: 2" decodes to {A: 1, B: 2} |
| S3BagReader.PropertyFileBlankLine | lib/s3_bag_reader.py:132-133 | a blank line makes the decode fail with IndexError |
| S3BagReader.ChecksumLine | lib/s3_bag_reader.py:146-150 | a line fails (IndexError) iff the stripped line holds neither space nor tab |
| S3BagReader.ChecksumFile | lib/s3_bag_reader.py:137-152 | a failure is IndexError; a decoded list has one entry per line |
| S3BagReader.GetChecksumFileAsList | lib/s3_bag_reader.py:136-152 | the line loop computes `ChecksumFile` |
| S3BagReader.ChecksumFileResult | lib/s3_bag_reader.py:143-152 | decoding succeeds iff every line decodes; then one entry per line, in order |
| S3BagReader.ChecksumLineFormat | lib/s3_bag_reader.py:146-150 | "checksum, spaces, path" parses back to the entry |
| S3BagReader.ChecksumFileRoundTrip | lib/s3_bag_reader.py:143-152 | entries written as manifest lines decode to the same entries, in order |
| S3BagReader.ChecksumsJson | lib/s3_bag_reader.py:145-151 | one item per entry, in order: item k is `{object: path, checksum: hash}` of entry k |
| S3BagReader.RowsJson | lib/s3_bag_reader.py:187-196 | one dict per row, in order, with the row's columns in order; a cell keeps its str, a None cell becomes null |
| S3BagReader.NullEmpty | lib/s3_bag_reader.py:166-168 | the row keeps its length and its column names in order |
| S3BagReader.NullEmptyCells | lib/s3_bag_reader.py:165-168 | no cell is '' afterwards, and every other cell is unchanged |
| S3BagReader.NullEmptyIdempotent | lib/s3_bag_reader.py:166-168 | normalising twice is normalising once |
| S3BagReader.NullEmptyLookup | lib/s3_bag_reader.py:166-168 | by column, a cell reads None exactly where it was '' and is unchanged otherwise |
| S3BagReader.CsvFile | lib/s3_bag_reader.py:161-171 | one row per parsed row, in order: row i is parsed row i with its '' cells set to None (`NullEmpty`), so its columns and non-empty values are kept and no '' cell remains |
| S3BagReader.GetCsvFileAsList | lib/s3_bag_reader.py:154-171 | the nested loop computes `CsvFile` |
| S3BagReader.TextFiles | lib/s3_bag_reader.py:246-250 | a path is kept iff its last four characters are `.txt` or `.csv` |
| S3BagReader.SubFilesFrom | lib/s3_bag_reader.py:249-264 | the loop keeps what was collected and adds one entry per text sub-file; a failure is a missing object in the reader's bucket |
| S3BagReader.SubFilesFromSuccess | lib/s3_bag_reader.py:249-266 | reading the sub-files succeeds iff every text sub-file is in the bucket |
| S3BagReader.SubFilesFromFailure | lib/s3_bag_reader.py:253-257 | a failed read names a text sub-file missing from the bucket |
| S3BagReader.SubFilesFromContent | lib/s3_bag_reader.py:249-266 | a successful read keeps what was collected, then each text sub-file in order as `{object: path, data: its text}` |
| S3BagReader.SubFilesJson | lib/s3_bag_reader.py:259-264 | one item per sub-file read, in order: item k is `{object: path, data: text}` of sub-file k |
| S3BagReader.SubFilesDict | lib/s3_bag_reader.py:268-272 | the only key is `bag_sub_files` |
| S3BagReader.SubFilesDictResult | lib/s3_bag_reader.py:246-272 | succeeds iff every text sub-file is readable; then `bag_sub_files` lists exactly the text sub-files in order with their content |
| S3BagReader.GetSubFilesDict | lib/s3_bag_reader.py:234-272 | the loop computes `SubFilesDict` |
| S3BagReader.OpenReader | lib/s3_bag_reader.py:92-120 | the reader exists iff lenient classification succeeds, and holds its fields |
| S3BagReader.NewS3BagReader | lib/s3_bag_reader.py:92-120 | the constructor computes `OpenReader` |
| S3BagReader.StrictFlagIgnored | lib/s3_bag_reader.py:110-112 | asking for strict mode changes nothing: same success condition, same fields |
| S3BagReader.PropertiesJson | lib/s3_bag_reader.py:133 | the decoded pairs as str values, same keys in order |
| S3BagReader.PropertyRootFile | lib/s3_bag_reader.py:173-185 | no path is ParamValidationError and an absent object NoSuchKey; it succeeds iff the object exists and decodes, a decode failure being IndexError; the result is `{name: the decoded dict, values as str}` of the object's text |
| S3BagReader.CsvRootFile | lib/s3_bag_reader.py:187-218 | no file gives `{}`; otherwise it succeeds iff the object exists (else NoSuchKey), and the result is `{name: the CsvFile rows of the object's text}` |
| S3BagReader.ChecksumRootFile | lib/s3_bag_reader.py:220-232 | no path is ParamValidationError and an absent object NoSuchKey; it succeeds iff the object exists and decodes, a decode failure being IndexError; the result is `{name: the entries}` of the object's text |
| S3BagReader.GetPropertyRootFile | lib/s3_bag_reader.py:173-185 | computes `PropertyRootFile` |
| S3BagReader.GetCsvRootFile | lib/s3_bag_reader.py:187-218 | computes `CsvRootFile` |
| S3BagReader.GetChecksumRootFile | lib/s3_bag_reader.py:220-232 | computes `ChecksumRootFile` |
| BagIndexer.ValidateEvent | da-ayr-bag-indexer/lambda_function.py:20-33 | passes iff all four keys are present; otherwise names the first missing key in check order |
| BagIndexer.BagS3Url | da-ayr-bag-indexer/lambda_function.py:90 | the URL starts with `s3://` |
| BagIndexer.BagS3UrlParts | da-ayr-bag-indexer/lambda_function.py:90 | bucket and path can be read back from the URL |
| BagIndexer.PathPrefix | da-ayr-bag-indexer/lambda_function.py:92-93 | the prefix is the output path, '/', then the folder, and ends in '/' |
| BagIndexer.PathPrefixOfTarball | da-ayr-bag-indexer/lambda_function.py:92-93 | for a `.tar.gz` bag name, the folder is the name without the suffix |
| BagIndexer.PathPrefixRemainder | da-ayr-bag-indexer/lambda_function.py:93 | a path under the prefix strips back to its name inside the bag |
| BagIndexer.BagParts | da-ayr-bag-indexer/lambda_function.py:101-109 | the eight reads in order; each part has its one key, a CSV part is empty when its file is absent |
| BagIndexer.ExpectedKeys | da-ayr-bag-indexer/lambda_function.py:101-109 | bag_data's keys include `bag-info.txt` and `bag_sub_files`, are root names or `bag_sub_files`, and omit each absent CSV |
| BagIndexer.ExpectedKeysDistinct | da-ayr-bag-indexer/lambda_function.py:101-109 | no two parts share a key |
| BagIndexer.MergeParts | da-ayr-bag-indexer/lambda_function.py:101-109 | the eight updates overwrite nothing: the result is the parts concatenated, with the expected keys, all distinct |
| BagIndexer.UpdateAllEight | da-ayr-bag-indexer/lambda_function.py:101-109 | the update sequence is the eight `update` calls in source order |
| BagIndexer.BagData | da-ayr-bag-indexer/lambda_function.py:101-109 | succeeds iff all eight reads succeed; bag_data then has exactly the expected keys, none twice |
| BagIndexer.BagDataMerged | da-ayr-bag-indexer/lambda_function.py:101-109 | bag_data is the concatenated parts, with the expected keys, all distinct |
| BagIndexer.EventString | da-ayr-bag-indexer/lambda_function.py:83-88 | succeeds iff the key is present with a str value, and returns that str; an absent key is KeyError, and a value of another type is modelled as TypeError |
| BagIndexer.EventStrings | da-ayr-bag-indexer/lambda_function.py:89 | succeeds iff the key is present with a list of str, and returns those str in order; an absent key is KeyError, and anything else is modelled as TypeError |
| BagIndexer.Record | da-ayr-bag-indexer/lambda_function.py:111-115 | exactly `ayr_role: None`, `bag_s3_url`, `bag_data`, in that order |
| BagIndexer.Index | da-ayr-bag-indexer/lambda_function.py:36-117 | a validation failure is raised unchanged; a record has exactly the keys `ayr_role`, `bag_s3_url`, `bag_data`, `ayr_role` is None, and `bag_data` is a dict with no key twice that holds `bag-info.txt` and `bag_sub_files` |
| BagIndexer.IndexMissingKey | da-ayr-bag-indexer/lambda_function.py:81 | an event missing a required key fails naming the first missing key |
| BagIndexer.IndexRecord | da-ayr-bag-indexer/lambda_function.py:83-117 | a successful run returns the record of the bag read under the derived prefix, with the derived URL |
| BagIndexer.LambdaHandler | da-ayr-bag-indexer/lambda_function.py:36-117 | the handler computes `Index` |
| BagRoleAssigner.ValidateEvent | da-ayr-bag-role-assigner/lambda_function.py:48-59 | passes iff all three keys are present; otherwise names the first missing key |
| BagRoleAssigner.Department | da-ayr-bag-role-assigner/lambda_function.py:67 | a department read from an entry is stripped; reading it fails only with KeyError or TypeError |
| BagRoleAssigner.Role | da-ayr-bag-role-assigner/lambda_function.py:69 | a role read from an entry is stripped; reading it fails only with KeyError or TypeError |
| BagRoleAssigner.FirstMatch | da-ayr-bag-role-assigner/lambda_function.py:66-71 | when every entry is read and misses, the loop ends in the fall-through result; a first entry that matches gives its value |
| BagRoleAssigner.FirstMatchStep | da-ayr-bag-role-assigner/lambda_function.py:66-69 | one iteration: a read error is raised, a match returns its value, a miss moves on |
| BagRoleAssigner.FirstMatchAt | da-ayr-bag-role-assigner/lambda_function.py:66-69 | the first matching entry's value is returned |
| BagRoleAssigner.FirstMatchFound | da-ayr-bag-role-assigner/lambda_function.py:66-69 | success always comes from the first matching entry, all earlier ones having been read and missed |
| BagRoleAssigner.FirstMatchNone | da-ayr-bag-role-assigner/lambda_function.py:66-71 | the loop falls through iff every entry is read and misses |
| BagRoleAssigner.FirstMatchPrefix | da-ayr-bag-role-assigner/lambda_function.py:66-69 | entries after a match are never consulted |
| BagRoleAssigner.FirstMatchAvoids | da-ayr-bag-role-assigner/lambda_function.py:66-76 | no result outside the values, read errors and fall-through is produced |
| BagRoleAssigner.Unmapped | da-ayr-bag-role-assigner/lambda_function.py:71-76 | falling through always fails: unmapped-department naming the department when the param store key is set, a KeyError otherwise |
| BagRoleAssigner.FindRole | da-ayr-bag-role-assigner/lambda_function.py:66-76 | when no entry's department matches, the result is the unmapped-department failure: there is no default role |
| BagRoleAssigner.AyrRole | da-ayr-bag-role-assigner/lambda_function.py:62-76 | a list role map is scanned entry by entry; None, a bool or an int raises TypeError |
| BagRoleAssigner.FirstMatchLoop | da-ayr-bag-role-assigner/lambda_function.py:66-76 | the loop with early return computes `FirstMatch` |
| BagRoleAssigner.GetAyrRole | da-ayr-bag-role-assigner/lambda_function.py:62-76 | computes `AyrRole` |
| BagRoleAssigner.FindRoleFirstMatch | da-ayr-bag-role-assigner/lambda_function.py:66-69 | the role of the first entry whose stripped department equals the department |
| BagRoleAssigner.FindRoleFound | da-ayr-bag-role-assigner/lambda_function.py:66-69 | every role returned comes from the first matching entry and is stripped |
| BagRoleAssigner.EntryErrors | da-ayr-bag-role-assigner/lambda_function.py:67-69 | reading an entry fails only with KeyError or TypeError |
| BagRoleAssigner.FindRoleUnmapped | da-ayr-bag-role-assigner/lambda_function.py:66-76 | the unmapped-department error occurs iff no entry matches (and the key variable is set); no default role |
| BagRoleAssigner.FindRoleIgnoresLater | da-ayr-bag-role-assigner/lambda_function.py:66-69 | appending entries (duplicates included) after a match changes nothing |
| BagRoleAssigner.SourceOrganization | da-ayr-bag-role-assigner/lambda_function.py:124 | the value is `event['bag_data']['bag-info.txt']['Source-Organization']`, both outer levels being dicts; a failure is KeyError or TypeError |
| BagRoleAssigner.AssignRole | da-ayr-bag-role-assigner/lambda_function.py:121-128 | a validation failure is raised unchanged; a result keeps the event's keys in order and holds a str `ayr_role` |
| BagRoleAssigner.PutExisting | da-ayr-bag-role-assigner/lambda_function.py:127 | setting an existing key keeps the keys and their order, and every other value |
| BagRoleAssigner.AssignRoleKeeps | da-ayr-bag-role-assigner/lambda_function.py:124-128 | only `ayr_role` changes; every other key and value, and key uniqueness, are kept |
| BagRoleAssigner.AssignRoleResult | da-ayr-bag-role-assigner/lambda_function.py:124-128 | succeeds iff validation, the Source-Organization read and the lookup succeed; `ayr_role` is then the looked-up role |
| BagRoleAssigner.EventDict.constructor | da-ayr-bag-role-assigner/lambda_function.py:79 | the event dict holds the event given |
| BagRoleAssigner.LambdaHandler | da-ayr-bag-role-assigner/lambda_function.py:79-128 | on success the same dict object is returned, updated to `AssignRole`'s result; on failure it is left unchanged |
| RoleAssignerExample.EntryReads | da-ayr-bag-role-assigner/lambda_function.py:67-69 | an entry's department and role are read back stripped |
| RoleAssignerExample.TestEventReads | da-ayr-bag-role-assigner/test_lambda_function.py:6-26 | test_event_1 has the three keys and Source-Organization "Testing A" |
| RoleAssignerExample.AssignsEntryRole | da-ayr-bag-role-assigner/lambda_function.py:124-128 | a one-entry map for the bag's department sets that role and keeps the keys |
| RoleAssignerExample.TestExpectedData | da-ayr-bag-role-assigner/test_lambda_function.py:28-34 | the result has exactly three keys and `ayr_role` is `department_a_role` |
| RoleAssignerExample.DepartmentNotTrimmed | da-ayr-bag-role-assigner/lambda_function.py:67-68 | a department with a leading space does not match its trimmed entry |
| RoleAssignerExample.TableSideStripped | da-ayr-bag-role-assigner/lambda_function.py:67-68 | a table entry with surrounding spaces matches the trimmed department |
| RoleAssignerExample.TestDepartmentSides | da-ayr-bag-role-assigner/lambda_function.py:67-68 | the two sides, for "Testing A" |
| IndexerExample.TestPathPrefix | da-ayr-bag-indexer/test_lambda_function.py:9-10 | the test's prefix is `ayr-in/TDR-2022-D6WD.tar.gz/TDR-2022-D6WD/` |
| IndexerExample.TestClassifies | da-ayr-bag-indexer/test_lambda_function.py:11-25 | the test's file list classifies |
| IndexerExample.TestRootFile | da-ayr-bag-indexer/test_lambda_function.py:12-24 | each of the test's root files is found |
| IndexerExample.TestCsvFiles | da-ayr-bag-indexer/test_lambda_function.py:20-22 | all three CSV files are present |
| IndexerExample.TestSubFilePaths | da-ayr-bag-indexer/test_lambda_function.py:14-19 | the test's sub-file paths are the six content files |
| IndexerExample.TestSubFiles | da-ayr-bag-indexer/test_lambda_function.py:14-19 | the classified sub-file list is those six, in order |
| IndexerExample.IndexerEventUnique | da-ayr-bag-indexer/test_lambda_function.py:7-26 | the test event's keys are distinct |
| IndexerExample.IndexerEventFields | da-ayr-bag-indexer/test_lambda_function.py:7-26 | the handler reads the test event's four values back |
| IndexerExample.TestBagDataKeys | da-ayr-bag-indexer/test_lambda_function.py:33-34 | the test bag's bag_data has 8 keys including `bag-info.txt` |
| IndexerExample.TestSubFilesEntry | da-ayr-bag-indexer/test_lambda_function.py:35 | the sub-file part lists 6 files |
| IndexerExample.TestRecord | da-ayr-bag-indexer/test_lambda_function.py:29 | the handler's result on the test event is the record of the test bag |
| IndexerExample.TestBagData | da-ayr-bag-indexer/test_lambda_function.py:33-35 | 8 entries, `bag-info.txt` among them, 6 sub-files |
| IndexerExample.TestExpectedData | da-ayr-bag-indexer/test_lambda_function.py:28-35 | whenever every read succeeds: the three record keys, 8 bag_data entries with `bag-info.txt`, 6 sub-files |
| IndexerExample.MapperTestExpected | lib/test_s3_bag_reader.py:7-27 | file_list_1 classifies, with its content file as the only sub-file; the empty list fails for missing bag-info.txt |
| IndexerExample.MapperTestSubFiles | lib/test_s3_bag_reader.py:7-11 | file_list_1's only sub-file path is its content file |
| OpenSearchHost.CheckVerifySslCert | da-ayr-bag-to-opensearch/lambda_function.py:26-45 | certificates are not checked iff DO_NOT_VERIFY_SSL is exactly `TRUE` |
| OpenSearchHost.VerifySslUnlessExactlyTrue | da-ayr-bag-to-opensearch/lambda_function.py:37-45 | unset, or any other value, means checking |
| OpenSearchHost.WithTrailingSlash | da-ayr-bag-to-opensearch/lambda_function.py:80-82 | the result ends in '/'; an input already ending in '/' is unchanged, otherwise one '/' is appended |
| OpenSearchHost.WithTrailingSlashIdempotent | da-ayr-bag-to-opensearch/lambda_function.py:79-84 | applying it twice is applying it once |
| OpenSearchHost.OpenSearchUrl | da-ayr-bag-to-opensearch/lambda_function.py:72-84 | succeeds iff OPENSEARCH_HOST_URL is set, giving it with a trailing '/'; KeyError otherwise |
| OpenSearchHost.UserPassword | da-ayr-bag-to-opensearch/lambda_function.py:48-69 | the env password wins; else the param store key must be set and name a parameter |
| OpenSearchHost.OpenConnection | da-ayr-bag-to-opensearch/lambda_function.py:131-136 | certificate setting, host URL, user and password, in that order, with the first failure |
| BagToOpenSearch.ValidateEvent | da-ayr-bag-to-opensearch/lambda_function.py:87-98 | passes iff all three keys are present; otherwise names the first missing key |
| BagToOpenSearch.InsertId | da-ayr-bag-to-opensearch/lambda_function.py:139 | the id is `event['bag_data']['bag-info.txt']['Internal-Sender-Identifier']`, both outer levels being dicts; a failure is KeyError or TypeError |
| BagToOpenSearch.DocUrl | da-ayr-bag-to-opensearch/lambda_function.py:140 | the URL starts with the host URL and ends with `/_doc/` + id |
| BagToOpenSearch.UpsertRequest | da-ayr-bag-to-opensearch/lambda_function.py:129-156 | as written: a request is sent only when the document id can be read, with JSON headers and the whole event as its body |
| BagToOpenSearch.UpsertRequestTarget | da-ayr-bag-to-opensearch/lambda_function.py:131-156 | the PUT goes to host URL + index + `/_doc/` + Internal-Sender-Identifier, with the certificate setting and the connection's user and password (the env password, else the parameter store's), and its body is the whole event |
| BagToOpenSearch.UpsertSameDocument | da-ayr-bag-to-opensearch/lambda_function.py:139-140 | two records with the same Internal-Sender-Identifier target the same document |
| BagToOpenSearch.UpsertSkipsValidation | da-ayr-bag-to-opensearch/lambda_function.py:129-156 | a record without `ayr_role`, which validation rejects, is still sent |
| BagToOpenSearch.ValidatedUpsertRequest | da-ayr-bag-to-opensearch/lambda_function.py:87-98 | corrected: a request is sent only for an event that validates, and it is then the one UpsertRequest sends |
| BagToOpenSearch.ValidatedUpsertRequestValid | da-ayr-bag-to-opensearch/lambda_function.py:87-98 | with validation first, only records holding all three keys are sent, unchanged; a validation failure is reported |
| RestApi.EventKey | da-ayr-rest-api/aws_lambda.py:110-131 | the top-level value wins; else the value in the decoded body; else ''; a body decode failure propagates |
| RestApi.OpenSearchIndex | da-ayr-rest-api/aws_lambda.py:82-107 | OPENSEARCH_INDEX when set; otherwise the event lookup for `opensearch_index` |
| RestApi.EnvIndexWins | da-ayr-rest-api/aws_lambda.py:90-91 | a set OPENSEARCH_INDEX is used whatever the event holds |
| RestApi.TopLevelWins | da-ayr-rest-api/aws_lambda.py:119-122 | a top-level value is returned over one in the body |
| RestApi.SearchUrl | da-ayr-rest-api/aws_lambda.py:212-216 | host + index + '/' + `_search?pretty=true` for a non-empty str; host + `_search?pretty=true` for ''; a non-empty list gets '/' appended as an element; TypeError for a non-empty dict, None, bool or int |
| RestApi.SearchUrlIndex | da-ayr-rest-api/aws_lambda.py:214-216 | the index can be read back from the URL |
| RestApi.SearchUrlEmptyList | da-ayr-rest-api/aws_lambda.py:214-216 | an empty list is formatted as `[]` into the URL |
| RestApi.KeycloakRealmRoles | da-ayr-rest-api/aws_lambda.py:134-151 | no `requestContext` raises the missing-key error for it; roles are read only from an event holding `requestContext.authorizer.keycloak_response` |
| RestApi.ContextRealmRoles | da-ayr-rest-api/aws_lambda.py:143-151 | roles are read only when `authorizer` and `keycloak_response` are present as dict keys |
| RestApi.RealmRolesAsWritten | da-ayr-rest-api/aws_lambda.py:141-151 | as written: no `requestContext` is a bare TypeError; roles only with the full Keycloak context |
| RestApi.RealmRoles | da-ayr-rest-api/aws_lambda.py:141-151 | corrected: no `requestContext` is an error naming it; roles only with the full Keycloak context |
| RestApi.RealmRolesMissing | da-ayr-rest-api/aws_lambda.py:141-151 | the first missing key in nesting order is reported; with all present, the roles come from the decoded `keycloak_response` |
| RestApi.RealmRolesFromContext | da-ayr-rest-api/aws_lambda.py:134-151 | the roles depend only on `requestContext` |
| RestApi.RealmRolesAsWrittenLosesMessage | da-ayr-rest-api/aws_lambda.py:141-148 | as written, each missing-key case is a bare TypeError; otherwise both versions agree |
| RestApi.RealmRolesAsWrittenNoContext | da-ayr-rest-api/aws_lambda.py:141-142 | an event without requestContext: TypeError as written, named error when corrected |
| RestApi.Clauses | da-ayr-rest-api/aws_lambda.py:176-191 | one clause per element, in order |
| RestApi.QueryFields | da-ayr-rest-api/aws_lambda.py:165-173 | the query's `must`, `should` and `minimum_should_match: 1` sit under `query.bool` |
| RestApi.OpenSearchQuery | da-ayr-rest-api/aws_lambda.py:154-194 | a query exists only when the roles can be iterated; its `should` list is one clause per role, in order, and `minimum_should_match` is 1 |
| RestApi.GetOpenSearchQuery | da-ayr-rest-api/aws_lambda.py:154-194 | the two append loops compute `OpenSearchQuery` |
| RestApi.OpenSearchQueryClauses | da-ayr-rest-api/aws_lambda.py:165-191 | `must` has one `{match_phrase: p}` per phrase, `should` one `{match_phrase: {ayr_role: r}}` per role, both in order; `minimum_should_match` is 1 |
| RestApi.NoRolesMatchNothing | da-ayr-rest-api/aws_lambda.py:165-191 | with no roles, `should` is empty and `minimum_should_match` stays 1 |
| RestApi.OpenSearchQueryFails | da-ayr-rest-api/aws_lambda.py:176-184 | building fails iff the phrase list is missing or either loop cannot iterate |
| RestApi.SearchRequest | da-ayr-rest-api/aws_lambda.py:197-238 | the POST goes to `SearchUrl` of the host and the env-first index, with the connection's certificate setting, user and password and JSON headers; its body is `OpenSearchQuery` of the roles, read as written, and the `ayr_search` phrases, so the `should` clauses are exactly the caller's roles with `minimum_should_match` 1; an event without `requestContext` sends nothing |
| RestApiAuth.IntrospectUrl | da-ayr-rest-api-auth/lambda_function.py:39-42 | an https URL ending in Keycloak's token introspection path |
| RestApiAuth.IntrospectUrlParts | da-ayr-rest-api-auth/lambda_function.py:39-42 | host and realm are read back from the introspection URL |
| RestApiAuth.IntrospectUrlInjective | da-ayr-rest-api-auth/lambda_function.py:39-42 | distinct (host, realm) pairs give distinct URLs |
| RestApiAuth.IntrospectRequest | da-ayr-rest-api-auth/lambda_function.py:27-59 | succeeds iff the secret key variable, its parameter, host, client id and realm are all set; the POST goes to the introspection URL with certificate checks, no headers, and client id, secret and token |
| RestApiAuth.ParseMethodArn | da-ayr-rest-api-auth/lambda_function.py:71-83 | fields 2-4 of the ':' split and fields 0-1 of field 5's '/' split; a failure is IndexError |
| RestApiAuth.ParseMethodArnFails | da-ayr-rest-api-auth/lambda_function.py:73-83 | parsing fails iff there are fewer than six ':' fields or field 5 has no '/' |
| RestApiAuth.ParsedClean | da-ayr-rest-api-auth/lambda_function.py:73-83 | parsed parts hold no ':'; the API id and stage hold no '/' |
| RestApiAuth.ParseMethodArnJoin | da-ayr-rest-api-auth/lambda_function.py:73-83 | an ARN built from its fields parses back to them |
| RestApiAuth.ResourceShape | da-ayr-rest-api-auth/lambda_function.py:105 | an `arn:aws:` ARN that ends with the stage and `/*/*` |
| RestApiAuth.ResourceJoin | da-ayr-rest-api-auth/lambda_function.py:105 | the Resource is an ARN whose sixth field is API id, stage and two wildcards |
| RestApiAuth.ResourceParsesBack | da-ayr-rest-api-auth/lambda_function.py:73-105 | the Resource parses back to the parsed parts |
| RestApiAuth.PolicyCoversCaller | da-ayr-rest-api-auth/lambda_function.py:73-105 | the policy's Resource names the calling API, region, account, API id and stage |
| RestApiAuth.Effect | da-ayr-rest-api-auth/lambda_function.py:94 | the effect is Allow or Deny |
| RestApiAuth.EffectAllowIff | da-ayr-rest-api-auth/lambda_function.py:94 | Allow iff `active` is the boolean true; Deny for any other value; a missing `active` propagates |
| RestApiAuth.Statement | da-ayr-rest-api-auth/lambda_function.py:101-107 | exactly the keys Action, Effect and Resource, none twice |
| RestApiAuth.Policy | da-ayr-rest-api-auth/lambda_function.py:96-110 | exactly the keys principalId and policyDocument, none twice |
| RestApiAuth.PolicyFields | da-ayr-rest-api-auth/lambda_function.py:96-110 | principalId None, Version 2012-10-17, exactly one statement |
| RestApiAuth.StatementFields | da-ayr-rest-api-auth/lambda_function.py:100-107 | Action `api:Invoke`, the effect, and the one Resource |
| RestApiAuth.AuthResponse | da-ayr-rest-api-auth/lambda_function.py:69-113 | no `methodArn` is KeyError; a response needs a str `methodArn` that parses, and is the policy for it with effect Allow or Deny |
| RestApiAuth.AuthResponseFailures | da-ayr-rest-api-auth/lambda_function.py:69-88 | the handler's errors in order: missing methodArn, non-str ARN, malformed ARN, missing token |
| RestApiAuth.AuthResponseAllows | da-ayr-rest-api-auth/lambda_function.py:69-113 | a response is the policy for the parsed ARN, Allow exactly when the introspection's `active` is true, covering the caller |

## Left out

- S3, SSM and HTTP I/O are parameters: the bucket (a map to the decoded object text), the parameter store (a map), the introspection response (a function). `boto3` client construction, `download_fileobj`, `raise_for_status` and the response bodies are not modelled.
- UTF-8 decoding is not modelled: objects are given as text.
- `json.loads` and `json.dumps` are not modelled. Bodies are JSON values, and `json.loads` is a parameter of type `Json -> Result<Json, Error>`.
- `csv.DictReader` is a parameter. Only the empty-cell normalisation is proved.
- `splitlines` is modelled with '\n' as the only line break.
- `str()` of non-str values is an approximation of Python's repr: no string escaping, no floats.
- `print` logging is left out.
- The lambda responses of bag-to-opensearch and the REST API (`statusCode`, `body`) are left out: they read the HTTP response.
- The model stops at the request each lambda sends.
- `get_ayr_role_map_list` (env or SSM, then `json.loads`) is I/O: the role map list is passed in as a value.
- get_parameter_store_key_value is a map lookup.
- `BagFileMapper` is modelled as a value (`BagFiles`) built by `MapBagFiles`, because its fields are only assigned inside `__init__`.
- `S3BagReader` is the datatype `Reader`, because nothing updates it after construction.
- The exception messages are modelled as error constructors, not formatted text.
- OpenSearchHost: the REST API carries its own copy of these settings (da-ayr-rest-api/aws_lambda.py:21-79). The copy is identical, so it is modelled once.
- RestApiAuth.Effect: states only that the effect is Allow or Deny. EffectAllowIff carries the iff.
- IndexerExample.TestExpectedData: the expected record is proved under the hypothesis that every S3 read succeeds, because the bucket content is a parameter.
- The receiver, unpacker and local run scripts are not part of this model.
- EventString, EventStrings: the indexer's event values are taken to be a str and a list of str, and any other value is a TypeError at the read. In the code a non-str `s3_bucket` fails only later, inside `get_object`; a non-str `bag_name` fails at `removesuffix` with AttributeError; and `unpacked_files` may be any iterable, each element passed through `str()`.
- SubFilesFrom: a sub-file missing from the bucket is modelled as NoSuchKey. In the code `download_fileobj` raises botocore's ClientError (404) instead.

## Findings

| source | as written | input that shows it | evidently intended | confidence | as-written member | corrected member |
|---|---|---|---|---|---|---|
| lib/s3_bag_reader.py:63-83 | the seven root-name tests are separate `if`s and only the last joins the `elif '/' … else` chain, so every root file except `tagmanifest-sha256.txt` reaches the strict-mode raise | `file_list=['bag-info.txt']`, `path_prefix=''`, `only_expected_root_files=True` raises "unexpected file in bag root" | in strict mode only unknown root-level files raise | not executed | BagFileMapper.StrictModeRejectsBagInfo | BagFileMapper.ClassifyIntendedStrict |
| da-ayr-bag-to-opensearch/lambda_function.py:87-165 | `lambda_handler` never calls `validate_event`, so a record without `ayr_role` or `bag_s3_url` is PUT into the index | an event holding only `bag_data` with `bag-info.txt` and `Internal-Sender-Identifier` | validate the record first, as the indexer and the role assigner do | not executed | BagToOpenSearch.UpsertSkipsValidation | BagToOpenSearch.ValidatedUpsertRequestValid |
| da-ayr-rest-api/aws_lambda.py:141-148 | `raise f'No Keycloak context; …'` raises a str, which Python rejects with a TypeError, so the message naming the missing key is lost | an event without `requestContext` | raise an exception naming the missing key | not executed | RestApi.RealmRolesAsWrittenNoContext | RestApi.RealmRolesMissing |
