# Duplicate finder: a Dafny model of the index and the scan pages

DuplicateFinder finds files with identical contents below the folders a user
picks. Two parts are modelled here.

- **FileHashRepository** is a content index. `ScannedFileStore` walks each
  chosen root, hashes every file and records a `ScannedFile` (hash, full
  path, name) through `FileHashService`. The service also records the root
  as a `ScannedLocation`. A rescan reconciles the index with the disk, and
  the store reports progress as `index * 100 / total`.
- **DuplicateFinder** is the WPF client. The home page keeps the list of
  chosen locations. The scan page, like `ScanningController`, splits that
  list into new, still-chosen and dropped locations:
  - it purges the dropped locations, scans the new ones and rescans the rest;
  - it shows progress through a `ScanningProgress` that divides each value
    and adds an offset;
  - it then reads back every file whose hash occurs more than once.

  The result page shows one row per such file, with a background band that
  flips whenever the hash changes. `ResultPageModel` handles the flattening
  and removal of groups of duplicates.

The model has one module per source class. Imperative classes are Dafny
classes whose methods are proved against specification functions:
`DataCache`, `FileHashService`, `ScannedFileStore`, `ScanningProgress`, the
three view models, `ResultPageModel` and `ScanningController`. The records
are datatypes: `ScannedFile`, `ScannedLocation`, `ScanLocation`,
`ScanResult`, `FileModel` and `DuplicateResultModel`.

These parts become inputs:
- the file system (file listing, existence, full path, name, contents);
- the SHA-256 digest;
- the folder dialog's answer;
- the string hash function.

An exception becomes an `Outcome`/`Result` value. A logger becomes a count of
the errors logged. A progress control becomes the sequence of values it was
given.

## Model

| member | source | states |
|---|---|---|
| DataCaches.DataCache.constructor | FileHashRepository/DataCache.cs:13-16 | the cache holds exactly the given records |
| DataCaches.DataCache.InsertData | FileHashRepository/DataCache.cs:19-22 | the record is appended at the end; nothing else changes |
| DataCaches.DataCache.PurgeData | FileHashRepository/DataCache.cs:29-32 | the cache keeps the records not purged, each once, in first-occurrence order (LINQ `Except`) |
| DataCaches.PurgeOfListedEmpties | FileHashRepository/DataCache.cs:29-32 | purging everything listed empties the cache |
| DataCaches.PurgeOfNothingCollapsesRepeats | FileHashRepository/DataCache.cs:29-32 | purging nothing still collapses repeated records, because `Except` is a set operation |
| DataCaches.PurgeOfLastAppended | FileHashRepository/DataCache.cs:19-32 | purging the record just appended to duplicate-free records restores them |
| DataCaches.PurgeExample | FileHashRepository.Tests/DataCacheTest.cs:48-68 | purging "testing" from the four test records leaves the other three, in order |
| SqlQuery.TrimEnd | FileHashRepository/Utilities/SqlQuery.cs:31 | the result is a prefix of the input that does not end in the character, and everything cut off is that character |
| SqlQuery.FormatSqlQuery | FileHashRepository/Utilities/SqlQuery.cs:23-33 | fails with `ArgumentException` exactly when the path is shorter than three characters |
| SqlQuery.TrimEndKeepsUnterminated | FileHashRepository/Utilities/SqlQuery.cs:31 | a path not ending in a backslash is kept whole, inner backslashes included |
| SqlQuery.TrimEndAbsorbs | FileHashRepository/Utilities/SqlQuery.cs:31 | one more trailing backslash changes nothing, and trimming is idempotent |
| SqlQuery.TrimEndSplits | FileHashRepository/Utilities/SqlQuery.cs:31 | the input is the trimmed path followed by a run of backslashes only |
| SqlQuery.FormatOnePlaceholder | FileHashRepository/Utilities/SqlQuery.cs:32 | a template with one `{0}` becomes its text with the argument in place of `{0}` |
| SqlQuery.FormatSqlQueryFillsTrimmedPath | FileHashRepository/Utilities/SqlQuery.cs:23-33 | a valid path yields the template filled with the path minus its trailing backslashes |
| SqlQuery.RootDriveExample | FileHashRepository.Tests/UtilitiesTest.cs:36-48 | `C:\` gives `... = C:\`: the drive's own backslash is trimmed and the template's remains |
| SqlQuery.DirectoryExamples | FileHashRepository.Tests/UtilitiesTest.cs:51-78 | a directory with or without one trailing backslash fills in the same text |
| SqlQuery.TrailingRunAndShortExamples | FileHashRepository.Tests/UtilitiesTest.cs:81-107 | `foo\\\` becomes `foo`; a two-character path is refused |
| SqlQuery.AllBackslashPathPasses | FileHashRepository/Utilities/SqlQuery.cs:26-32 | the length check runs before trimming, so `\\\` passes and fills in the empty string |
| ScannedFileHashComparer.SequenceEqual | DuplicateFinder/Utilities/ScannedFileHashComparer.cs:31 | element-by-element comparison is true exactly when the contents are equal |
| ScannedFileHashComparer.Equals | DuplicateFinder/Utilities/ScannedFileHashComparer.cs:14-32 | two hashes are equal exactly when both are null, or both are arrays with equal contents |
| ScannedFileHashComparer.ToInt32 | DuplicateFinder/Utilities/ScannedFileHashComparer.cs:52 | four bytes read little-endian as two's complement land in the 32-bit range |
| ScannedFileHashComparer.GetHashCode | DuplicateFinder/Utilities/ScannedFileHashComparer.cs:34-53 | the code is the first four bytes as an `Int32`, with a short array first copied into a zeroed four-byte buffer |
| ScannedFileHashComparer.NullRules | DuplicateFinder.Tests/ScannedFileHashComparerTest.cs:51-80 | null equals null; null and an array are never equal, in either order |
| ScannedFileHashComparer.DifferentLengthsNeverEqual | DuplicateFinder/Utilities/ScannedFileHashComparer.cs:26-29 | arrays of different lengths are never equal |
| ScannedFileHashComparer.SamePrefixNotEqual | DuplicateFinder.Tests/ScannedFileHashComparerTest.cs:135-160 | arrays that agree on the first four bytes but differ later are not equal |
| ScannedFileHashComparer.EqualArraysEqualHashCodes | DuplicateFinder/Utilities/ScannedFileHashComparer.cs:14-53 | equal arrays have equal hash codes, so the comparer is consistent |
| ScannedFileHashComparer.ToInt32Injective | DuplicateFinder/Utilities/ScannedFileHashComparer.cs:52 | different four-byte prefixes never share an `Int32` |
| ScannedFileHashComparer.HashCodeIsPrefixCode | DuplicateFinder/Utilities/ScannedFileHashComparer.cs:34-53 | two hash codes are equal exactly when the zero-padded four-byte prefixes are |
| ScannedFileHashComparer.HashCodeExamples | DuplicateFinder.Tests/ScannedFileHashComparerTest.cs:11-48 | 01 02 03 04 and 04 03 02 01 give different codes; a two-byte array is zero-padded |
| ScannedFiles.Equals | FileHashRepository/Model/ScannedFIle.cs:16-26 | equal name, equal path and content-equal hash: exactly equality of the whole record |
| ScannedFiles.HashCodeOfPathAlone | FileHashRepository/Model/ScannedFIle.cs:28-31 | the code depends on the path alone, whatever the string hash: records at one path collide |
| ScannedFiles.EqualRecordsHashAlike | FileHashRepository/Model/ScannedFIle.cs:28-31 | records that are `Equals` have equal hash codes, whatever the string hash |
| ScannedFiles.DifferentHashesUnequal | FileHashRepository.Tests/ScannedFileTest.cs:36-59 | records differing in one hash byte are unequal |
| ScannedFiles.DifferentNamesUnequal | FileHashRepository.Tests/ScannedFileTest.cs:62-85 | records differing in name are unequal |
| ScannedFiles.DifferentPathsUnequal | FileHashRepository.Tests/ScannedFileTest.cs:88-111 | records differing in path are unequal |
| ScannedLocations.EqualsIffSamePath | FileHashRepository/Model/ScannedLocation.cs:11-18 | locations are equal exactly when their paths are; the id plays no part |
| ScannedLocations.EqualsIsEquivalence | FileHashRepository/Model/ScannedLocation.cs:11-18 | location equality is reflexive, symmetric and transitive |
| FileHashService.BackslashFromEnd | FileHashRepository/FileHashService.cs:65 | `CHARINDEX('\', REVERSE(path))` is 0 exactly when there is no backslash, else the 1-based position of the last one counted from the end |
| FileHashService.DirectoryIsBeforeLastBackslash | FileHashRepository/FileHashService.cs:65 | the `[Directory]` column is the text before the last backslash, or the whole path when it has none |
| FileHashService.InLocationIff | FileHashRepository/FileHashService.cs:63-68 | the WHERE clause selects a path exactly when it continues the location with a backslash (or has no backslash and is the location) |
| FileHashService.ListFilePathsInStep | FileHashRepository/FileHashService.cs:76-80 | each further location appends its query result, or fails the listing with its statement's error (`ArgumentException` for a short path, `SqlException` for a quote) |
| FileHashService.Statement | FileHashRepository/FileHashService.cs:63-79 | a statement runs exactly for a path of three characters or more with no quote once trimmed, and then selects by the trimmed path; a short path raises `ArgumentException`, a quote `SqlException` |
| FileHashService.FirstInvalid | FileHashRepository/FileHashService.cs:76-80 | the index of the first invalid location path, with every path before it valid |
| FileHashService.ListFilePathsInFailureSticks | FileHashRepository/FileHashService.cs:77-80 | once one location fails, the listing fails whatever follows |
| FileHashService.PurgeFilesInStep | FileHashRepository/FileHashService.cs:116-119 | each further location runs its DELETE, or stops the purge with its error |
| FileHashService.PurgeFilesInFailureSticks | FileHashRepository/FileHashService.cs:116-119 | after a failing DELETE, later locations change nothing |
| FileHashService.InsertFileIdempotent | FileHashRepository/FileHashService.cs:30-37 | after an insert the file is stored; inserting it again changes nothing |
| FileHashService.InsertFileKeepsNoDuplicates | FileHashRepository/FileHashService.cs:30-37 | inserting keeps the files free of repeated records and adds exactly the new one |
| FileHashService.InsertLocationKeepsUniquePaths | FileHashRepository/FileHashService.cs:43-50 | inserting keeps location paths unique, stores the path, and grows the list by one only when the path was new |
| FileHashService.ListFilePathsInIsConcatenation | FileHashRepository/FileHashService.cs:60-84 | with every path valid (three characters or more, no quote once trimmed) the listing is each location's query result, in order; otherwise it fails at the first invalid path, with `ArgumentException` when that path is short and `SqlException` when it holds a quote |
| FileHashService.ListFilePathsOfValid | FileHashRepository/FileHashService.cs:76-80 | a list of valid locations lists the concatenated query results |
| FileHashService.PurgeFilesInKeepsOutside | FileHashRepository/FileHashService.cs:113-120 | with valid paths the purge keeps exactly the files outside every location, in order |
| FileHashService.PurgeFilesInStopsAtFirstInvalid | FileHashRepository/FileHashService.cs:104-119 | a purge fails at its first invalid path, with `ArgumentException` for a short path and `SqlException` for a quote, after the earlier DELETEs have run |
| FileHashService.PurgeForgetsLocations | FileHashRepository/FileHashService.cs:101-125 | a valid purge keeps exactly the locations not listed and the files outside every listed location |
| FileHashService.RemoveByPathCount | FileHashRepository/FileHashService.cs:132-138 | removal drops exactly the records with that path, and counts how many there were |
| FileHashService.DuplicatesExactly | FileHashRepository/FileHashService.cs:145-153 | a file is reported as a duplicate exactly when its hash occurs more than once among the stored files |
| FileHashService.ListScenario | FileHashRepository.Tests/FileHashServiceTest.cs:574-629 | listing `C:\Foo` over the five test records returns the two paths below it, not `C:\FooBar\...` or `C:\Bar\...` |
| FileHashService.PurgeScenario | FileHashRepository.Tests/FileHashServiceTest.cs:87-149 | purging `C:\Foo` keeps the three test records outside it, in order |
| FileHashService.TestFilesSplitByFoo | FileHashRepository.Tests/FileHashServiceTest.cs:87-149 | of the five test paths, exactly the first and third lie in `C:\Foo` |
| FileHashService.OneLocationListed | FileHashRepository/FileHashService.cs:76-80 | listing one valid location without a trailing backslash or quote returns exactly the paths its one query selects |
| FileHashService.OneLocationPurged | FileHashRepository/FileHashService.cs:116-119 | purging one valid location without a trailing backslash or quote keeps exactly the files outside it, and passes |
| FileHashService.QuotedLocationListed | FileHashRepository/FileHashService.cs:63-79 | listing `C:\it's` fails with `SqlException`: the quote ends the string literal the path is pasted into |
| FileHashService.QuotedLocationPurged | FileHashRepository/FileHashService.cs:104-119 | purging `C:\Foo` and then `C:\it's` fails with `SqlException` after the DELETE for `C:\Foo` has run |
| FileHashService.TestPathsBelowFoo | FileHashRepository.Tests/FileHashServiceTest.cs:87-149 | the files directly and further below `C:\Foo` lie in it |
| FileHashService.FileHashService.constructor | FileHashRepository/FileHashService.cs:16-19 | the service starts with the given files and locations |
| FileHashService.FileHashService.ScannedFilesContains | FileHashRepository/FileHashService.cs:160-173 | the loop answers whether some stored file `Equals` the given one |
| FileHashService.FileHashService.ScannedLocationsContains | FileHashRepository/FileHashService.cs:180-193 | the loop answers whether some stored location `Equals` the given one |
| FileHashService.FileHashService.InsertScannedFile | FileHashRepository/FileHashService.cs:30-37 | the file is appended unless an equal one is stored; the locations are untouched |
| FileHashService.FileHashService.InsertScannedLocation | FileHashRepository/FileHashService.cs:43-50 | the location is appended unless one with its path is stored; the files are untouched |
| FileHashService.FileHashService.ListScannedFilePaths | FileHashRepository/FileHashService.cs:60-84 | null lists every path; a list yields the per-location results in order, or the error of the first invalid location (short, or holding a quote) |
| FileHashService.FileHashService.PurgeScannedLocations | FileHashRepository/FileHashService.cs:101-125 | null empties both sets; a list deletes the files location by location, then the listed locations, stopping at the first path that is short or holds a quote |
| FileHashService.FileHashService.RemoveScannedFilesByFilePath | FileHashRepository/FileHashService.cs:132-138 | removes every record with exactly this path and returns how many were removed |
| ScannedFileStores.RescanTotal | FileHashRepository/ScannedFileStore.cs:121-125 | the number of progress steps is the number of additions plus the number of removals |
| ScannedFileStores.ScannedFileStore.constructor | FileHashRepository/ScannedFileStore.cs:23-27 | the store works over the given file system and service |
| ScannedFileStores.ScannedFileStore.PurgeLocations | FileHashRepository/ScannedFileStore.cs:47-51 | the service's purge, passed through |
| ScannedFileStores.ScannedFileStore.ScanFile | FileHashRepository/ScannedFileStore.cs:178-195 | an existing file's record is inserted and a missing one skipped; a file that cannot be hashed raises before the insert and the report; otherwise, with a reporter, `index * 100 / total` is reported, and a zero total raises `DivideByZeroException` |
| ScannedFileStores.ScannedFileStore.RemoveFile | FileHashRepository/ScannedFileStore.cs:203-211 | the records at the path are removed, then the step is reported as for `ScanFile` |
| ScannedFileStores.ScannedFileStore.GetFiles | FileHashRepository/ScannedFileStore.cs:64-68 | the listings of the roots, concatenated in order; the first root that cannot be listed raises |
| ScannedFileStores.ScannedFileStore.RecordLocations | FileHashRepository/ScannedFileStore.cs:77-84 | one location record per root, inserted in order; the files are untouched |
| ScannedFileStores.ScannedFileStore.ScanAll | FileHashRepository/ScannedFileStore.cs:70-75 | scans the paths in order and reports steps `done+1 ..`, continuing the counter, up to the first file that cannot be read, whose error it raises with the earlier files stored and reported |
| ScannedFileStores.ScannedFileStore.RemoveAll | FileHashRepository/ScannedFileStore.cs:133-136 | removes every path in order, continuing the same progress counter |
| ScannedFileStores.ScannedFileStore.ScanLocations | FileHashRepository/ScannedFileStore.cs:58-85 | purge the roots, list their files, scan each with one progress step, then record the roots; a failing purge or listing stops there, and a file that cannot be read stops the run with the earlier files stored and reported and no root recorded |
| ScannedFileStores.ScannedFileStore.ScanFound | FileHashRepository/ScannedFileStore.cs:70-84 | the `ScanFile` loop over the files found, then the roots, recorded only if every file could be read |
| ScannedFileStores.ScannedFileStore.RescanLocations | FileHashRepository/ScannedFileStore.cs:93-146 | list the stored paths and the disk, scan the additions, remove the removals, record the roots; a failed lookup changes nothing, and an addition that cannot be read stops the run before any removal |
| ScannedFileStores.ScannedFileStore.Reconcile | FileHashRepository/ScannedFileStore.cs:120-145 | the rescan after both lookups: additions scanned, removals removed, one counter over both, roots recorded; an addition that cannot be read raises with the earlier additions stored, nothing removed and no root recorded |
| ScannedFileStores.RescanSpecFails | FileHashRepository/ScannedFileStore.cs:104-118 | a rescan whose lookup fails leaves the index unchanged, reports nothing, and returns the listing's error first |
| ScannedFileStores.MakeScannedFile | FileHashRepository/ScannedFileStore.cs:182-186 | the record holds the file name, the full path and the digest of the contents; when the contents cannot be read, hashing raises that error |
| ScannedFileStores.ScanPaths | FileHashRepository/ScannedFileStore.cs:70-75 | a run of `ScanFile` calls gets through all its paths exactly when it ends normally |
| ScannedFileStores.ScanPathsFailureSticks | FileHashRepository/ScannedFileStore.cs:71-75 | once a file cannot be read, later paths change nothing |
| ScannedFileStores.EnumerateFailureSticks | FileHashRepository/ScannedFileStore.cs:65-68 | a root that cannot be listed fails the whole enumeration |
| ScannedFileStoreProperties.ProgressValues | FileHashRepository/ScannedFileStore.cs:189-194 | step k of a total reports `k * 100 / total`, always within 0..100 |
| ScannedFileStoreProperties.ProgressMonotone | FileHashRepository/ScannedFileStore.cs:70-75 | the reported percentages never decrease |
| ScannedFileStoreProperties.ProgressEndsAtHundred | FileHashRepository/ScannedFileStore.cs:70-75 | a finished run of at least one step ends on 100 |
| ScannedFileStoreProperties.HundredFileReports | FileHashRepository.Tests/ScannedFileStoreTest.cs:54-84 | over a hundred files, the fiftieth report is 50 and the last 100 |
| ScannedFileStoreProperties.ReportStepCases | FileHashRepository/ScannedFileStore.cs:189-194 | no reporter never fails; a reporter with a zero total raises; otherwise one percentage within 0..100 |
| ScannedFileStoreProperties.ReportStepExamples | FileHashRepository.Tests/ScannedFileStoreTest.cs:388-441 | step 1 of 10 reports 10 and step 1 of 1 reports 100 |
| ScannedFileStoreProperties.ScannedLast | FileHashRepository/ScannedFileStore.cs:178-188 | a record comes from a list of paths exactly when it comes from the earlier paths or from the last one |
| ScannedFileStoreProperties.ScannablePrefix | FileHashRepository/ScannedFileStore.cs:180-186 | the number of leading paths that are missing or readable: every path before it is, and the path at it exists and cannot be read |
| ScannedFileStoreProperties.ScannablePrefixUnique | FileHashRepository/ScannedFileStore.cs:180-186 | only one count has both properties of `ScannablePrefix` |
| ScannedFileStoreProperties.ScanPathsStopsAtUnreadable | FileHashRepository/ScannedFileStore.cs:70-75 | a scan gets through exactly the leading scannable paths, and when it stops short raises the error of the file it could not read |
| ScannedFileStoreProperties.ScanPathsContents | FileHashRepository/ScannedFileStore.cs:178-188 | scanning keeps every stored record, adds those of the existing paths it got through, and never stores one twice |
| ScannedFileStoreProperties.RemovePathsContents | FileHashRepository/ScannedFileStore.cs:203-206 | removing a list of paths keeps exactly the records at none of them |
| ScannedFileStoreProperties.InsertLocationPaths | FileHashRepository/FileHashService.cs:43-50 | after one insertion the location paths are the old ones plus the new one |
| ScannedFileStoreProperties.InsertLocationsContents | FileHashRepository/ScannedFileStore.cs:77-84 | recording the roots stores every root, keeps every stored path and never repeats one |
| ScannedFileStoreProperties.ForgetLocationPaths | FileHashRepository/FileHashService.cs:115-122 | the location paths left by a purge are the old ones not listed |
| ScannedFileStoreProperties.ScanSpecContents | FileHashRepository/ScannedFileStore.cs:58-85 | a scan over valid, listable roots keeps the records outside them and adds those of the files before the first unreadable one, reporting once for each; it succeeds and records every root exactly when every file can be read, and otherwise raises that file's error and keeps only the locations not purged |
| ScannedFileStoreProperties.ScanSpecKeepsIndexClean | FileHashRepository/ScannedFileStore.cs:58-85 | a scan keeps the index free of repeated records and repeated location paths |
| ScannedFileStoreProperties.FilterKeepsUniquePaths | FileHashRepository/FileHashService.cs:115-122 | dropping locations keeps their paths unique |
| ScannedFileStoreProperties.ScanSpecStopsAtInvalidRoot | FileHashRepository/ScannedFileStore.cs:58-61 | a scan with an invalid root fails, with `ArgumentException` for a short root and `SqlException` for a quote, after purging the roots before it, recording nothing and reporting nothing |
| ScannedFileStoreProperties.ScanStopsAtUnreadableFile | FileHashRepository/ScannedFileStore.cs:58-85 | a root listing `a` then `b`, with `b` unreadable: over an empty index the scan stores `a`, reports 50, raises `b`'s error and records no root |
| ScannedFileStoreProperties.RescanContents | FileHashRepository/ScannedFileStore.cs:93-146 | a rescan that succeeds (every addition readable) leaves the stored and newly scanned records minus those at removed paths and records every root; one that stops at an unreadable addition raises its error, keeps every stored record plus the additions before it, and records nothing |
| ScannedFileStoreProperties.RescanKeepsFilesStillOnDisk | FileHashRepository.Tests/ScannedFileStoreTest.cs:304-349 | a record whose file is still on disk survives the rescan; one whose listed file has gone is dropped by a rescan that succeeds |
| ScannedFileStoreProperties.RescanOfUnchangedDisk | FileHashRepository/ScannedFileStore.cs:120-136 | when the disk holds exactly the listed files, the rescan succeeds, changes no record and reports nothing |
| ScannedFileStoreProperties.NothingExcepted | FileHashRepository/ScannedFileStore.cs:121-123 | `Except` of a covered list is empty |
| ScannedFileStoreProperties.FiftyAddedFiftyRemoved | FileHashRepository.Tests/ScannedFileStoreTest.cs:195-245 | 50 additions and 50 removals report a hundred steps, the fiftieth 50 and the last 100 |
| ScanningProgresses.ReportValue | DuplicateFinder/Utilities/ScanningProgress.cs:34-39 | the shown value is `value / Divisor` (truncating) plus `Addend`, or 100 when that is larger |
| ScanningProgresses.Scaled | DuplicateFinder/Utilities/ScanningProgress.cs:27-42 | a run of reports shows one value per report, each its `ReportValue` |
| ScanningProgresses.ScanningProgress.constructor | DuplicateFinder/Utilities/ScanningProgress.cs:14-19 | the given addend and divisor, with nothing shown yet |
| ScanningProgresses.ScanningProgress.Report | DuplicateFinder/Utilities/ScanningProgress.cs:27-42 | a zero divisor raises `DivideByZeroException` and shows nothing; otherwise exactly one value is shown |
| ScanningProgresses.ScanningProgress.ReportAll | DuplicateFinder/Utilities/ScanningProgress.cs:27-42 | reporting a run shows its scaled values in order, or raises on the first report when the divisor is zero |
| ScanningProgresses.PassThrough | DuplicateFinder.Tests/ScanningProgressTest.cs:13-38 | with no addend and divisor 1 a percentage passes unchanged, and anything above 100 shows 100 |
| ScanningProgresses.ReportValueMonotone | DuplicateFinder/Utilities/ScanningProgress.cs:34-39 | for a positive divisor, larger raw values never show less |
| ScanningProgresses.HalvesOfTheBar | DuplicateFinder/ViewModels/ScanPageViewModel.cs:97-128 | with divisor 2 the scan phase stays in 0..50 and the rescan phase in 50..100; `Report(100)` fills the bar |
| ScanningProgresses.DivisionPrecedesAddition | DuplicateFinder/Utilities/ScanningProgress.cs:34 | the division applies to the value alone: 100 at offset 50 over 2 shows 100, not 75 |
| ScanningProgresses.ReportExamples | DuplicateFinder.Tests/ScanningProgressTest.cs:13-67 | the tests' figures: 69 gives 69, 9001 gives 100, 100 over 2 gives 50, 1 at offset 50 gives 51 |
| ScanningProgresses.ReportValueAtLeastAddend | DuplicateFinder/Utilities/ScanningProgress.cs:34-39 | a non-negative value never shows less than the addend |
| ScanningProgresses.ScaledBounds | DuplicateFinder/Utilities/ScanningProgress.cs:34-39 | every shown value of a run lies between the addend and 100 |
| ScanLocations.EqualsIffPathsIgnoringCase | DuplicateFinder/Models/ScanLocation.cs:14-34 | a null other is never equal; otherwise paths are compared ignoring case, and two null paths are equal |
| ScanLocations.EqualsIsEquivalence | DuplicateFinder/Models/ScanLocation.cs:14-29 | location equality is reflexive, symmetric and transitive |
| ScanLocations.NullPathHashesToZero | DuplicateFinder/Models/ScanLocation.cs:36-45 | a null path hashes to 0; `ToString` is the path itself |
| ScanLocations.EqualLocationsHashAlike | DuplicateFinder/Models/ScanLocation.cs:14-40 | a case-insensitive hash code agrees with `Equals` (corrected) |
| ScanLocations.HashCodeDisagreesWithEquals | DuplicateFinder/Models/ScanLocation.cs:28-40 | `C:\Foo` and `c:\FOO` are equal yet hash differently (as written) |
| ScanResults.EqualsIffPathsIgnoringCase | DuplicateFinder/Models/ScanResult.cs:26-46 | a null other is never equal; otherwise file paths are compared ignoring case |
| ScanResults.OtherFieldsIgnored | DuplicateFinder/Models/ScanResult.cs:26-41 | hash, selection and colour play no part in equality |
| ScanResults.EqualsIsEquivalence | DuplicateFinder/Models/ScanResult.cs:26-41 | row equality is reflexive, symmetric and transitive |
| ScanResults.NullPathHashesToZero | DuplicateFinder/Models/ScanResult.cs:48-57 | a null path hashes to 0; `ToString` is the path itself |
| ScanResults.EqualResultsHashAlike | DuplicateFinder/Models/ScanResult.cs:26-52 | a case-insensitive hash code agrees with `Equals` (corrected) |
| ScanResults.HashCodeDisagreesWithEquals | DuplicateFinder/Models/ScanResult.cs:40-52 | rows for `C:\Foo` and `c:\FOO` are equal yet hash differently (as written) |
| ResultPageModels.RemoveMatchingFiles | DuplicateFinder/Models/ResultPageModel.cs:33-44 | collecting the files at the path and then removing each one leaves exactly the other files, in order |
| ResultPageModels.ResultPageModel.constructor | DuplicateFinder/Models/ResultPageModel.cs:8 | the model holds the given groups |
| ResultPageModels.ResultPageModel.RemoveFileModelFromModel | DuplicateFinder/Models/ResultPageModel.cs:25-54 | every group loses its files at the path, and groups left empty are removed |
| ResultPageModels.ResultPageModel.StripGroups | DuplicateFinder/Models/ResultPageModel.cs:31-49 | the outer loop strips each group in place and collects exactly the groups left empty |
| ResultPageModels.FlattenedCountsEveryFile | DuplicateFinder/Models/ResultPageModel.cs:14-17 | the flattening has one path per file |
| ResultPageModels.FlattenedMembers | DuplicateFinder/Models/ResultPageModel.cs:14-17 | a path is in the flattening exactly when some file of some group has it |
| ResultPageModels.StrippedPaths | DuplicateFinder/Models/ResultPageModel.cs:33-44 | the remaining files' paths are the group's paths other than the removed one |
| ResultPageModels.FlattenAfterRemoval | DuplicateFinder/Models/ResultPageModel.cs:14-54 | flattening after a removal is the old flattening minus exactly that path, order kept |
| ResultPageModels.RemovedLeavesNoMatch | DuplicateFinder/Models/ResultPageModel.cs:25-54 | after a removal no file has the path and no group is empty |
| ResultPageModels.UnmatchedPathKeepsGroups | DuplicateFinder.Tests/ResultPageModelTest.cs:99-152 | a path no file has keeps every non-empty group as it was |
| ResultPageViewModels.Flip | DuplicateFinder/ViewModels/ResultPageViewModel.cs:125 | `1 - color` gives the other colour |
| ResultPageViewModels.ColorName | DuplicateFinder/ViewModels/ResultPageViewModel.cs:18-22 | `ToString` of the enum is its member's name, "Transparent" exactly for `Transparent` |
| ResultPageViewModels.Colors | DuplicateFinder/ViewModels/ResultPageViewModel.cs:112-137 | one colour per file |
| ResultPageViewModels.Filter | DuplicateFinder/ViewModels/ResultPageViewModel.cs:65-76 | a non-row or a row whose path lacks the search text is rejected; anything else keeps its `Accepted` |
| ResultPageViewModels.ResultPageViewModel.constructor | DuplicateFinder/ViewModels/ResultPageViewModel.cs:82-103 | no rows, Recycle created enabled, Preview created disabled |
| ResultPageViewModels.ResultPageViewModel.AddScannedFiles | DuplicateFinder/ViewModels/ResultPageViewModel.cs:112-137 | appends one row per file, coloured by its band; the buttons are untouched |
| ResultPageViewModels.ResultPageViewModel.ToggleButtons | DuplicateFinder/ViewModels/ResultPageViewModel.cs:190-197 | rows enable both buttons; an empty page leaves them as they were |
| ResultPageViewModels.ColorsPrefix | DuplicateFinder/ViewModels/ResultPageViewModel.cs:112-137 | a file's colour depends only on the files before it |
| ResultPageViewModels.FirstColorTransparent | DuplicateFinder/ViewModels/ResultPageViewModel.cs:114-115 | the first file is always `Transparent` |
| ResultPageViewModels.ColorStep | DuplicateFinder/ViewModels/ResultPageViewModel.cs:119-126 | a file flips its band exactly when the previous hash is non-null and differs from its own |
| ResultPageViewModels.EqualHashesShareColor | DuplicateFinder/ViewModels/ResultPageViewModel.cs:119-126 | neighbours with equal hashes share a band |
| ResultPageViewModels.DifferentHashesFlipColor | DuplicateFinder/ViewModels/ResultPageViewModel.cs:119-126 | neighbours with different non-null hashes are in different bands |
| ResultPageViewModels.NullHashKeepsColor | DuplicateFinder/ViewModels/ResultPageViewModel.cs:121 | the file after a null hash keeps the band |
| ResultPageViewModels.ResultsRows | DuplicateFinder/ViewModels/ResultPageViewModel.cs:127-133 | one row per file, in order, with path and hash copied, unselected, coloured by its band |
| ResultPageViewModels.BandingExample | DuplicateFinder.Tests/ViewModels/ResultPageViewModelTest.cs:130-152 | the test's six files, hashed A A B B C C, give Transparent, Transparent, DarkGray, DarkGray, Transparent, Transparent |
| ResultPageViewModels.EmptySearchAcceptsEveryRow | DuplicateFinder/ViewModels/ResultPageViewModel.cs:65-76 | an empty search text never rejects a row |
| ResultPageViewModels.FilterNeverAccepts | DuplicateFinder/ViewModels/ResultPageViewModel.cs:65-76 | the filter only rejects; it never turns a rejection into acceptance |
| HomePageViewModels.IndexOf | DuplicateFinder/ViewModels/HomePageViewModel.cs:76-92 | `Contains` and `Remove` search for the first index whose location `Equals` the item, or -1 exactly when none does |
| HomePageViewModels.RemoveAt | DuplicateFinder/ViewModels/HomePageViewModel.cs:92 | the list without the element at that index, others in order |
| HomePageViewModels.HomePageViewModel.constructor | DuplicateFinder/ViewModels/HomePageViewModel.cs:31-47 | no locations, no selection, Remove and Scan disabled; the page invariant holds |
| HomePageViewModels.HomePageViewModel.AddLocation | DuplicateFinder/ViewModels/HomePageViewModel.cs:67-83 | on OK the path is appended unless an equal location is listed; the buttons follow the list; distinctness is kept |
| HomePageViewModels.HomePageViewModel.RemoveLocation | DuplicateFinder/ViewModels/HomePageViewModel.cs:88-95 | the first location equal to the selection is removed; the buttons follow the list; distinctness is kept |
| HomePageViewModels.HomePageViewModel.ToggleButtons | DuplicateFinder/ViewModels/HomePageViewModel.cs:112-124 | Remove and Scan are enabled exactly when the list is not empty |
| HomePageViewModels.AddKeepsDistinct | DuplicateFinder/ViewModels/HomePageViewModel.cs:67-83 | adding never creates two equal locations |
| HomePageViewModels.RemoveKeepsDistinct | DuplicateFinder/ViewModels/HomePageViewModel.cs:88-95 | removing never creates two equal locations |
| HomePageViewModels.AddedPathListed | DuplicateFinder.Tests/ViewModels/HomePageViewModelTest.cs:15-26 | after an OK dialog the chosen path is listed |
| HomePageViewModels.CancelChangesNothing | DuplicateFinder.Tests/ViewModels/HomePageViewModelTest.cs:44-61 | a cancelled dialog changes nothing |
| HomePageViewModels.AddTwiceAddsOnce | DuplicateFinder.Tests/ViewModels/HomePageViewModelTest.cs:29-41 | adding the same path twice lists it once |
| HomePageViewModels.RemoveUndoesAdd | DuplicateFinder.Tests/ViewModels/HomePageViewModelTest.cs:79-92 | removing a location just added restores the list |
| HomePageViewModels.RemoveLeavesNoEqual | DuplicateFinder/ViewModels/HomePageViewModel.cs:88-95 | in a distinct list, removal leaves no location equal to the selection |
| HomePageViewModels.RemoveCount | DuplicateFinder.Tests/ViewModels/HomePageViewModelTest.cs:79-108 | removal takes one location away when an equal one is listed, none otherwise |
| HomePageViewModels.AddIgnoresCase | DuplicateFinder/Models/ScanLocation.cs:28 | `c:\FOO` is not added beside `C:\Foo` |
| LocationPartitions.PartitionMembers | DuplicateFinder/ScanningController.cs:43-50 | new = chosen but not scanned, rescan = scanned and chosen, purge = scanned but not chosen; the three are pairwise disjoint |
| LocationPartitions.PartitionCovers | DuplicateFinder/ScanningController.cs:43-50 | every chosen location is new or rescanned; every scanned one is rescanned or purged |
| LocationPartitions.SameChoiceOnlyRescans | DuplicateFinder/ViewModels/ScanPageViewModel.cs:108-115 | when the choice equals what was scanned, nothing is new or purged and everything is rescanned |
| LocationPartitions.PartitionExample | DuplicateFinder.Tests/ScanningControllerTest.cs:18-47 | choosing location1, location2 over scanned location1, purge gives purge [purge], new [location2], rescan [location1] |
| ScanSessions.RunSession | DuplicateFinder/ScanningController.cs:37-66 | the shared session: list, partition, purge, scan, rescan; the state, the shown values and the logged error are those of `Begin` |
| ScanSessions.RunScans | DuplicateFinder/ScanningController.cs:35-61 | the scan at offset 0 and then, if it succeeded, the rescan, as `ScanPhases` |
| ScanSessions.RunRescan | DuplicateFinder/ViewModels/ScanPageViewModel.cs:123-128 | the rescan through the same progress at offset 50, then the final `Report(100)` when asked, as `RescanPhase` |
| ScanSessions.ReportsArePercentages | FileHashRepository/ScannedFileStore.cs:189-194 | the reports of the first steps of a run, up to all of them, are non-decreasing values in 0..100 |
| ScanSessions.ScanReportsArePercentages | FileHashRepository/ScannedFileStore.cs:58-85 | a scan reports non-decreasing percentages, or nothing |
| ScanSessions.RescanReportsArePercentages | FileHashRepository/ScannedFileStore.cs:93-146 | a rescan reports non-decreasing percentages, or nothing |
| ScanSessions.ScaledMonotone | DuplicateFinder/Utilities/ScanningProgress.cs:34-39 | scaling keeps non-decreasing percentages non-decreasing |
| ScanSessions.FirstHalfBound | DuplicateFinder/Utilities/ScanningProgress.cs:34 | with divisor at least 2 and no offset, a percentage shows at most 50 |
| ScanSessions.ScanPhaseBounds | DuplicateFinder/ScanningController.cs:35-56 | the scan phase shows values in 0..50, in order |
| ScanSessions.RescanPhaseBounds | DuplicateFinder/ScanningController.cs:58-61 | the rescan phase shows values from 50 up to what 100 shows, in order |
| ScanSessions.ThirdsOfTheBar | DuplicateFinder/ScanningController.cs:35-61 | with divisor 3 the scan shows at most 33 and the rescan 50..83 |
| ScanSessions.SessionBarMonotone | DuplicateFinder/ViewModels/ScanPageViewModel.cs:97-128 | for divisor at least 2, a whole session's bar only moves forward within 0..100 |
| ScanSessions.ControllerBarBelowFull | DuplicateFinder/ScanningController.cs:35-61 | the controller's bar (divisor 3, no final report) never gets above 83 |
| ScanSessions.ScanPageEndsFull | DuplicateFinder/ViewModels/ScanPageViewModel.cs:97-128 | on the scan page a session without an exception ends with the bar at 100 |
| ScanSessions.ScanRecordsRoots | FileHashRepository/ScannedFileStore.cs:77-84 | a scan that succeeds records its roots beside the location paths it kept |
| ScanSessions.RescanRecordsRoots | FileHashRepository/ScannedFileStore.cs:138-145 | a rescan that succeeds records its roots beside every stored path |
| ScanSessions.SessionRecordsChoice | DuplicateFinder/ScanningController.cs:37-61 | after a session without an exception, the stored location paths are exactly the chosen ones |
| ScanSessions.UnchangedChoiceOnlyRescans | DuplicateFinder/ViewModels/ScanPageViewModel.cs:105-126 | re-running the stored choice purges and scans nothing: the session is the rescan of every location, at offset 50 |
| ScanningControllers.Grouped | DuplicateFinder/ScanningController.cs:76-88 | the result groups: one per distinct hash, in first-occurrence order |
| ScanningControllers.ScanningController.constructor | DuplicateFinder/ScanningController.cs:22-27 | the given locations and store; nothing shown or logged yet |
| ScanningControllers.ScanningController.BeginScan | DuplicateFinder/ScanningController.cs:33-67 | the session with divisor 3 and no final report; the control stays in 0..83; an exception is logged once; success leaves exactly the chosen locations recorded |
| ScanningControllers.ScanningController.RetrieveDuplicates | DuplicateFinder/ScanningController.cs:69-96 | the store's duplicates grouped by hash, each group as file models in order |
| ScanningControllers.GroupMembers | DuplicateFinder/ScanningController.cs:76-85 | group i is non-empty and holds exactly the file models of files with its hash |
| ScanningControllers.RetrievedGroups | DuplicateFinder/ScanningController.cs:76-88 | one non-empty group per distinct hash, with no hash twice; every file lands in a group |
| ScanningControllers.RetrievedGroupsArePairs | DuplicateFinder/ScanningController.cs:74-88 | over an index without repeated records, every group of the duplicate list has at least two files |
| ScanningControllers.FileInGroup | DuplicateFinder/ScanningController.cs:76-85 | every file's model lies in some result group |
| ScanningControllers.SameHashOneGroup | DuplicateFinder/ScanningController.cs:76-85 | records that all share one hash give one group holding all of them, in order |
| ScanningControllers.CollapsesEqualScannedFiles | DuplicateFinder.Tests/ScanningControllerTest.cs:50-88 | three records with equal hashes become one group of three, in order |
| ScanPageViewModels.PathsOf | DuplicateFinder/ViewModels/ScanPageViewModel.cs:95 | one path per location, in order |
| ScanPageViewModels.ScanPageViewModel.constructor | DuplicateFinder/ViewModels/ScanPageViewModel.cs:59-67 | no locations and the bar at 0 |
| ScanPageViewModels.ScanPageViewModel.BeginScan | DuplicateFinder/ViewModels/ScanPageViewModel.cs:93-134 | the session with divisor 2 and a final `Report(100)`; the bar ends on the last value, which is 100 unless an exception was logged; success records exactly the chosen locations |
| ScanPageViewModels.ScanPageViewModel.ShowLast | DuplicateFinder/ViewModels/ScanPageViewModel.cs:28-38 | after the action ran once per value, the bar shows the last one |
| ScanPageViewModels.ScanPageViewModel.RetrieveDuplicates | DuplicateFinder/ViewModels/ScanPageViewModel.cs:143-154 | the store's duplicate list |
| ScanPageViewModels.ScanPageViewModel.OnLoaded | DuplicateFinder/ViewModels/ScanPageViewModel.cs:72-77 | scan, keep the duplicates of the new index, and fill a fresh result page with one banded row per duplicate |
| ScanPageViewModels.HomePageLocationsHavePaths | DuplicateFinder/ViewModels/HomePageViewModel.cs:67-95 | the home page only ever lists locations with a path |
| ScanPageViewModels.SessionRecordsLocations | DuplicateFinder/ViewModels/ScanPageViewModel.cs:93-134 | a session that succeeds leaves recorded exactly the paths of the chosen locations |
| ScanPageViewModels.PathsOfMembers | DuplicateFinder/ViewModels/ScanPageViewModel.cs:95 | a path is sent to the store exactly when a location with that path is listed |

## Left out

- SHA-256 (`FileHash.ComputeFileHashAsync`) is left abstract: any function from contents to a 32-byte digest.
- The Entity Framework context, `SaveChangesAsync` and raw SQL execution become sequences that the service's methods update. The DELETE and SELECT statements are modelled by their WHERE clause.
- T-SQL `LIKE` is modelled as a literal prefix test; `%`, `_` and `[` inside a location path are not given their wildcard meaning. The database collation's case-insensitivity is not modelled, so the comparison is ordinal.
- FileHashService.Statement: any single quote in the trimmed location path is modelled as a statement the database rejects (`SqlException`). A path whose quotes all come in pairs would in fact parse and select by the path with each pair read as one quote, and a crafted path could form other valid SQL; neither is modelled.
- The file system (`IFileSystem`: listing, existence, full path, file name, contents) is a datatype of functions. Listing a root and reading a file each either succeed or raise; `Exists`, `GetFullPath` and `GetFileName` are taken not to raise. A file that is deleted between the listing and `ScanFile` is skipped, as `File.Exists` makes it.
- `RemoteFileStore`, `FileHashServiceFactory`, JSON persistence of `Model/ScanResult` and `Dispose` are not part of this model.
- Asynchrony is not modelled. `Task.WhenAll` in `RescanLocationsAsync` is modelled as the stored-path listing followed by the disk listing. When both fail, the listing's error is the one returned.
- `IProgress<int>` handed to the store is modelled as the sequence of values the store reports. The orchestrators pass those values through `ScanningProgress.ReportAll` after each store call, rather than as each one happens. The shown sequence is the same.
- `ScanningController` builds `new ScanningProgress(control, 0, 3)` from a `RangeBase`, while `ScanningProgress` takes an `Action<double>`. The model gives the controller an action that appends each value to the control's log.
- `double` is not modelled. `ScanningProgress` passes on `(double)(value / Divisor) + Addend`, and since the division is an integer one, every value shown is an integer.
- The doc comment of `ScanningProgress.Report` says it divides the sum of the value and the addend. The code divides the value alone. The model follows the code (see `DivisionPrecedesAddition`).
- C# 32-bit overflow of `index * 100` and of the progress sum is not modelled (integers are unbounded). This only matters past about 21 million files.
- Case-insensitive comparison (`InvariantCultureIgnoreCase`) is modelled as ASCII upper-case folding. Other Unicode case rules are not modelled.
- The string hash of `string.GetHashCode` is a parameter.
- WPF parts are not modelled:
  - commands, navigation, `PageLoaded`, `ShowScanPage`, `ShowResultPage`, the `ScanComplete` event;
  - the `SearchFilter` setter's view refresh and the collection view source;
  - `PreviewSelectionAsync` and `RecycleSelectionAsync`, which launch a process and recycle a file;
  - page code-behind and the folder dialog wrapper.

  The dialog's answer is an input.
- `AsyncCommand`, `DelegateCommand` and `BaseViewModel` are not modelled; `BaseViewModel` covers property-change notification.
- `FileModel` and `DuplicateResultModel` are modelled as value datatypes. Their C# declarations are not part of this model. Removing an object from a list by reference is modelled as removing the first equal value. For the lists `RemoveFileModelFromModel` builds, this gives the same result (proved as `RemoveEachOfFilter`).
- Loggers are modelled as the number of errors logged.
- ScanningControllers.ScanningController.RetrieveDuplicates: the store's `ListDuplicateFilesAsync` cannot fail in the model, so the catch path at `ScanningController.cs:90-93` is not reachable. The same holds for `ScanPageViewModel.cs:149-152`. A stored record with a null `Hash` would also reach that catch path: grouping calls the comparer's `GetHashCode` (`ScannedFileHashComparer.cs:40`, `ScanningController.cs:76`), which raises `NullReferenceException`, and the source then returns the empty list. Hashes are non-null values in the model; the scanner always sets one, so only an index filled by other means could hold such a record.
- ScanPageViewModels.ScanPageViewModel.BeginScan: requires every location to have a path. A null path would make the store's SQL formatting raise, which the model does not represent. `HomePageLocationsHavePaths` shows that the home page only ever creates locations with a path.
- ScanPageViewModels.ScanPageViewModel.constructor: `_returnDuplicatesResult` starts as null in the source and as the empty list in the model.
- ScannedFileHashComparer.GetHashCode: requires a non-null array; the source dereferences the argument and would raise `NullReferenceException`.
- The ScannedFile records in `FileHashRepository` compare hashes with a `ScannedFileHashComparer` from `FileHashRepository/Utilities`. That copy is not part of this model; the model uses the `DuplicateFinder/Utilities` comparer, whose `Equals` is content equality.
- `ReturnDuplicatesAsync` groups by hash in the database, which compares contents. The model groups by content equality. An in-memory LINQ `GroupBy` over `byte[]` would instead compare references.
- DataCaches.DataCache.PurgeData compares records with Dafny `==`, that is by value. C# `Except` uses `EqualityComparer<T>.Default`. `ScannedLocation` overrides `Equals` but not `GetHashCode` (`FileHashRepository/Model/ScannedLocation.cs:11-18`), so the hash set behind `Except` keeps its default hash code. Two equal locations that are different objects are then almost always treated as different, and for locations the source comes close to comparing references.
- FileHashService.Duplicates returns the duplicates in first-occurrence order. `ReturnDuplicatesAsync` (`FileHashService.cs:145-153`) groups and flattens in the database, where the row order is unspecified.
- The index the tests run over is `DataCache`, whose `PurgeData` uses `Except` and so collapses repeats. The main `FileHashService` uses EF `RemoveRange`, which does not. The service is modelled after `FileHashService.cs`, and `DataCache` separately.
- `ScanResult.Background` is a get-only property that always returns "Transparent". `AddScannedFiles` assigns it, so the model follows the view model, and the colour is a field of the row.
- The enum's second member is `DarkGray`, and the model uses the code's name.

## Findings

| source | as written | input that shows it | evidently intended | confidence | as-written member | corrected member |
|---|---|---|---|---|---|---|
| DuplicateFinder/Models/ScanLocation.cs:28-40 | `Equals` ignores case but `GetHashCode` hashes the path case-sensitively | `C:\Foo` and `c:\FOO`: equal, but with different hash codes under any string hash that tells them apart | equal locations hash alike, e.g. by hashing the upper-cased path | not executed | ScanLocations.HashCodeDisagreesWithEquals | ScanLocations.EqualLocationsHashAlike |
| DuplicateFinder/Models/ScanResult.cs:40-52 | `Equals` ignores case but `GetHashCode` hashes the file path case-sensitively | rows for `C:\Foo` and `c:\FOO`: equal, with different hash codes | equal rows hash alike | not executed | ScanResults.HashCodeDisagreesWithEquals | ScanResults.EqualResultsHashAlike |
