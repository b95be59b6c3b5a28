# Scan-and-report pipeline of a CI vulnerability scanner, in Dafny

The modelled program is a small continuous-integration helper. It walks a source
tree, sends each source file to a remote analysis service, and collects the
reported findings (vulnerability type, line, suggested fix). It fails the build
when any finding exists. A separate renderer turns the saved results into an
HTML dashboard.

The model covers the deterministic logic under that plumbing:

- `Wrappers` (`wrappers.dfy`): the `Option` and `Result` datatypes.
- `Collector` (`collector.dfy`): `getAllFilesInFolder`. The file
  system is a tree value (`Entry`): a directory is the ordered list its listing
  returns, a file has a name and a size. `GetAllFilesInFolder` is a recursive
  method with a loop, proved equal to the filtered depth-first walk
  `KeptPaths(Walk(dir, entries))`. The lemmas show that this walk returns
  exactly the qualifying files at any depth, in depth-first listing order.
- `Analysis` (`analysis.dfy`): the end of `scanFile`. The three service payloads
  are inputs (`ServiceReply`). `MergeFindings` is the positional merge, and
  JavaScript's `||` fallback is `OrElse` over `JsonValue` truthiness.
  `ScanFile` also covers the ways the function throws.
- `Orchestrator` (`orchestrator.dfy`): `main`. `RunScan` runs the collector,
  scans the files in order through a `service` parameter, keeps the
  successes, sets the flag and picks the exit code (1 when findings exist,
  0 otherwise). It is proved against the specification function `Successes`.
  Persisting the report is disabled in the source, so the run writes nothing.
- `Report` (`report.dfy`): `generateHtml`. `GenerateHtml` is the nested loop.
  It builds the ordered detail blocks (a `FileHeader` per result, a `Detail` per
  finding) and the severity and type tallies. It is proved against
  `BlocksOf`, `AllFindings` and `Tally`, whose properties are lemmas. The HTML
  text is not modelled.

## Model

| member | source | states |
|---|---|---|
| `Collector.ExtName` | Jenkinsfile/scanner/scanner.js:16 | the extension is empty exactly when no '.' follows the first character; otherwise it is the suffix from the last '.', with no other '.' in it |
| `Collector.GetAllFilesInFolder` | Jenkinsfile/scanner/scanner.js:9-21 | the returned list is the paths, in depth-first listing order, of the walked files whose extension is allowed and whose size is positive |
| `Collector.KeptPathsMembership` | Jenkinsfile/scanner/scanner.js:16-17 | a path is returned iff some walked file with that path passes the filter |
| `Collector.WalkIsUnder` | Jenkinsfile/scanner/scanner.js:11-17 | the walk meets exactly the regular files under the directory, at any depth; directories are never listed themselves |
| `Collector.CollectedExactly` | Jenkinsfile/scanner/scanner.js:7-19 | a path is collected iff it is the path of a regular file under the root, at any depth, with extension .js, .java or .cs and size > 0 |
| `Collector.CollectSplicesSubdirectory` | Jenkinsfile/scanner/scanner.js:11-17 | a sub-directory's results are spliced in at its position among its siblings |
| `Collector.ExampleTree` | Jenkinsfile/scanner/scanner.js:7-19 | a root with a.js (10 bytes), b.txt, an empty c.java and sub/d.cs (5 bytes) yields exactly a.js then sub/d.cs |
| `Analysis.MergeFindings` | Jenkinsfile/scanner/scanner.js:52-56 | one finding per type; finding i has type i, line i when it exists and is truthy, otherwise "N/A"; every finding has the same fix and no code excerpt |
| `Analysis.ScanFile` | Jenkinsfile/scanner/scanner.js:47-57 | succeeds iff the service answered, with a type array, and with a line array or no type; a service error is rethrown; a success carries the file's own path and the merged findings |
| `Analysis.MergeKeepsTypes` | Jenkinsfile/scanner/scanner.js:52-53 | projecting the types back out of the findings gives the type payload |
| `Analysis.MergeKeepsTruthyLines` | Jenkinsfile/scanner/scanner.js:54 | with a truthy line for every type, the findings' lines are the line payload cut to the number of types |
| `Analysis.ShortLinesBecomeNotAvailable` | Jenkinsfile/scanner/scanner.js:54 | a line payload shorter than the type payload raises no error, and findings past its end have line "N/A" |
| `Analysis.ExampleScan` | Jenkinsfile/scanner/scanner.js:50-57 | types ["Injection"], lines [3], fix "use safeEval" give the single finding (Injection, 3, use safeEval) |
| `Orchestrator.RunScan` | Jenkinsfile/scanner/scanner.js:60-95 | the results are the successful scans of the collected files in file order; the flag is set iff some result has a finding; the exit code is 1 iff the flag is set, else 0 |
| `Orchestrator.HasFindingsAppend` | Jenkinsfile/scanner/scanner.js:68-71 | appending a result sets the flag iff it was set or the new result has a finding |
| `Orchestrator.SuccessesAppend` | Jenkinsfile/scanner/scanner.js:65-84 | the results of a concatenated file list are the concatenation of the results |
| `Orchestrator.FailedFileIsSkipped` | Jenkinsfile/scanner/scanner.js:81-83 | a file whose scan throws is omitted, and the files after it are processed as if it were absent |
| `Orchestrator.SuccessesExactly` | Jenkinsfile/scanner/scanner.js:66-68 | a result is in the list iff some file scanned successfully to it |
| `Orchestrator.SuccessHasFile` | Jenkinsfile/scanner/scanner.js:67-68 | every listed result is the successful scan of some file |
| `Orchestrator.SuccessfulFileIsKept` | Jenkinsfile/scanner/scanner.js:67-68 | every successful scan is in the list |
| `Orchestrator.ResultsComeFromFiles` | Jenkinsfile/scanner/scanner.js:51 | every result's path is one of the scanned files |
| `Orchestrator.SuccessesLength` | Jenkinsfile/scanner/scanner.js:65-84 | there are never more results than files |
| `Report.DetailOf` | Jenkinsfile/scanner/generate_report.js:54-71 | a finding's block shows its type, line and fix, severity "High" in class "critical", and its code when truthy, else "N/A" |
| `Report.DetailsOf` | Jenkinsfile/scanner/generate_report.js:53-78 | one detail block per finding, block k from finding k |
| `Report.GenerateHtml` | Jenkinsfile/scanner/generate_report.js:6-79 | the page shows results.length files, the blocks of `BlocksOf`, Critical = number of findings with Medium = Low = 0, and a type tally whose keys are exactly the findings' types and whose count for t is the number of findings of type t |
| `Report.TallyCounts` | Jenkinsfile/scanner/generate_report.js:76 | the type tally has exactly the findings' types as keys, and the count of t is the number of findings of type t |
| `Report.LabelsAreKeys` | Jenkinsfile/scanner/generate_report.js:102 | the chart labels are the tally's keys, each once |
| `Report.TypeCountsSumToTotal` | Jenkinsfile/scanner/generate_report.js:97 | the type counts add up to the number of findings, the Critical count |
| `Report.BlocksFollowResults` | Jenkinsfile/scanner/generate_report.js:51-57 | the headers are the results' files in order; the detail blocks are those of all findings in result order, then finding order |
| `Report.OnlyCriticalBlocks` | Jenkinsfile/scanner/generate_report.js:54-55 | every detail block has severity "High" and class "critical"; "severe" and "moderate" never occur |
| `Report.ExitCodeMatchesCritical` | Jenkinsfile/scanner/scanner.js:89-91 | the build fails iff the report's Critical count is positive |
| `Report.ScannedFindingsShowNoCode` | Jenkinsfile/scanner/generate_report.js:64 | findings produced by the scanner show "N/A" as vulnerable code |
| `Report.FileWithoutTypesAddsNothing` | Jenkinsfile/scanner/generate_report.js:51-53 | a file with an empty type list adds its header and nothing to either tally |
| `Report.ExampleTallies` | Jenkinsfile/scanner/generate_report.js:75-76 | a page showing one file with three findings of one type and two of another, interleaved, has Critical 5, Medium 0 and Low 0, type tallies 3 and 2, and labels in first-occurrence order |
| `Report.RenderSavedResults` | Jenkinsfile/scanner/generate_report.js:139-146 | without saved results: exit code 1 and no page; otherwise the page shows the saved results |

## Left out

- Real file-system access (`readdirSync`, `statSync`, `readFileSync`, `existsSync`, `writeFileSync`): the tree, the service replies and the saved results are inputs.
- Symbolic links, special files and traversal errors: the tree has only regular files and directories. A traversal error would abort the whole run.
- `path.join` normalisation: a path is `dir + "/" + name`. The extension is taken from the entry name, which is the last component of the joined path. Listings never contain "." or "..".
- The HTTP calls and the `Promise.all` fan-out: `service(path)` stands for reading the file and the three replies. Malformed JSON and network errors become `Errored(message)`.
- JSON numbers are integers: floating-point line numbers and `NaN` are not modelled. A payload field of any other JSON shape than the expected array is not modelled.
- Console output and `process.exit`: the exit code is returned as a value.
- The HTML, CSS and chart text, the `hsl` colours, the percentage tooltip and `totalTime.toFixed(2)` (its value is the placeholder 0).
- Splicing `v.type` into emitted script source: the model counts the intended types, whatever their quoting. A type whose quote breaks its fragment also loses that fragment's Critical increment in the page; the model keeps it.
- Report.Tally: the page's `typeCounts` is a plain object, so it inherits from `Object.prototype`. For a type named after an inherited member ("toString", "constructor", "valueOf", "hasOwnProperty", ...) `typeCounts[t] || 0` picks up a function. The stored value then becomes a string with "1" appended, and the pie chart's `total` becomes a string. A type named "__proto__" is never stored and never listed. The model, `Report.TallyCounts` and `Report.GenerateHtml` count every type as an ordinary key, which is the count the design intends.
- Report.Labels: the model orders the pie chart's labels by first occurrence. JavaScript's `Object.keys` lists integer-like keys (such as "42") first, in numeric order.
- Report.GenerateHtml: the tallies are kept by script fragments that the page runs in emission order. The model applies each increment where its fragment is emitted.
- Report.Bump: a severity other than High, Medium or Low would create a new bucket in JavaScript. The renderer always uses "High", so the model has only those three.
- JSON parsing of the saved results: `RenderSavedResults` receives them already parsed, or `None` when the file is missing.
