# calunga: a verified model of issue detection, remediation planning and wrapper generation

`calunga` maintains a Python package index built from a monorepo. Each package lives in its own
directory under `packages/`. The model covers three commands of its command-line tool:

- **find-issues** reads each package's pinned version from `requirements.txt` and the greatest
  published version, in plain string order, from the index listing. It compares the built commit with the latest commit
  of the directory and classifies every package as `no_issue`, `needs_rebuild`,
  `needs_release` or `unknown`. It then aggregates the records into a report: sorted by name,
  with only the packages that have issues kept in the issues list and counts per issue type.
- **fix-issues** loads such a report and groups the issues by type in first-seen order. It
  splits the `needs_rebuild` group into contiguous batches. Every other type only gets a
  warning. Missing or unparsable files end early.
- **generate** creates the wrapper files of each package, each only if it is absent. It also
  builds the pip-tools and pybuild-deps command lines, substitutes the package into the
  Pipeline-as-Code templates and appends the result, and rewrites the kustomization that lists
  every package.

Modules:

| file | module | contents |
|---|---|---|
| `Wrappers.dfy` | `Wrappers` | `Option`, `Result` |
| `Text.dfy` | `Text` | the Python `str` operations the code uses: `isspace`, `strip`, `replace`, `split`, `join`, line splitting, ordering of strings |
| `Sorting.dfy` | `Sorting` | stable sort by a string key (`list.sort`, `sorted`) |
| `Listing.dfy` | `Listing` | directory entries and the sorted list of sub-directories |
| `Sequences.dfy` | `Sequences` | distinct elements; the keys of a sequence in order of first appearance, the key order of a Python `dict` filled in a loop |
| `FindIssues.dfy` | `FindIssues` | `find_issues.py` |
| `FixIssues.dfy` | `FixIssues` | `fix_issues.py` |
| `Generate.dfy` | `Generate` | `generate.py` |

The outside world comes in as values:

- the contents of `requirements.txt`;
- the HTTP status of the index page and the texts of its anchors;
- the built commit recorded on the cluster, the output of `git log`, and the snapshot lookup;
- the outputs of pip-tools and pybuild-deps.

The worker pool of find-issues becomes an arbitrary completion order (`arrival`). The report is
proved not to depend on that order. Files of `generate` are a map from paths relative to the base
directory to contents.

Behaviour of the code worth noting:

- The code has no rebuild or release workflow. `process_batch_rebuild` only prints a warning, and
  `needs_release` issues are not batched.
- The code does not isolate a failing package: an exception in one analysis ends the scan.
- The suffix `.tar.gz` is removed with `replace`, which removes every occurrence in the text,
  not only the final one.

## Model

| member | source | states |
|---|---|---|
| FindIssues.MatchesAt | src/calunga/commands/find_issues.py:35-36 | the pattern matches at a position: a line starts there with the name (ASCII case ignored), then `==`, then a version character |
| FindIssues.VersionRun | src/calunga/commands/find_issues.py:35 | the version group `[^\\\s]+` is the longest run of characters that are neither whitespace nor backslash |
| FindIssues.CapturedVersion | src/calunga/commands/find_issues.py:35-39 | a match captures a non-empty version without whitespace or backslash |
| FindIssues.FirstMatch | src/calunga/commands/find_issues.py:36 | `re.search` returns the leftmost line start where `<name>==` and a version character occur, or nothing if there is none |
| FindIssues.CleanVersion | src/calunga/commands/find_issues.py:39-41 | `strip()`, then trailing backslashes removed, then `strip()` again |
| FindIssues.CleanVersionKeepsCapture | src/calunga/commands/find_issues.py:39-41 | stripping and removing trailing backslashes leaves a captured version unchanged |
| FindIssues.PackageVersion | src/calunga/commands/find_issues.py:22-43 | a missing `requirements.txt` gives None |
| FindIssues.PackageVersionIsCapture | src/calunga/commands/find_issues.py:36-43 | the cleaned-up version is the capture at the first match, None without a match |
| FindIssues.FirstMatchFromStart | src/calunga/commands/find_issues.py:36 | the search from the start finds nothing iff no position matches, otherwise the first matching position |
| FindIssues.PackageVersionSpec | src/calunga/commands/find_issues.py:22-43 | the version is None iff no line starts with `<name>==` and a version character |
| FindIssues.FirstMatchIsFirst | src/calunga/commands/find_issues.py:36 | the first matching line is the one the search returns |
| FindIssues.PackageVersionAtFirstMatch | src/calunga/commands/find_issues.py:35-42 | the version is the capture on the first matching line, whatever later lines say |
| FindIssues.PackageVersionIgnoresCase | src/calunga/commands/find_issues.py:35-36 | names equal up to ASCII case find the same version |
| FindIssues.ArchiveTexts | src/calunga/commands/find_issues.py:63-64 | an anchor text is kept iff it has no `<` and ends with `.tar.gz` |
| FindIssues.ArchiveVersionShape | src/calunga/commands/find_issues.py:73-78 | a text yields a version iff it still has a `-` once `.tar.gz` is removed; the version is the text after the last `-`, which holds no `-` |
| FindIssues.Candidates | src/calunga/commands/find_issues.py:70-78 | a candidate is exactly the version of some archive text |
| FindIssues.VersionKey | src/calunga/commands/find_issues.py:82 | versions are ordered as Python orders strings, character by character |
| FindIssues.IndexVersionOf | src/calunga/commands/find_issues.py:46-85 | the answer of `index_version` for a status and the anchor texts of the page |
| FindIssues.IndexVersionSpec | src/calunga/commands/find_issues.py:46-85 | 404 gives `MISSING`; another non-200 status gives None; otherwise None iff there are no candidates, else a candidate not below any other in string order |
| FindIssues.IndexVersion | src/calunga/commands/find_issues.py:46-85 | the loop and sort compute the specification above |
| FindIssues.CollectVersions | src/calunga/commands/find_issues.py:70-78 | the loop collects exactly the candidates, in order |
| FindIssues.GreaterCandidateWins | src/calunga/commands/find_issues.py:82-83 | a version is never picked while a candidate sorts after it |
| FindIssues.NewerReleaseCanLose | src/calunga/commands/find_issues.py:82-83 | the comparison is plain string order: with `1.9.0` among the candidates, `1.10.0` is never picked |
| FindIssues.SnapshotFromOutput | src/calunga/commands/find_issues.py:125 | None iff the output is all whitespace; otherwise `stdout.strip()`: the output with only whitespace taken off either end, non-empty and without whitespace at either end |
| Text.StripTrimmed | src/calunga/commands/find_issues.py:125 | `strip()` takes off only whitespace, at either end, and keeps the rest as one piece |
| FindIssues.RebuildDescriptionMentions | src/calunga/commands/find_issues.py:148 | the rebuild description contains both commits |
| FindIssues.Classify | src/calunga/commands/find_issues.py:140-175 | the decision table in order (equal versions, then differing commits, then a snapshot, else unknown), each type with its action; the record echoes its inputs; the descriptions name the commits or snapshot |
| FindIssues.SnapshotLookupOnlyOnEqualCommits | src/calunga/commands/find_issues.py:145-152 | the snapshot lookup has no effect unless the versions differ and the commits agree |
| FindIssues.AnalyzePackage | src/calunga/commands/find_issues.py:128-175 | the record of one package from its lookups, with the stripped `git log` output as the current commit |
| FindIssues.FindPackages | src/calunga/commands/find_issues.py:178-188 | a missing directory is an error; otherwise exactly the sub-directories, sorted by name |
| FindIssues.WithIssues | src/calunga/commands/find_issues.py:248 | the list comprehension that keeps the records whose type is not `no_issue` |
| FindIssues.WithIssuesSpec | src/calunga/commands/find_issues.py:248 | a record is an issue iff it is one of the records and its type is not `no_issue`; the `no_issue` records and the issues together account for every record |
| FindIssues.WithIssuesAppend | src/calunga/commands/find_issues.py:248 | filtering a concatenation gives the concatenation of the filtered parts, so the issues keep the order of the records |
| FindIssues.WithIssuesSingle | src/calunga/commands/find_issues.py:248 | a single record is kept iff its type is not `no_issue` |
| FindIssues.WithIssuesSorted | src/calunga/commands/find_issues.py:245-248 | the issues of a list sorted by package name are sorted by package name |
| FindIssues.TypesSeen | src/calunga/commands/find_issues.py:260-263 | the keys of `issues_by_type`, in insertion order |
| FindIssues.TypeCounts | src/calunga/commands/find_issues.py:260-263 | the `issues_by_type` dictionary, one increment per record |
| FindIssues.TypesSeenOrder | src/calunga/commands/find_issues.py:260-263 | the keys are in order of first appearance: an earlier key's first record comes before a later key's first record |
| FindIssues.TypeCountsSpec | src/calunga/commands/find_issues.py:260-263 | the counted types are the distinct types seen, and each count is the number of records of that type |
| FindIssues.CountTypes | src/calunga/commands/find_issues.py:260-263 | the counting loop produces the distinct types in first-seen order and the count of each |
| FindIssues.TypeCountsTotal | src/calunga/commands/find_issues.py:252-263 | the per-type counts add up to the number of records |
| FindIssues.ReportOf | src/calunga/commands/find_issues.py:244-263 | the report written for the collected results: sorted results, the issues among them, and the summary |
| FindIssues.Aggregate | src/calunga/commands/find_issues.py:245-263 | all packages sorted by name and a permutation of the results; issues filtered and sorted by name; totals; distinct type keys with correct counts that sum to the total; `no_issue` count plus issues equals the total |
| FindIssues.Analyzed | src/calunga/commands/find_issues.py:233-236 | one record per package, named after it; distinct packages give distinct names |
| FindIssues.AnalyzedByName | src/calunga/commands/find_issues.py:233-242 | two records that carry the same package name are the same record |
| FindIssues.PickOrderingPermutes | src/calunga/commands/find_issues.py:239-242 | collecting results in any completion order gives a permutation of the submitted ones |
| FindIssues.CompletionOrderIrrelevant | src/calunga/commands/find_issues.py:231-245 | after the sort by name, the completion order does not matter |
| FindIssues.CollectResults | src/calunga/commands/find_issues.py:239-242 | the results appended in arrival order |
| FindIssues.FindIssues | src/calunga/commands/find_issues.py:218-263 | a missing `packages` directory fails; otherwise the report is the aggregation of the analyses of the sorted packages, whatever the completion order |
| Sorting.SortIgnoresOrder | src/calunga/commands/find_issues.py:245 | with distinct keys, sorting two permutations of the same records gives the same list |
| Sorting.SortedLastIsGreatest | src/calunga/commands/find_issues.py:82-83 | the last element of a sorted list is not below any element |
| Listing.SubdirectoryNames | src/calunga/commands/find_issues.py:183-186 | the names of the directory entries, in listing order |
| Listing.SubdirectoryNamesMembers | src/calunga/commands/find_issues.py:183-186 | the loop keeps exactly the directory entries |
| Listing.SortedSubdirectories | src/calunga/commands/generate.py:27-38 | the sub-directory names, sorted, each present iff it is a directory entry |
| Sequences.FirstIndex | src/calunga/commands/fix_issues.py:84-88 | the position of the first element with a key, or the length when there is none; no earlier element has that key |
| Sequences.FirstSeenDistinct | src/calunga/commands/fix_issues.py:86-87 | a dictionary key is added only once |
| Sequences.FirstSeenFound | src/calunga/commands/fix_issues.py:84-88 | a key is listed iff some element carries it |
| Sequences.FirstSeenOrder | src/calunga/commands/fix_issues.py:83-88 | the keys are listed in the order in which they first occur |
| FixIssues.TypeKey | src/calunga/commands/fix_issues.py:85 | the issue type, or `unknown` when the key is absent |
| FixIssues.TypesInOrder | src/calunga/commands/fix_issues.py:83-88 | the keys of `issues_by_type`, in insertion order |
| FixIssues.OfType | src/calunga/commands/fix_issues.py:84-88 | the group of one type, in file order |
| FixIssues.GroupsOf | src/calunga/commands/fix_issues.py:83-88 | the `issues_by_type` dictionary: the group of every listed type |
| FixIssues.GroupByType | src/calunga/commands/fix_issues.py:82-88 | the loop builds the first-seen type order and the group of each type |
| FixIssues.GroupingSpec | src/calunga/commands/fix_issues.py:83-88 | types are distinct and listed iff some issue has them (default `unknown`); the group of every listed type is non-empty |
| FixIssues.TypeOccurs | src/calunga/commands/fix_issues.py:83-88 | a type is listed iff some issue has it, and then its first issue lies within the file |
| FixIssues.TypesInFirstSeenOrder | src/calunga/commands/fix_issues.py:83-91 | the types are handled in the order in which they first occur in the file |
| FixIssues.OfTypeAppend | src/calunga/commands/fix_issues.py:84-88 | grouping a concatenation gives the concatenated groups, so each group keeps file order |
| FixIssues.OfTypeSingle | src/calunga/commands/fix_issues.py:84-88 | a single issue joins the group of its own type only |
| FixIssues.OfTypeMembers | src/calunga/commands/fix_issues.py:84-88 | an issue is in the group of a type iff it is one of the issues and has that type |
| FixIssues.GroupsPartition | src/calunga/commands/fix_issues.py:83-91 | the group sizes add up to the number of issues |
| FixIssues.BatchesFrom | src/calunga/commands/fix_issues.py:98-101 | the batches from position `i` onwards: slices of at most `size` names numbered `i // size + 1` upwards |
| FixIssues.BatchesCover | src/calunga/commands/fix_issues.py:96-101 | concatenating the batches gives back the package names in order |
| FixIssues.BatchesShape | src/calunga/commands/fix_issues.py:98-100 | batch `k` is numbered `i // size + k + 1`; every batch is non-empty and at most `size` long, and only the last may be shorter |
| FixIssues.BatchesSpec | src/calunga/commands/fix_issues.py:96-101 | the batches cover the names; their count is the ceiling of `n / size`; they are numbered 1, 2, … |
| FixIssues.RebuildInBatches | src/calunga/commands/fix_issues.py:98-101 | the loop over `range(0, n, size)` produces exactly those batches |
| FixIssues.PackageNames | src/calunga/commands/fix_issues.py:96 | the names of the group if every issue has one, otherwise nothing (a `KeyError`) |
| FixIssues.DispatchType | src/calunga/commands/fix_issues.py:92-113 | what handling one group prints, and the exception it raises, if any |
| FixIssues.DispatchTypes | src/calunga/commands/fix_issues.py:91-113 | the groups handled in order, stopping at the first exception |
| FixIssues.FixPlan | src/calunga/commands/fix_issues.py:46-119 | the actions and ending of the command for each outcome of reading the file |
| FixIssues.OtherTypesQuiet | src/calunga/commands/fix_issues.py:103-113 | a type other than `needs_rebuild` yields exactly two actions: its heading with the group size, then one warning action that stands for the two warning lines printed for `needs_release`, for `unknown`, or for an unsupported type (naming it), carrying the group size; it raises nothing and hands on no package |
| FixIssues.RebuildTypeSpec | src/calunga/commands/fix_issues.py:94-101 | `needs_rebuild` raises iff a name is missing, or all names are present and the batch size is 0; on an exception or a negative size the only action is its heading; otherwise the heading followed by exactly the batches of its names, which hand on those names in order |
| FixIssues.DispatchTypesSpec | src/calunga/commands/fix_issues.py:91-113 | over distinct types, the run raises exactly when the `needs_rebuild` group raises, and otherwise hands on exactly that group's packages |
| FixIssues.Headings | src/calunga/commands/fix_issues.py:92 | the types whose heading the actions print, in order |
| FixIssues.BatchesHaveNoHeadings | src/calunga/commands/fix_issues.py:98-101 | the batches print no heading |
| FixIssues.DispatchTypeHeading | src/calunga/commands/fix_issues.py:92 | handling one group prints exactly its own heading |
| FixIssues.DispatchTypesHeadings | src/calunga/commands/fix_issues.py:91-113 | the headings printed are a prefix of the types in order, all of them when nothing raises: the types are handled in order and nothing follows an exception |
| FixIssues.FixPlanHeadings | src/calunga/commands/fix_issues.py:83-113 | the run prints the types' headings in order of first appearance, all of them when it finishes |
| FixIssues.FixPlanWithoutIssues | src/calunga/commands/fix_issues.py:46-78 | a missing, unreadable or invalid file ends with exit code 1; no or empty `issues` ends with nothing to fix |
| FixIssues.FixPlanFollowsRebuildGroup | src/calunga/commands/fix_issues.py:91-113 | whether the run finishes depends only on the `needs_rebuild` group and the batch size |
| FixIssues.FixPlanCrashes | src/calunga/commands/fix_issues.py:96-98 | a crash happens iff a rebuild issue lacks its name, or all names are present and the batch size is 0 |
| FixIssues.FixPlanFinishes | src/calunga/commands/fix_issues.py:91-119 | without a crash the run finishes with all issues counted, and rebuilds exactly the rebuild names when the size is positive (none otherwise) |
| FixIssues.ProcessType | src/calunga/commands/fix_issues.py:92-113 | handling one type computes its dispatch |
| FixIssues.CrashStops | src/calunga/commands/fix_issues.py:91-113 | after a crash the later types add nothing |
| FixIssues.FixIssues | src/calunga/commands/fix_issues.py:24-119 | the command's actions and ending are the plan above |
| Generate.LoadAdditionalRequirements | src/calunga/commands/generate.py:18-24 | an absent or empty file gives the empty configuration; otherwise the loaded document |
| Generate.ConfigFor | src/calunga/commands/generate.py:115 | the package's entry under `packages`, or the empty entry |
| Generate.NoConfigurationDefaults | src/calunga/commands/generate.py:115-148 | without configuration, `requirements.in` is the name alone and the argfile name is derived from the directory |
| Generate.FindPackages | src/calunga/commands/generate.py:27-38 | a missing directory exits with 1; otherwise exactly the sub-directories, sorted |
| Generate.PyprojectShape | src/calunga/commands/generate.py:99-106 | `pyproject.toml` reads back as the three lines naming `<name>_placeholder_wrapper` at version 0.0.1 |
| Generate.PyprojectContent | src/calunga/commands/generate.py:101-104 | the three lines of `pyproject.toml`, each ended by a newline |
| Generate.PyprojectText | src/calunga/commands/generate.py:101-104 | the text is the f-string `[project]`, `name = "<name>_placeholder_wrapper"`, `version = "0.0.1"`, one per line |
| Generate.RequirementsInContent | src/calunga/commands/generate.py:112-120 | `"\n".join` of the name and the configured requirements, plus a final newline |
| Generate.RequirementsInRoundTrip | src/calunga/commands/generate.py:109-120 | `requirements.in` reads back as the package name followed by the configured requirements in order |
| Generate.DashesToUnderscores | src/calunga/commands/generate.py:148 | `replace("-", "_")` keeps the length and changes exactly the hyphens |
| Generate.ArgfilePackageName | src/calunga/commands/generate.py:147-148 | the configured `package_name`, else the directory name with `_` for `-` |
| Generate.ArgfileContent | src/calunga/commands/generate.py:150 | the one line `PACKAGE_NAME=<name>` |
| Generate.ArgfileSpec | src/calunga/commands/generate.py:145-152 | `argfile.conf` is the one line `PACKAGE_NAME=<p>`, with the configured name, or else the directory name without hyphens, otherwise unchanged |
| Generate.CompileRequirementsCommand | src/calunga/commands/generate.py:41-61 | nine arguments: the interpreter, `-m piptools compile`, the input, `--output-file` and the output, then the two switches chosen by the flags |
| Generate.CompileRequirementsCommandInjective | src/calunga/commands/generate.py:51-61 | the command line determines the paths and both flags |
| Generate.CompileBuildRequirementsCommand | src/calunga/commands/generate.py:71-86 | eight arguments: pybuild-deps with hashes, the lock file at index 5 and the output at index 7 |
| Generate.Substitute | src/calunga/commands/generate.py:233-234 | `${name}` replaced first, then `${containerfile}` |
| Generate.SubstituteExpands | src/calunga/commands/generate.py:233-234 | replacing `${name}` and then `${containerfile}` fills every placeholder with its value when the template text and the name contain no `$` |
| Generate.NameIsSubstitutedAgain | src/calunga/commands/generate.py:233-234 | because of the order, a name that reads `${containerfile}` is itself replaced |
| Generate.ApplyTemplate | src/calunga/commands/generate.py:225-238 | one template: when it exists, its substitution is appended to its pipeline file |
| Generate.PacFiles | src/calunga/commands/generate.py:219-238 | the tree after the first `k` templates |
| Generate.PacFilesSpec | src/calunga/commands/generate.py:221-238 | each pipeline file whose template exists gets the substituted template appended after its old content; nothing else changes |
| Generate.KustomizationContent | src/calunga/commands/generate.py:245-252 | the loop builds the header followed by one resource line per name, in sorted order |
| Generate.AppendResources | src/calunga/commands/generate.py:251-252 | the loop appends one `  - <name>` line per name, in the order given |
| Generate.KustomizationLines | src/calunga/commands/generate.py:241-255 | the kustomization reads back as the header lines then `  - <name>` for every package in ascending order, each as often as given |
| Generate.LockCommands | src/calunga/commands/generate.py:122-142 | pip-tools runs iff `requirements.txt` is missing; pybuild-deps runs iff `requirements-build.txt` is missing once pip-tools has run |
| Generate.WrapperFiles | src/calunga/commands/generate.py:89-152 | the tree after `generate_package_wrapper` |
| Generate.WrapperFilesSpec | src/calunga/commands/generate.py:89-152 | existing files never change; exactly the missing wrapper files are created; the new `pyproject.toml`, `requirements.in`, `argfile.conf` and tool outputs hold their contents |
| Generate.Workspace.WriteIfAbsent | src/calunga/commands/generate.py:99-106 | a file is written only if it does not exist |
| Generate.Workspace.RunTool | src/calunga/commands/generate.py:63-68 | a tool run is recorded and its output file written |
| Generate.Workspace.WriteSources | src/calunga/commands/generate.py:98-120 | `pyproject.toml` and `requirements.in` written unless they exist; no tool runs |
| Generate.Workspace.LockRequirements | src/calunga/commands/generate.py:122-142 | the lock files and the tools run for them, as `LockCommands` says |
| Generate.Workspace.GeneratePackageWrapper | src/calunga/commands/generate.py:89-152 | the tree becomes the wrapper tree above; pip-tools and pybuild-deps run only for missing outputs, in order |
| Generate.Workspace.GeneratePacResources | src/calunga/commands/generate.py:208-238 | the containerfile is the package's own if it has one, else `Containerfile`; the pipeline files are appended as above |
| Generate.Workspace.UpdateAllKustomization | src/calunga/commands/generate.py:241-255 | the kustomization file is overwritten with the sorted listing; nothing else changes |

## Left out

- Network, `oc`, `git`, pip-tools and pybuild-deps calls. Their results are parameters, and their failures (which the code does not catch) are not modelled.
- `latest_built_commit_id` parses YAML from `oc`. Its result is a parameter.
- HTML scanning by regular expression. The index input is the inner text of every anchor on the page; `FindIssues.ArchiveTexts` keeps those that the pattern captures (no `<`, ending in `.tar.gz`). Anchors whose text spans nested tags are not represented.
- YAML and JSON parsing. Inputs are the parsed documents. A non-list `requirements_in`, non-string items in `requirements_in`, a non-object JSON document, an `issues` value that is not a list, an `issues` element that is not a JSON object (Python raises AttributeError from `issue.get` outside the `try`), a non-string `issue_type` or `package_name`, and a YAML document that is not a mapping are not represented.
- FindIssues.PackageVersion: case-insensitive matching is modelled for ASCII letters only. Python's Unicode case folding is not.
- FindIssues.PackageVersion: `requirements.txt` is taken as read. Python opens it in text mode, which turns a lone `\r` and `\r\n` into `\n`, so `^` also matches after a lone `\r`; the model sees the bytes as given.
- Whitespace is Python's `str.isspace` set restricted to the characters the model lists.
- FindIssues.PackageVersion: its own ensures states only the missing-file case. The full contract is in `FindIssues.PackageVersionSpec`.
- The thread pool is represented only by the order in which results arrive. Timing and worker count are not modelled.
- Generate.Workspace.GeneratePackageWrapper: what pip-tools and pybuild-deps write is a parameter. pip-tools runs in the caller's working directory (no `cwd`, generate.py:63-68) with paths relative to the base; the model assumes that directory is the base directory, as with the default `path="."`. From any other directory pip-compile reads and writes outside the base tree or fails. pybuild-deps is given `cwd=base_path` and needs no such assumption.
- Generate.Workspace.RunTool: writes the tool's output file into the base tree, which for pip-tools holds only when the process runs in the base directory (see the line above).
- `generate()` orchestration and `generate_konflux_resources`, together with `mkdir` and `unlink`, are not part of this model.
- Console output, panels and progress bars, and argument parsing.
- `cli.py` and the version command are not part of this model.
- FixIssues: the placeholder `process_batch_rebuild` is represented by the batch it receives. Its printing is not modelled.
- Generate.SubstituteExpands: proved only for templates and names without `$`. `Generate.NameIsSubstitutedAgain` shows what happens otherwise.
- FixIssues.TypeKey: an `issue_type` that is present but null is read as `unknown`. Python makes a separate `None` group and prints the unsupported-type warning for it.
- FixIssues.PackageNames: a `package_name` that is present but null counts as missing. Python then raises `TypeError` in the `join` of `process_batch_rebuild`, after the batches before it were handed on, while the model raises before the first batch.
- Generate.LoadAdditionalRequirements: a `packages` entry that is null reads as no configuration. Python raises `AttributeError` on `.get`.
- Generate.ConfigFor: a null entry for a package reads as the empty configuration. Python raises `AttributeError` on `.get`.
- FindIssues.FindPackages: the input is a missing directory or the entries of an existing one, so a `packages` path that is a plain file is not represented. Python passes `exists()` and raises `NotADirectoryError` in `iterdir()`.
- Generate.FindPackages: the input is a missing directory or the entries of an existing one, so a `packages` path that is a plain file is not represented. Python passes `exists()` and raises `NotADirectoryError` in `iterdir()`.
- Generate.ArgfilePackageName: a `package_name` that is present but null reads as absent, so the name is derived from the directory. Python's `get` returns None and writes `PACKAGE_NAME=None`.
- Generate.RequirementsInContent: a `requirements_in` that is present but null reads as absent, so the file lists only the package. Python's `get` returns None and `extend(None)` raises `TypeError`.
