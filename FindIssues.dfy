/**
 * The `find-issues` command: for every package directory it compares the version pinned in the
 * package's `requirements.txt` with the greatest source archive version, in string order, on
 * the package index, and the commit the build system last built with the commit that last
 * touched the package, and
 * classifies the package into one issue type. The report lists every package sorted by name.
 *
 * The remote lookups (the index page, `oc get component`, `git log`, `oc get snapshot`) are
 * parameters: their answers are given as values.
 */
module FindIssues {
  import opened Wrappers
  import opened Text
  import opened Sorting
  import opened Listing
  import opened Sequences

  // ================================================================ package_version

  /** `^` under MULTILINE: the start of the text or the position just after a newline. */
  predicate LineStart(content: string, p: int) {
    p == 0 || (0 < p <= |content| && content[p - 1] == '\n')
  }

  /** A character the version pattern `[^\\\s]` accepts. */
  predicate VersionChar(c: char) {
    !IsSpace(c) && c != '\\'
  }

  /** The greedy run `[^\\\s]*` starting at `q`. */
  function VersionRun(content: string, q: nat): (v: string)
    requires q <= |content|
    ensures q + |v| <= |content| && v == content[q..q + |v|]
    ensures forall i :: 0 <= i < |v| ==> VersionChar(v[i])
    ensures q + |v| == |content| || !VersionChar(content[q + |v|])
    decreases |content| - q
  {
    if q < |content| && VersionChar(content[q]) then [content[q]] + VersionRun(content, q + 1) else []
  }

  /**
   * `^<name>==([^\\\s]+)` matches at `p`: a line starts there with the package name (compared
   * character by character, ignoring ASCII case, so a `.` in the name is a literal dot), then
   * `==`, then at least one version character.
   */
  predicate MatchesAt(content: string, name: string, p: int) {
    && 0 <= p
    && LineStart(content, p)
    && p + |name| + 2 < |content|
    && EqualsIgnoringCase(content[p..p + |name|], name)
    && content[p + |name|..p + |name| + 2] == "=="
    && VersionChar(content[p + |name| + 2])
  }

  /** The version the pattern captures when it matches at `p`. */
  function CapturedVersion(content: string, name: string, p: int): (v: string)
    requires MatchesAt(content, name, p)
    ensures |v| > 0 && forall i :: 0 <= i < |v| ==> VersionChar(v[i])
  {
    VersionRun(content, p + |name| + 2)
  }

  /** `re.search`: the leftmost position at or after `p` where the pattern matches. */
  function FirstMatch(content: string, name: string, p: nat): (r: Option<nat>)
    ensures r.Some? ==> p <= r.value && MatchesAt(content, name, r.value)
    ensures r.Some? ==> forall q :: p <= q < r.value ==> !MatchesAt(content, name, q)
    ensures r.None? ==> forall q :: p <= q ==> !MatchesAt(content, name, q)
    decreases |content| + 1 - p
  {
    if p > |content| then None
    else if MatchesAt(content, name, p) then Some(p)
    else FirstMatch(content, name, p + 1)
  }

  /** The clean-up after the match: `strip()`, remove trailing backslashes, `strip()` again. */
  function CleanVersion(v: string): string {
    Strip(TrimTrailingBackslashes(Strip(v)))
  }

  /** The clean-up never changes a captured version: it holds no whitespace and no backslash. */
  lemma CleanVersionKeepsCapture(v: string)
    requires forall i :: 0 <= i < |v| ==> VersionChar(v[i])
    ensures CleanVersion(v) == v
  {
    StripNoSpace(v);
    assert TrimTrailingBackslashes(v) == v;
    StripNoSpace(v);
  }

  /**
   * `package_version`: the version pinned for `pkgName` in `requirements.txt` (`None` when the
   * file is absent).
   */
  function PackageVersion(pkgName: string, requirements: Option<string>): (r: Option<string>)
    ensures requirements.None? ==> r.None?
  {
    match requirements
    case None => None
    case Some(content) =>
      match FirstMatch(content, pkgName, 0)
      case None => None
      case Some(p) => Some(CleanVersion(CapturedVersion(content, pkgName, p)))
  }

  /** The clean-up leaves the captured version as it is. */
  lemma PackageVersionIsCapture(pkgName: string, content: string)
    ensures var m := FirstMatch(content, pkgName, 0);
      PackageVersion(pkgName, Some(content))
        == if m.None? then None else Some(CapturedVersion(content, pkgName, m.value))
  {
    var m := FirstMatch(content, pkgName, 0);
    if m.Some? {
      CleanVersionKeepsCapture(CapturedVersion(content, pkgName, m.value));
    }
  }

  /** The search from the start finds the first line that matches, and nothing when no line does. */
  lemma FirstMatchFromStart(content: string, name: string)
    ensures var m := FirstMatch(content, name, 0);
      && (m.None? <==> forall p :: !MatchesAt(content, name, p))
      && (m.Some? ==> MatchesAt(content, name, m.value) && forall q :: 0 <= q < m.value ==> !MatchesAt(content, name, q))
  {
    var m := FirstMatch(content, name, 0);
    if m.Some? {
      assert MatchesAt(content, name, m.value);
    }
  }

  /**
   * `package_version` finds no version exactly when no line starts with the package name, `==`
   * and a version character.
   */
  lemma PackageVersionSpec(pkgName: string, content: string)
    ensures PackageVersion(pkgName, Some(content)).None? <==> forall p :: !MatchesAt(content, pkgName, p)
  {
    NoVersionWithoutMatch(pkgName, content);
    NoMatchWithoutVersion(pkgName, content);
  }

  lemma NoVersionWithoutMatch(pkgName: string, content: string)
    ensures (forall p :: !MatchesAt(content, pkgName, p)) ==> PackageVersion(pkgName, Some(content)).None?
  {
    FirstMatchFromStart(content, pkgName);
    PackageVersionIsCapture(pkgName, content);
  }

  lemma NoMatchWithoutVersion(pkgName: string, content: string)
    ensures PackageVersion(pkgName, Some(content)).None? ==> forall p :: !MatchesAt(content, pkgName, p)
  {
    FirstMatchFromStart(content, pkgName);
    PackageVersionIsCapture(pkgName, content);
  }

  /** The search from the start stops at the first line that matches. */
  lemma FirstMatchIsFirst(content: string, name: string, p: nat)
    requires MatchesAt(content, name, p)
    requires forall q :: 0 <= q < p ==> !MatchesAt(content, name, q)
    ensures FirstMatch(content, name, 0) == Some(p)
  {
    FirstMatchFromStart(content, name);
  }

  /**
   * The first matching line decides: the version is what the pattern captures there, up to the
   * first whitespace or backslash, whatever later lines say.
   */
  lemma PackageVersionAtFirstMatch(pkgName: string, content: string, p: nat)
    requires MatchesAt(content, pkgName, p)
    requires forall q :: 0 <= q < p ==> !MatchesAt(content, pkgName, q)
    ensures PackageVersion(pkgName, Some(content)) == Some(CapturedVersion(content, pkgName, p))
  {
    FirstMatchIsFirst(content, pkgName, p);
    PackageVersionIsCapture(pkgName, content);
  }

  /** Whether a line matches does not depend on the letter case of the package name. */
  lemma MatchesAtIgnoresCase(content: string, a: string, b: string, p: int)
    requires EqualsIgnoringCase(a, b)
    ensures MatchesAt(content, a, p) <==> MatchesAt(content, b, p)
  {
  }

  lemma SameLengthSameCapture(content: string, a: string, b: string, p: int)
    requires MatchesAt(content, a, p) && MatchesAt(content, b, p) && |a| == |b|
    ensures CapturedVersion(content, a, p) == CapturedVersion(content, b, p)
  {
  }

  lemma {:induction false} FirstMatchIgnoresCase(content: string, a: string, b: string, p: nat)
    requires EqualsIgnoringCase(a, b)
    ensures FirstMatch(content, a, p) == FirstMatch(content, b, p)
    decreases |content| + 1 - p
  {
    if p <= |content| {
      MatchesAtIgnoresCase(content, a, b, p);
      FirstMatchIgnoresCase(content, a, b, p + 1);
    }
  }

  /**
   * The lookup is case-insensitive: a directory named `Test-Package` finds the line
   * `test-package==1.2.3`, and the other way round.
   */
  lemma PackageVersionIgnoresCase(a: string, b: string, content: string)
    requires EqualsIgnoringCase(a, b)
    ensures PackageVersion(a, Some(content)) == PackageVersion(b, Some(content))
  {
    FirstMatchIgnoresCase(content, a, b, 0);
    PackageVersionIsCapture(a, content);
    PackageVersionIsCapture(b, content);
    var m := FirstMatch(content, a, 0);
    if m.Some? {
      SameLengthSameCapture(content, a, b, m.value);
    }
  }

  // ================================================================ index_version

  const MISSING := "MISSING"
  const ARCHIVE_SUFFIX := ".tar.gz"

  /**
   * The texts the pattern `<a[^>]*>([^<]*\.tar\.gz)</a>` captures, given the inner texts of the
   * page's anchors: those without `<` that end in `.tar.gz`.
   */
  function ArchiveTexts(anchorTexts: seq<string>): (r: seq<string>)
    ensures forall t :: t in r <==> t in anchorTexts && '<' !in t && EndsWith(t, ARCHIVE_SUFFIX)
  {
    if |anchorTexts| == 0 then []
    else
      var init := anchorTexts[..|anchorTexts| - 1];
      var t := anchorTexts[|anchorTexts| - 1];
      assert anchorTexts == init + [t];
      ArchiveTexts(init) + (if '<' !in t && EndsWith(t, ARCHIVE_SUFFIX) then [t] else [])
  }

  /**
   * The version one archive name contributes: `.tar.gz` removed (every occurrence, as
   * `str.replace` does), then the part after the last `-`; nothing when there is no `-`.
   */
  function ArchiveVersion(text: string): Option<string> {
    var parts := Split(ReplaceAll(text, ARCHIVE_SUFFIX, ""), '-');
    if |parts| > 1 then Some(parts[|parts| - 1]) else None
  }

  /**
   * An archive name contributes a version exactly when it has a `-` once `.tar.gz` is removed,
   * and that version is the hyphen-free text after its last `-`.
   */
  lemma ArchiveVersionShape(text: string)
    ensures var base := ReplaceAll(text, ARCHIVE_SUFFIX, "");
      && (ArchiveVersion(text).Some? <==> '-' in base)
      && (ArchiveVersion(text).Some? ==> var v := ArchiveVersion(text).value;
            '-' !in v && EndsWith(base, "-" + v))
  {
    AfterLastHyphen(ReplaceAll(text, ARCHIVE_SUFFIX, ""));
  }

  /** The part after the last `-`: there is one exactly when `s` has a `-`, and it ends `s`. */
  lemma AfterLastHyphen(s: string)
    ensures var parts := Split(s, '-');
      && (|parts| > 1 <==> '-' in s)
      && (|parts| > 1 ==> var v := parts[|parts| - 1]; '-' !in v && EndsWith(s, "-" + v))
  {
    SplitLast(s, '-');
    var parts := Split(s, '-');
    if |parts| > 1 {
      var v := parts[|parts| - 1];
      assert s[|s| - |v| - 1..] == "-" + v;
    }
  }

  /** The `versions` list the loop builds from the captured archive names. */
  function Candidates(archives: seq<string>): (r: seq<string>)
    ensures forall v :: v in r <==> exists t :: t in archives && ArchiveVersion(t) == Some(v)
  {
    if |archives| == 0 then []
    else
      var init := archives[..|archives| - 1];
      var t := archives[|archives| - 1];
      assert archives == init + [t];
      Candidates(init) + (if ArchiveVersion(t).Some? then [ArchiveVersion(t).value] else [])
  }

  /** Versions are sorted as Python sorts strings: character by character, not as releases. */
  function VersionKey(version: string): string { version }

  /** `index_version` once the index has answered with `status` and a page with these anchors. */
  function IndexVersionOf(status: int, anchorTexts: seq<string>): Option<string> {
    if status == 404 then Some(MISSING)
    else if status != 200 then None
    else
      var matches := ArchiveTexts(anchorTexts);
      if |matches| == 0 then None
      else
        var versions := Candidates(matches);
        if |versions| == 0 then None
        else
          var sorted := SortBy(versions, VersionKey);
          Some(sorted[|sorted| - 1])
  }

  /**
   * 404 means the package is missing, any other status but 200 means unknown, and a 200 page
   * yields the greatest candidate version in plain string order, or `None` without candidates.
   */
  lemma IndexVersionSpec(status: int, anchorTexts: seq<string>)
    ensures var r := IndexVersionOf(status, anchorTexts);
      var versions := Candidates(ArchiveTexts(anchorTexts));
      && (status == 404 ==> r == Some(MISSING))
      && (status != 404 && status != 200 ==> r.None?)
      && (status == 200 ==> (r.None? <==> versions == []))
      && (status == 200 && r.Some? ==> r.value in versions && forall v :: v in versions ==> LexLe(v, r.value))
  {
    var versions := Candidates(ArchiveTexts(anchorTexts));
    if status == 200 && versions != [] {
      var sorted := SortBy(versions, VersionKey);
      SortedLastIsGreatest(sorted, VersionKey);
      assert sorted[|sorted| - 1] in multiset(versions);
      forall v | v in versions ensures LexLe(v, sorted[|sorted| - 1]) {
        assert v in multiset(sorted);
      }
    }
  }

  /**
   * `index_version`: the loop that collects the candidate versions, then `sort()` and the last
   * element.
   */
  method IndexVersion(status: int, anchorTexts: seq<string>) returns (r: Option<string>)
    ensures r == IndexVersionOf(status, anchorTexts)
    ensures status == 200 && r.Some? ==>
      forall t :: t in ArchiveTexts(anchorTexts) && ArchiveVersion(t).Some? ==> LexLe(ArchiveVersion(t).value, r.value)
  {
    if status == 404 {
      r := Some(MISSING);
    } else if status != 200 {
      r := None;
    } else {
      var matches := ArchiveTexts(anchorTexts);
      if |matches| == 0 {
        r := None;
      } else {
        var versions := CollectVersions(matches);
        if |versions| > 0 {
          var sorted := SortBy(versions, VersionKey);
          r := Some(sorted[|sorted| - 1]);
        } else {
          r := None;
        }
      }
    }
    IndexVersionSpec(status, anchorTexts);
  }

  /** The loop of `index_version` over the captured archive names. */
  method CollectVersions(matches: seq<string>) returns (versions: seq<string>)
    ensures versions == Candidates(matches)
    ensures forall v :: v in versions <==> exists t :: t in matches && ArchiveVersion(t) == Some(v)
  {
    versions := [];
    for i := 0 to |matches|
      invariant versions == Candidates(matches[..i])
    {
      assert matches[..i + 1][..i] == matches[..i];
      var filename := ReplaceAll(matches[i], ARCHIVE_SUFFIX, "");
      var parts := Split(filename, '-');
      if |parts| > 1 {
        versions := versions + [parts[|parts| - 1]];
      }
    }
    assert matches[..|matches|] == matches;
  }

  /**
   * Versions are compared as plain strings, not as release numbers: when `1.9.0` is on the
   * index, `1.10.0` is never reported as the index version.
   */
  lemma NewerReleaseCanLose(anchorTexts: seq<string>)
    requires "1.9.0" in Candidates(ArchiveTexts(anchorTexts))
    ensures IndexVersionOf(200, anchorTexts) != Some("1.10.0")
  {
    assert "1.9.0"[..2] == "1.10.0"[..2];
    GreaterCandidateWins(anchorTexts, "1.9.0", "1.10.0");
  }

  /** A candidate that sorts after `w` keeps `w` from being the index version. */
  lemma GreaterCandidateWins(anchorTexts: seq<string>, v: string, w: string)
    requires v in Candidates(ArchiveTexts(anchorTexts)) && !LexLe(v, w)
    ensures IndexVersionOf(200, anchorTexts) != Some(w)
  {
    IndexVersionSpec(200, anchorTexts);
  }

  // ================================================================ find_snapshot_for_commit_id

  /** The snapshot name from the output of `oc get snapshot`: `None` for blank output. */
  function SnapshotFromOutput(stdout: string): (r: Option<string>)
    ensures r.None? <==> forall i :: 0 <= i < |stdout| ==> IsSpace(stdout[i])
    ensures r.Some? ==> |r.value| > 0 && SpaceFreeEnds(r.value)
    ensures r.Some? ==> Contains(stdout, r.value) && TrimmedOf(stdout, r.value)
    ensures r.Some? ==> r.value == Strip(stdout)
  {
    var name := Strip(stdout);
    StripEmptyIffAllSpace(stdout);
    StripShape(stdout);
    StripTrimmed(stdout);
    if name == [] then None else Some(name)
  }

  // ================================================================ analyze_package

  /** The four issue types; `Name` is the string the report uses. */
  datatype IssueType = NoIssue | NeedsRebuild | NeedsRelease | Unknown {
    function Name(): string {
      match this
      case NoIssue => "no_issue"
      case NeedsRebuild => "needs_rebuild"
      case NeedsRelease => "needs_release"
      case Unknown => "unknown"
    }

    /** The action each issue type calls for. */
    function Action(): string {
      match this
      case NoIssue => "none"
      case NeedsRebuild => "rebuild"
      case NeedsRelease => "release"
      case Unknown => "investigate"
    }
  }

  /** The record `analyze_package` returns; field names follow its dictionary keys. */
  datatype IssueRecord = IssueRecord(
    packageName: string,
    gitVersion: Option<string>,
    indexVersion: Option<string>,
    builtCommitId: Option<string>,
    currentCommitId: string,
    issueType: IssueType,
    issueDescription: string,
    actionNeeded: string)

  /** An optional value as an f-string renders it. */
  function Show(o: Option<string>): string {
    match o
    case None => "None"
    case Some(s) => s
  }

  function RebuildDescription(built: string, current: string): string {
    "Commit mismatch: built commit is " + built + ", current commit is " + current
  }

  /** The rebuild description names both commits. */
  lemma RebuildDescriptionMentions(built: string, current: string)
    ensures Contains(RebuildDescription(built, current), built)
    ensures Contains(RebuildDescription(built, current), current)
  {
    var prefix := "Commit mismatch: built commit is ";
    var middle := ", current commit is ";
    var d := RebuildDescription(built, current);
    assert d[|prefix|..|prefix| + |built|] == built;
    assert OccursAt(d, built, |prefix|);
    var k := |prefix| + |built| + |middle|;
    assert d[k..k + |current|] == current;
    assert OccursAt(d, current, k);
  }

  /**
   * The decision table of `analyze_package`, given the pinned version, the index version, the
   * last built commit, the current commit and the snapshot lookup (the `oc get snapshot` output
   * for a package and commit).
   */
  function Classify(
    pkgName: string, gitVersion: Option<string>, indexVersion: Option<string>,
    builtCommit: Option<string>, currentCommit: string, snapshotLookup: (string, string) -> string
  ): (r: IssueRecord)
    ensures r.packageName == pkgName && r.gitVersion == gitVersion && r.indexVersion == indexVersion
    ensures r.builtCommitId == builtCommit && r.currentCommitId == currentCommit
    ensures r.issueType == NoIssue <==> gitVersion == indexVersion
    ensures r.issueType == NeedsRebuild <==> gitVersion != indexVersion && builtCommit != Some(currentCommit)
    ensures r.issueType == NeedsRelease <==>
      gitVersion != indexVersion && builtCommit == Some(currentCommit)
      && SnapshotFromOutput(snapshotLookup(pkgName, currentCommit)).Some?
    ensures r.issueType == Unknown <==>
      gitVersion != indexVersion && builtCommit == Some(currentCommit)
      && SnapshotFromOutput(snapshotLookup(pkgName, currentCommit)).None?
    ensures r.actionNeeded == r.issueType.Action()
    ensures r.issueType == NeedsRebuild ==>
      Contains(r.issueDescription, Show(builtCommit)) && Contains(r.issueDescription, currentCommit)
    ensures r.issueType == NeedsRelease ==>
      Contains(r.issueDescription, SnapshotFromOutput(snapshotLookup(pkgName, currentCommit)).value)
  {
    if gitVersion != indexVersion then
      if builtCommit != Some(currentCommit) then
        RebuildDescriptionMentions(Show(builtCommit), currentCommit);
        IssueRecord(pkgName, gitVersion, indexVersion, builtCommit, currentCommit,
                    NeedsRebuild, RebuildDescription(Show(builtCommit), currentCommit), "rebuild")
      else
        var snapshotName := SnapshotFromOutput(snapshotLookup(pkgName, currentCommit));
        if snapshotName.Some? then
          var prefix := "Build exists but not released. Snapshot: ";
          ContainsPiece(prefix, snapshotName.value, "");
          assert prefix + snapshotName.value + "" == prefix + snapshotName.value;
          IssueRecord(pkgName, gitVersion, indexVersion, builtCommit, currentCommit,
                      NeedsRelease, prefix + snapshotName.value, "release")
        else
          IssueRecord(pkgName, gitVersion, indexVersion, builtCommit, currentCommit,
                      Unknown, "Version mismatch but no clear action identified", "investigate")
    else
      IssueRecord(pkgName, gitVersion, indexVersion, builtCommit, currentCommit,
                  NoIssue, "Versions match", "none")
  }

  /**
   * The snapshot lookup is consulted only when the versions differ and the built commit is the
   * current one: otherwise any two lookups give the same record.
   */
  lemma SnapshotLookupOnlyOnEqualCommits(
    pkgName: string, gitVersion: Option<string>, indexVersion: Option<string>,
    builtCommit: Option<string>, currentCommit: string, f: (string, string) -> string, g: (string, string) -> string)
    requires gitVersion == indexVersion || builtCommit != Some(currentCommit)
    ensures Classify(pkgName, gitVersion, indexVersion, builtCommit, currentCommit, f)
         == Classify(pkgName, gitVersion, indexVersion, builtCommit, currentCommit, g)
  {
  }

  /** What the lookups of one package answered. */
  datatype Lookups = Lookups(
    requirements: Option<string>,              // requirements.txt, None when absent
    indexStatus: int,                          // HTTP status of the index page
    indexAnchorTexts: seq<string>,             // inner texts of the page's anchors
    builtCommit: Option<string>,               // status.lastBuiltCommit of the component
    gitLogOutput: string,                      // stdout of git log -1 --format=%H --first-parent
    snapshotLookup: (string, string) -> string) // stdout of oc get snapshot for (package, commit)

  /**
   * `analyze_package`: the record carries the package name, the pinned version, the index
   * version, the built commit and the stripped `git log` output, and is classified from them.
   */
  function AnalyzePackage(pkgName: string, lookups: Lookups): (r: IssueRecord)
    ensures r.packageName == pkgName
    ensures r.gitVersion == PackageVersion(pkgName, lookups.requirements)
    ensures r.indexVersion == IndexVersionOf(lookups.indexStatus, lookups.indexAnchorTexts)
    ensures r.builtCommitId == lookups.builtCommit
    ensures r.currentCommitId == Strip(lookups.gitLogOutput)
    ensures r == Classify(r.packageName, r.gitVersion, r.indexVersion, r.builtCommitId, r.currentCommitId, lookups.snapshotLookup)
  {
    Classify(pkgName, PackageVersion(pkgName, lookups.requirements),
             IndexVersionOf(lookups.indexStatus, lookups.indexAnchorTexts),
             lookups.builtCommit, Strip(lookups.gitLogOutput), lookups.snapshotLookup)
  }

  // ================================================================ find_packages

  datatype FindPackagesError = BadParameter(message: string)

  /** `find_packages`: the sorted package sub-directories, or `BadParameter` when the directory is missing. */
  method FindPackages(packagesDir: Option<seq<DirEntry>>) returns (r: Result<seq<string>, FindPackagesError>)
    ensures r.Failure? <==> packagesDir.None?
    ensures r.Success? ==> SortedBy(r.value, NameKey)
    ensures r.Success? ==> forall n :: n in r.value <==> DirEntry(n, true) in packagesDir.value
    ensures r.Success? ==> r.value == SortBy(SubdirectoryNames(packagesDir.value), NameKey)
  {
    if packagesDir.None? {
      return Failure(BadParameter("Packages directory not found"));
    }
    var names := SortedSubdirectories(packagesDir.value);
    return Success(names);
  }

  // ================================================================ report aggregation

  datatype Summary = Summary(
    totalPackages: nat,
    packagesWithIssues: nat,
    typeOrder: seq<IssueType>,          // keys of issues_by_type, in insertion order
    issuesByType: map<IssueType, nat>)  // keyed by issue type; the report writes each key's Name()

  datatype Report = Report(summary: Summary, issues: seq<IssueRecord>, allPackages: seq<IssueRecord>)

  function RecordName(r: IssueRecord): string { r.packageName }

  function RecordType(r: IssueRecord): IssueType { r.issueType }

  /** `[r for r in results if r["issue_type"] != "no_issue"]`. */
  function WithIssues(rs: seq<IssueRecord>): seq<IssueRecord> {
    if |rs| == 0 then []
    else
      var r := rs[|rs| - 1];
      WithIssues(rs[..|rs| - 1]) + (if r.issueType != NoIssue then [r] else [])
  }

  /** How many records have issue type `t`. */
  function CountOfType(rs: seq<IssueRecord>, t: IssueType): nat {
    if |rs| == 0 then 0
    else CountOfType(rs[..|rs| - 1], t) + (if rs[|rs| - 1].issueType == t then 1 else 0)
  }

  /** The issue types of `rs` in order of first appearance. */
  function TypesSeen(rs: seq<IssueRecord>): seq<IssueType> {
    FirstSeen(rs, RecordType)
  }

  /** The `issues_by_type` dictionary after counting `rs`, one increment per record. */
  function TypeCounts(rs: seq<IssueRecord>): map<IssueType, nat> {
    if |rs| == 0 then map[]
    else
      var m := TypeCounts(rs[..|rs| - 1]);
      var t := rs[|rs| - 1].issueType;
      m[t := (if t in m then m[t] else 0) + 1]
  }

  /** The sum of the counts of `keys`. */
  function SumOver(keys: seq<IssueType>, m: map<IssueType, nat>): nat {
    if |keys| == 0 then 0
    else SumOver(keys[..|keys| - 1], m) + (if keys[|keys| - 1] in m then m[keys[|keys| - 1]] else 0)
  }

  /** The report `find_issues` writes for the collected results. */
  function ReportOf(completed: seq<IssueRecord>): Report {
    var results := SortBy(completed, RecordName);
    var issues := WithIssues(results);
    Report(Summary(|results|, |issues|, TypesSeen(results), TypeCounts(results)), issues, results)
  }

  /** The issues are the records whose type is not `no_issue`, in report order. */
  lemma {:induction false} WithIssuesSpec(rs: seq<IssueRecord>)
    ensures forall r :: r in WithIssues(rs) <==> r in rs && r.issueType != NoIssue
    ensures CountOfType(rs, NoIssue) + |WithIssues(rs)| == |rs|
  {
    if |rs| > 0 {
      var init := rs[..|rs| - 1];
      WithIssuesSpec(init);
      assert rs == init + [rs[|rs| - 1]];
    }
  }

  /** Filtering distributes over concatenation: the issues keep the order of the records. */
  lemma {:induction false} WithIssuesAppend(a: seq<IssueRecord>, b: seq<IssueRecord>)
    ensures WithIssues(a + b) == WithIssues(a) + WithIssues(b)
    decreases |b|
  {
    if |b| == 0 {
      assert a + b == a;
    } else {
      var b' := b[..|b| - 1];
      assert (a + b)[..|a + b| - 1] == a + b';
      assert (a + b)[|a + b| - 1] == b[|b| - 1];
      WithIssuesAppend(a, b');
    }
  }

  /** A single record is kept exactly when its type is not `no_issue`. */
  lemma WithIssuesSingle(r: IssueRecord)
    ensures WithIssues([r]) == if r.issueType != NoIssue then [r] else []
  {
    assert [r][..0] == [];
  }

  /** Filtering a list sorted by package name leaves it sorted by package name. */
  lemma {:induction false} WithIssuesSorted(rs: seq<IssueRecord>)
    requires SortedBy(rs, RecordName)
    ensures SortedBy(WithIssues(rs), RecordName)
  {
    if |rs| > 0 {
      var init := rs[..|rs| - 1];
      var r := rs[|rs| - 1];
      assert SortedBy(init, RecordName);
      WithIssuesSorted(init);
      WithIssuesSpec(init);
      var before := WithIssues(init);
      if r.issueType != NoIssue {
        forall i, j | 0 <= i < j < |before| + 1
          ensures LexLe(RecordName((before + [r])[i]), RecordName((before + [r])[j]))
        {
          if j == |before| {
            assert before[i] in init;
            var k :| 0 <= k < |init| && init[k] == before[i];
            assert rs[k] == init[k];
          }
        }
      }
    }
  }

  /**
   * `issues_by_type` has a key for exactly the types that occur, listed once each in order of
   * first appearance, and each key counts the records of its type.
   */
  lemma {:induction false} TypeCountsSpec(rs: seq<IssueRecord>)
    ensures Distinct(TypesSeen(rs))
    ensures forall t :: t in TypeCounts(rs) <==> t in TypesSeen(rs)
    ensures forall t :: t in TypesSeen(rs) <==> exists i :: 0 <= i < |rs| && rs[i].issueType == t
    ensures forall t :: t in TypeCounts(rs) ==> TypeCounts(rs)[t] == CountOfType(rs, t)
    ensures forall t :: t !in TypeCounts(rs) ==> CountOfType(rs, t) == 0
  {
    if |rs| > 0 {
      var init := rs[..|rs| - 1];
      TypeCountsSpec(init);
      forall t ensures t in TypesSeen(rs) <==> exists i :: 0 <= i < |rs| && rs[i].issueType == t {
        if t in TypesSeen(init) {
          var i :| 0 <= i < |init| && init[i].issueType == t;
          assert rs[i] == init[i];
        }
        if exists i :: 0 <= i < |rs| && rs[i].issueType == t {
          var i :| 0 <= i < |rs| && rs[i].issueType == t;
          if i < |init| { assert init[i] == rs[i]; }
        }
      }
    }
  }

  /**
   * The types are listed in the order in which they first occur: an earlier key's first record
   * comes before a later key's first record.
   */
  lemma TypesSeenOrder(rs: seq<IssueRecord>)
    ensures var seen := TypesSeen(rs);
      forall i, j | 0 <= i < j < |seen| :: FirstIndex(rs, RecordType, seen[i]) < FirstIndex(rs, RecordType, seen[j])
  {
    assert TypesSeen(rs) == FirstSeen(rs, RecordType);
    FirstSeenOrder(rs, RecordType);
  }

  lemma {:induction false} SumOverIncrement(keys: seq<IssueType>, m: map<IssueType, nat>, t: IssueType)
    requires Distinct(keys) && t in keys && t in m
    ensures SumOver(keys, m[t := m[t] + 1]) == SumOver(keys, m) + 1
  {
    var init := keys[..|keys| - 1];
    if keys[|keys| - 1] == t {
      assert t !in init;
      SumOverUnaffected(init, m, t, m[t] + 1);
    } else {
      assert t in init;
      SumOverIncrement(init, m, t);
    }
  }

  lemma {:induction false} SumOverUnaffected(keys: seq<IssueType>, m: map<IssueType, nat>, t: IssueType, n: nat)
    requires t !in keys
    ensures SumOver(keys, m[t := n]) == SumOver(keys, m)
  {
    if |keys| > 0 {
      SumOverUnaffected(keys[..|keys| - 1], m, t, n);
    }
  }

  /** The per-type counts add up to the number of records. */
  lemma {:induction false} TypeCountsTotal(rs: seq<IssueRecord>)
    ensures SumOver(TypesSeen(rs), TypeCounts(rs)) == |rs|
  {
    if |rs| > 0 {
      var init := rs[..|rs| - 1];
      var t := rs[|rs| - 1].issueType;
      var keys, m := TypesSeen(init), TypeCounts(init);
      TypeCountsTotal(init);
      TypeCountsSpec(init);
      if t in keys {
        SumOverIncrement(keys, m, t);
      } else {
        SumOverUnaffected(keys, m, t, 1);
        assert (keys + [t])[..|keys|] == keys;
      }
    }
  }

  /** The counting loop: the types in order of first appearance and the count of each. */
  method CountTypes(results: seq<IssueRecord>) returns (order: seq<IssueType>, counts: map<IssueType, nat>)
    ensures order == TypesSeen(results)
    ensures counts == TypeCounts(results)
  {
    order := [];
    counts := map[];
    for i := 0 to |results|
      invariant order == TypesSeen(results[..i])
      invariant counts == TypeCounts(results[..i])
    {
      assert results[..i + 1][..i] == results[..i];
      var issueType := results[i].issueType;
      if issueType !in order {
        order := order + [issueType];
      }
      counts := counts[issueType := (if issueType in counts then counts[issueType] else 0) + 1];
    }
    assert results[..|results|] == results;
  }

  /**
   * The aggregation after the scan: sort the results by package name, keep the issues, count
   * the types. The report lists every result once, sorted; the issues are exactly the records
   * whose type is not `no_issue`; the counts add up to the number of packages.
   */
  method Aggregate(completed: seq<IssueRecord>) returns (report: Report)
    ensures report == ReportOf(completed)
    ensures SortedBy(report.allPackages, RecordName)
    ensures multiset(report.allPackages) == multiset(completed)
    ensures report.summary.totalPackages == |completed|
    ensures report.summary.packagesWithIssues == |report.issues|
    ensures forall r :: r in report.issues <==> r in completed && r.issueType != NoIssue
    ensures SortedBy(report.issues, RecordName)
    ensures Distinct(report.summary.typeOrder)
    ensures forall t :: t in report.summary.issuesByType <==> t in report.summary.typeOrder
    ensures forall t :: t in report.summary.issuesByType ==>
      report.summary.issuesByType[t] == CountOfType(report.allPackages, t)
    ensures SumOver(report.summary.typeOrder, report.summary.issuesByType) == report.summary.totalPackages
    ensures CountOfType(report.allPackages, NoIssue) + report.summary.packagesWithIssues
         == report.summary.totalPackages
  {
    var results := SortBy(completed, RecordName);
    var issues := WithIssues(results);
    var order, counts := CountTypes(results);
    report := Report(Summary(|results|, |issues|, order, counts), issues, results);
    WithIssuesSpec(results);
    TypeCountsSpec(results);
    TypeCountsTotal(results);
    WithIssuesSorted(results);
    forall r ensures r in issues <==> r in completed && r.issueType != NoIssue {
      assert r in results <==> r in multiset(completed);
    }
  }

  // ================================================================ find_issues

  datatype ScanError = PackagesDirectoryNotFound

  function Range(n: nat): seq<nat> {
    seq(n, i => i)
  }

  /** `order` lists each of the indices `0 .. n-1` exactly once. */
  predicate IsOrdering(order: seq<nat>, n: nat) {
    multiset(order) == multiset(Range(n))
  }

  /** The elements of `s` at the indices of `order`, in that order. */
  function Pick<T>(s: seq<T>, order: seq<nat>): (r: seq<T>)
    requires forall k :: 0 <= k < |order| ==> order[k] < |s|
    ensures |r| == |order| && forall k :: 0 <= k < |order| ==> r[k] == s[order[k]]
  {
    seq(|order|, k requires 0 <= k < |order| => s[order[k]])
  }

  lemma OrderingInRange(order: seq<nat>, n: nat)
    requires IsOrdering(order, n)
    ensures forall k :: 0 <= k < |order| ==> order[k] < n
  {
    forall k | 0 <= k < |order| ensures order[k] < n {
      assert order[k] in multiset(Range(n));
    }
  }

  /** Removing the first element of `p` and an equal element of `q` keeps the multisets equal. */
  lemma RemoveMatching(p: seq<nat>, q: seq<nat>, j: nat)
    requires |p| > 0 && j < |q| && q[j] == p[0] && multiset(p) == multiset(q)
    ensures multiset(p[1..]) == multiset(q[..j] + q[j + 1..])
  {
    assert q == q[..j] + [q[j]] + q[j + 1..];
    assert p == [p[0]] + p[1..];
    var q' := q[..j] + q[j + 1..];
    forall x ensures multiset(p[1..])[x] == multiset(q')[x] {
      assert multiset(p)[x] == multiset([p[0]])[x] + multiset(p[1..])[x];
      assert multiset(q)[x] == multiset(q[..j])[x] + multiset([q[j]])[x] + multiset(q[j + 1..])[x];
    }
  }

  /** Picking by `a + [i] + b` is picking by `a`, then `s[i]`, then picking by `b`. */
  lemma PickSplit<T>(s: seq<T>, q: seq<nat>, j: nat)
    requires j < |q| && forall k :: 0 <= k < |q| ==> q[k] < |s|
    ensures multiset(Pick(s, q)) == multiset{s[q[j]]} + multiset(Pick(s, q[..j] + q[j + 1..]))
  {
    assert Pick(s, q) == Pick(s, q[..j]) + [s[q[j]]] + Pick(s, q[j + 1..]);
    assert Pick(s, q[..j] + q[j + 1..]) == Pick(s, q[..j]) + Pick(s, q[j + 1..]);
  }

  /** Picking by two arrangements of the same indices yields the same elements. */
  lemma {:induction false} PickSameIndices<T>(s: seq<T>, p: seq<nat>, q: seq<nat>)
    requires forall k :: 0 <= k < |p| ==> p[k] < |s|
    requires multiset(p) == multiset(q)
    ensures forall k :: 0 <= k < |q| ==> q[k] < |s|
    ensures multiset(Pick(s, p)) == multiset(Pick(s, q))
  {
    forall k | 0 <= k < |q| ensures q[k] < |s| {
      assert q[k] in multiset(p);
    }
    if |p| == 0 {
      assert |q| == |multiset(q)| == 0;
    } else {
      assert p[0] in multiset(q);
      var j :| 0 <= j < |q| && q[j] == p[0];
      RemoveMatching(p, q, j);
      PickSameIndices(s, p[1..], q[..j] + q[j + 1..]);
      PickSplit(s, q, j);
      assert Pick(s, p) == [s[p[0]]] + Pick(s, p[1..]);
    }
  }

  /** Collecting the results in any completion order gathers each result exactly once. */
  lemma PickOrderingPermutes<T>(s: seq<T>, order: seq<nat>)
    requires IsOrdering(order, |s|)
    ensures forall k :: 0 <= k < |order| ==> order[k] < |s|
    ensures multiset(Pick(s, order)) == multiset(s)
  {
    OrderingInRange(order, |s|);
    PickSameIndices(s, Range(|s|), order);
    assert Pick(s, Range(|s|)) == s;
  }

  /** The records of a scan, one per package in listing order. */
  function Analyzed(packages: seq<string>, lookups: string -> Lookups): (rs: seq<IssueRecord>)
    ensures |rs| == |packages|
    ensures forall i :: 0 <= i < |packages| ==> rs[i].packageName == packages[i]
    ensures KeyInjective(rs, RecordName)
  {
    var rs := seq(|packages|, i requires 0 <= i < |packages| => AnalyzePackage(packages[i], lookups(packages[i])));
    AnalyzedByName(packages, lookups, rs);
    rs
  }

  /** A record is determined by its package name, so records with the same name are equal. */
  lemma AnalyzedByName(packages: seq<string>, lookups: string -> Lookups, rs: seq<IssueRecord>)
    requires |rs| == |packages|
    requires forall i :: 0 <= i < |packages| ==> rs[i] == AnalyzePackage(packages[i], lookups(packages[i]))
    ensures KeyInjective(rs, RecordName)
  {
    forall x, y | x in rs && y in rs && RecordName(x) == RecordName(y) ensures x == y {
      var i :| 0 <= i < |rs| && rs[i] == x;
      var j :| 0 <= j < |rs| && rs[j] == y;
      assert packages[i] == x.packageName && packages[j] == y.packageName;
    }
  }

  /**
   * The order in which the worker pool hands back the results does not change the report, as
   * long as each result comes back once and records with the same package name are the same.
   */
  lemma CompletionOrderIrrelevant(submitted: seq<IssueRecord>, arrival: seq<nat>)
    requires IsOrdering(arrival, |submitted|)
    requires KeyInjective(submitted, RecordName)
    ensures forall k :: 0 <= k < |arrival| ==> arrival[k] < |submitted|
    ensures ReportOf(Pick(submitted, arrival)) == ReportOf(submitted)
  {
    PickOrderingPermutes(submitted, arrival);
    var results := Pick(submitted, arrival);
    assert KeyInjective(results, RecordName) by {
      forall x, y | x in results && y in results && x.packageName == y.packageName ensures x == y {
        assert x in multiset(results) && y in multiset(results);
        assert x in submitted && y in submitted;
      }
    }
    SortIgnoresOrder(results, submitted, RecordName);
  }

  /** The `as_completed` loop: the results in the order the pool hands them back. */
  method CollectResults(submitted: seq<IssueRecord>, arrival: seq<nat>) returns (results: seq<IssueRecord>)
    requires IsOrdering(arrival, |submitted|)
    ensures forall k :: 0 <= k < |arrival| ==> arrival[k] < |submitted|
    ensures results == Pick(submitted, arrival)
    ensures multiset(results) == multiset(submitted)
  {
    PickOrderingPermutes(submitted, arrival);
    results := [];
    for k := 0 to |arrival|
      invariant results == Pick(submitted, arrival[..k])
    {
      results := results + [submitted[arrival[k]]];
    }
    assert arrival[..|arrival|] == arrival;
  }

  /**
   * `find_issues`: enumerate the packages, analyse each (the worker pool hands the results back
   * in the completion order `arrival`), and aggregate. The report does not depend on the
   * completion order: it is the report of the results in package order.
   */
  method FindIssues(packagesDir: Option<seq<DirEntry>>, lookups: string -> Lookups, arrival: seq<nat>)
    returns (r: Result<Report, ScanError>)
    requires packagesDir.Some? ==> IsOrdering(arrival, |SubdirectoryNames(packagesDir.value)|)
    ensures r.Failure? <==> packagesDir.None?
    ensures r.Success? ==>
      r.value == ReportOf(Analyzed(SortBy(SubdirectoryNames(packagesDir.value), NameKey), lookups))
  {
    if packagesDir.None? {
      return Failure(PackagesDirectoryNotFound);
    }
    var found := FindPackages(packagesDir);
    var submitted := Analyzed(found.value, lookups);
    var results := CollectResults(submitted, arrival);
    CompletionOrderIrrelevant(submitted, arrival);
    var report := Aggregate(results);
    return Success(report);
  }
}
