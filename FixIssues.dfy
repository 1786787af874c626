/**
 * The `fix-issues` command: it reads the report `find-issues` wrote, groups the issues by type
 * in order of first appearance, and handles each group. Packages that need a rebuild are handed
 * on in numbered batches of at most `--batch-rebuild` names; every other type is only reported
 * as not yet implemented.
 *
 * What the command prints is modelled as a list of actions; reading the file is modelled by the
 * outcome of the read.
 */
module FixIssues {
  import opened Wrappers
  import opened Sequences

  const NEEDS_REBUILD := "needs_rebuild"
  const NEEDS_RELEASE := "needs_release"
  const UNKNOWN := "unknown"

  /** One entry of the report's `issues` list; a key the entry lacks is `None`. */
  datatype Issue = Issue(issueType: Option<string>, packageName: Option<string>)

  /** The outcome of opening and parsing the issues file. */
  datatype IssuesFile =
    | Missing                               // the path does not exist
    | Unreadable                            // opening or reading failed
    | InvalidJson                           // the text is not JSON
    | Loaded(issues: Option<seq<Issue>>)    // the document's `issues` entry, if any

  datatype Action =
    | Processing(issueType: string, count: nat)       // the heading printed for each type
    | RebuildBatch(number: nat, packages: seq<string>) // one call of process_batch_rebuild
    | ReleaseNotImplemented(count: nat)
    | UnknownNotImplemented(count: nat)
    | UnsupportedType(issueType: string, count: nat)

  /** The exceptions the command does not catch. */
  datatype Crash =
    | MissingPackageName   // KeyError: a needs_rebuild issue without `package_name`
    | ZeroBatchSize        // ValueError: `range` with a step of 0

  datatype Ending = ExitCode(code: int) | NothingToFix | Finished(total: nat) | Crashed(crash: Crash)

  datatype Run = Run(actions: seq<Action>, ending: Ending)

  // ================================================================ grouping

  /** `issue.get("issue_type", "unknown")`. */
  function TypeKey(issue: Issue): string {
    issue.issueType.GetOr(UNKNOWN)
  }

  /** The issue types in order of first appearance: the key order of `issues_by_type`. */
  function TypesInOrder(issues: seq<Issue>): seq<string> {
    FirstSeen(issues, TypeKey)
  }

  /** The issues of type `t`, in file order. */
  function OfType(issues: seq<Issue>, t: string): seq<Issue> {
    if |issues| == 0 then []
    else
      var x := issues[|issues| - 1];
      OfType(issues[..|issues| - 1], t) + (if TypeKey(x) == t then [x] else [])
  }

  /** The `issues_by_type` dictionary. */
  function GroupsOf(issues: seq<Issue>): map<string, seq<Issue>> {
    map t | t in TypesInOrder(issues) :: OfType(issues, t)
  }

  /** The grouping loop: one group per type, in order of first appearance. */
  method GroupByType(issues: seq<Issue>) returns (order: seq<string>, groups: map<string, seq<Issue>>)
    ensures order == TypesInOrder(issues)
    ensures groups == GroupsOf(issues)
  {
    order := [];
    groups := map[];
    for i := 0 to |issues|
      invariant order == TypesInOrder(issues[..i])
      invariant groups == GroupsOf(issues[..i])
    {
      var prefix := issues[..i + 1];
      assert prefix[..i] == issues[..i];
      var issueType := TypeKey(issues[i]);
      if issueType !in groups {
        order := order + [issueType];
        groups := groups[issueType := []];
      }
      groups := groups[issueType := groups[issueType] + [issues[i]]];
      forall t | t in TypesInOrder(prefix) ensures t in groups && groups[t] == OfType(prefix, t) {
        if t != issueType {
          assert t in TypesInOrder(issues[..i]);
        } else if issueType !in TypesInOrder(issues[..i]) {
          OfTypeAbsent(issues[..i], t);
        }
      }
    }
    assert issues[..|issues|] == issues;
  }

  /** A type that never occurs has an empty group. */
  lemma {:induction false} OfTypeAbsent(issues: seq<Issue>, t: string)
    requires t !in TypesInOrder(issues)
    ensures OfType(issues, t) == []
  {
    if |issues| > 0 {
      OfTypeAbsent(issues[..|issues| - 1], t);
    }
  }

  /**
   * Grouping lists each type once, exactly the types that occur, and the group of each listed
   * type is not empty.
   */
  lemma GroupingSpec(issues: seq<Issue>)
    ensures Distinct(TypesInOrder(issues))
    ensures forall t :: t in TypesInOrder(issues) <==> exists i :: 0 <= i < |issues| && TypeKey(issues[i]) == t
    ensures forall t :: t in TypesInOrder(issues) ==> |OfType(issues, t)| > 0
  {
    FirstSeenDistinct(issues, TypeKey);
    OfTypeMembers(issues);
    forall t ensures t in TypesInOrder(issues) <==> exists i :: 0 <= i < |issues| && TypeKey(issues[i]) == t {
      TypeOccurs(issues, t);
    }
    forall t | t in TypesInOrder(issues) ensures |OfType(issues, t)| > 0 {
      TypeOccurs(issues, t);
      var i := FirstIndex(issues, TypeKey, t);
      assert issues[i] in OfType(issues, t);
    }
  }

  /** A type is listed exactly when an issue has it, and then its first issue has it. */
  lemma TypeOccurs(issues: seq<Issue>, t: string)
    ensures t in TypesInOrder(issues) <==> exists i :: 0 <= i < |issues| && TypeKey(issues[i]) == t
    ensures t in TypesInOrder(issues) ==> FirstIndex(issues, TypeKey, t) < |issues|
  {
    FirstSeenFound(issues, TypeKey, t);
    var k := FirstIndex(issues, TypeKey, t);
    if k < |issues| {
      assert TypeKey(issues[k]) == t;
    }
  }

  /**
   * The groups are handled in the order in which their types first occur in the file: an
   * earlier type's first issue comes before a later type's first issue.
   */
  lemma TypesInFirstSeenOrder(issues: seq<Issue>)
    ensures var order := TypesInOrder(issues);
      forall i, j | 0 <= i < j < |order| ::
        FirstIndex(issues, TypeKey, order[i]) < FirstIndex(issues, TypeKey, order[j])
  {
    assert TypesInOrder(issues) == FirstSeen(issues, TypeKey);
    FirstSeenOrder(issues, TypeKey);
  }

  /** A group holds exactly the issues of its type. */
  lemma {:induction false} OfTypeMembers(issues: seq<Issue>)
    ensures forall t, x :: x in OfType(issues, t) <==> x in issues && TypeKey(x) == t
  {
    if |issues| > 0 {
      var init := issues[..|issues| - 1];
      assert issues == init + [issues[|issues| - 1]];
      OfTypeMembers(init);
    }
  }

  /** A group keeps the file order: the group of two parts is the group of the first, then of the second. */
  lemma {:induction false} OfTypeAppend(a: seq<Issue>, b: seq<Issue>, t: string)
    ensures OfType(a + b, t) == OfType(a, t) + OfType(b, t)
    decreases |b|
  {
    if |b| == 0 {
      assert a + b == a;
    } else {
      var b' := b[..|b| - 1];
      assert (a + b)[..|a + b| - 1] == a + b';
      assert (a + b)[|a + b| - 1] == b[|b| - 1];
      OfTypeAppend(a, b', t);
    }
  }

  /** One issue forms a group of its own type and no other. */
  lemma OfTypeSingle(x: Issue, t: string)
    ensures OfType([x], t) == if TypeKey(x) == t then [x] else []
  {
  }

  /** The total size of the groups of `types`. */
  function GroupSizes(types: seq<string>, issues: seq<Issue>): nat {
    if |types| == 0 then 0
    else GroupSizes(types[..|types| - 1], issues) + |OfType(issues, types[|types| - 1])|
  }

  lemma {:induction false} GroupSizesStep(types: seq<string>, issues: seq<Issue>, x: Issue)
    requires Distinct(types)
    ensures GroupSizes(types, issues + [x]) == GroupSizes(types, issues) + (if TypeKey(x) in types then 1 else 0)
  {
    if |types| > 0 {
      var init := types[..|types| - 1];
      GroupSizesStep(init, issues, x);
      assert (issues + [x])[..|issues|] == issues;
      assert TypeKey(x) in types <==> TypeKey(x) in init || TypeKey(x) == types[|types| - 1];
    }
  }

  /** The groups partition the issues: their sizes add up to the number of issues. */
  lemma {:induction false} GroupsPartition(issues: seq<Issue>)
    ensures GroupSizes(TypesInOrder(issues), issues) == |issues|
  {
    if |issues| > 0 {
      var init := issues[..|issues| - 1];
      var x := issues[|issues| - 1];
      assert issues == init + [x];
      var t := TypeKey(x);
      GroupsPartition(init);
      GroupingSpec(init);
      var types := TypesInOrder(init);
      GroupSizesStep(types, init, x);
      if t !in types {
        OfTypeAbsent(init, t);
        assert (types + [t])[..|types|] == types;
      }
    }
  }

  // ================================================================ batches

  function Min(a: int, b: int): int {
    if a <= b then a else b
  }

  /**
   * The batches `range(i, len(names), size)` produces from position `i` on: each is the slice
   * `names[i:i + size]`, numbered `i // size + 1`.
   */
  function BatchesFrom(names: seq<string>, size: int, i: nat): seq<Action>
    requires size > 0
    decreases |names| - i
  {
    if i >= |names| then []
    else [RebuildBatch(i / size + 1, names[i..Min(i + size, |names|)])] + BatchesFrom(names, size, i + size)
  }

  /** The packages handed on for rebuilding, in order. */
  function Rebuilt(actions: seq<Action>): seq<string> {
    if |actions| == 0 then []
    else (if actions[0].RebuildBatch? then actions[0].packages else []) + Rebuilt(actions[1..])
  }

  lemma {:induction false} RebuiltAppend(a: seq<Action>, b: seq<Action>)
    ensures Rebuilt(a + b) == Rebuilt(a) + Rebuilt(b)
  {
    if |a| > 0 {
      assert (a + b)[1..] == a[1..] + b;
      RebuiltAppend(a[1..], b);
    } else {
      assert a + b == b;
    }
  }

  /** The batches hand on every name once, in order. */
  lemma {:induction false} BatchesCover(names: seq<string>, size: int, i: nat)
    requires size > 0 && i <= |names|
    ensures Rebuilt(BatchesFrom(names, size, i)) == names[i..]
    decreases |names| - i
  {
    if i < |names| {
      var j := Min(i + size, |names|);
      var rest := BatchesFrom(names, size, i + size);
      var head := RebuildBatch(i / size + 1, names[i..j]);
      assert ([head] + rest)[1..] == rest;
      if i + size <= |names| {
        BatchesCover(names, size, i + size);
        assert names[i..] == names[i..j] + names[j..];
      } else {
        assert rest == [];
        assert names[i..] == names[i..j];
      }
    }
  }

  /** The number of batches: the number of names divided by the batch size, rounded up. */
  function BatchCount(n: nat, size: int): nat
    requires size > 0
  {
    if n == 0 then 0 else (n - 1) / size + 1
  }

  /** Stepping a batch further on from `i` adds one to the batch number. */
  lemma NextBatchNumber(i: nat, size: int)
    requires size > 0
    ensures (i + size) / size == i / size + 1
  {
    var q, r := (i + size) / size, (i + size) % size;
    var q0, r0 := i / size, i % size;
    assert i + size == q * size + r && 0 <= r < size;
    assert i == q0 * size + r0 && 0 <= r0 < size;
    var d := q - q0 - 1;
    assert d * size == r0 - r by {
      assert q * size == (d + q0 + 1) * size == d * size + q0 * size + size;
    }
  }

  /**
   * The batches from position `i` on: there are as many as the remaining names divided by the
   * size, rounded up; they are numbered consecutively from `i / size + 1`; none is empty or
   * larger than the size, and all but the last are full.
   */
  lemma {:induction false} BatchesShape(names: seq<string>, size: int, i: nat)
    requires size > 0
    ensures var b := BatchesFrom(names, size, i);
      && |b| == (if i >= |names| then 0 else BatchCount(|names| - i, size))
      && (forall k :: 0 <= k < |b| ==> b[k].RebuildBatch? && b[k].number == i / size + k + 1)
      && (forall k :: 0 <= k < |b| ==> 0 < |b[k].packages| <= size)
      && (forall k :: 0 <= k < |b| - 1 ==> |b[k].packages| == size)
    decreases |names| - i
  {
    var b := BatchesFrom(names, size, i);
    if i < |names| {
      BatchesShape(names, size, i + size);
      NextBatchNumber(i, size);
      var rest := BatchesFrom(names, size, i + size);
      assert b == [b[0]] + rest;
      var n := |names| - i;
      if i + size < |names| {
        assert (n - 1) / size == (n - size - 1) / size + 1 by {
          NextBatchNumber(n - size - 1, size);
        }
        assert |b[0].packages| == size;
      } else {
        assert (n - 1) / size == 0;
      }
      forall k | 0 < k < |b| ensures b[k] == rest[k - 1] {
      }
    }
  }

  /**
   * The batches of a positive size: numbered 1, 2, ... in order, every one full except possibly
   * the last, none empty, together handing on every name once in order.
   */
  lemma BatchesSpec(names: seq<string>, size: int)
    requires size > 0
    ensures var b := BatchesFrom(names, size, 0);
      && |b| == BatchCount(|names|, size)
      && Rebuilt(b) == names
      && (forall k :: 0 <= k < |b| ==> b[k].RebuildBatch? && b[k].number == k + 1)
      && (forall k :: 0 <= k < |b| ==> 0 < |b[k].packages| <= size)
      && (forall k :: 0 <= k < |b| - 1 ==> |b[k].packages| == size)
  {
    BatchesShape(names, size, 0);
    BatchesCover(names, size, 0);
  }

  /** The `range(0, len(names), size)` loop for a positive size. */
  method RebuildInBatches(names: seq<string>, size: int) returns (actions: seq<Action>)
    requires size > 0
    ensures actions == BatchesFrom(names, size, 0)
  {
    actions := [];
    var i := 0;
    while i < |names|
      invariant 0 <= i
      invariant actions + BatchesFrom(names, size, i) == BatchesFrom(names, size, 0)
      decreases |names| - i
    {
      var batch := names[i..Min(i + size, |names|)];
      assert BatchesFrom(names, size, i) == [RebuildBatch(i / size + 1, batch)] + BatchesFrom(names, size, i + size);
      actions := actions + [RebuildBatch(i / size + 1, batch)];
      i := i + size;
    }
  }

  // ================================================================ dispatch

  /** The actions so far and the exception that ended the run, if any. */
  datatype Progress = Progress(actions: seq<Action>, crash: Option<Crash>)

  /** `[issue["package_name"] for issue in group]`: `None` when an issue lacks the key. */
  function PackageNames(group: seq<Issue>): (r: Option<seq<string>>)
    ensures r.None? <==> exists i :: 0 <= i < |group| && group[i].packageName.None?
    ensures r.Some? ==> |r.value| == |group| && forall i :: 0 <= i < |group| ==> Some(r.value[i]) == group[i].packageName
  {
    if |group| == 0 then Some([])
    else
      var init := PackageNames(group[..|group| - 1]);
      var x := group[|group| - 1];
      if init.None? then
        var i :| 0 <= i < |group| - 1 && group[..|group| - 1][i].packageName.None?;
        assert group[i] == group[..|group| - 1][i];
        None
      else if x.packageName.None? then None
      else
        var r := init.value + [x.packageName.value];
        assert forall i :: 0 <= i < |group| - 1 ==> group[i] == group[..|group| - 1][i];
        Some(r)
  }

  /** What handling one group does, given the batch size. */
  function DispatchType(t: string, group: seq<Issue>, size: int): Progress {
    var heading := Processing(t, |group|);
    if t == NEEDS_REBUILD then
      var names := PackageNames(group);
      if names.None? then Progress([heading], Some(MissingPackageName))
      else if size == 0 then Progress([heading], Some(ZeroBatchSize))
      else if size < 0 then Progress([heading], None)
      else Progress([heading] + BatchesFrom(names.value, size, 0), None)
    else if t == NEEDS_RELEASE then Progress([heading, ReleaseNotImplemented(|group|)], None)
    else if t == UNKNOWN then Progress([heading, UnknownNotImplemented(|group|)], None)
    else Progress([heading, UnsupportedType(t, |group|)], None)
  }

  /** Handling the groups of `types` in order, stopping at the first exception. */
  function DispatchTypes(types: seq<string>, groups: map<string, seq<Issue>>, size: int): Progress
    requires forall t :: t in types ==> t in groups
  {
    if |types| == 0 then Progress([], None)
    else
      var before := DispatchTypes(types[..|types| - 1], groups, size);
      if before.crash.Some? then before
      else
        var t := types[|types| - 1];
        var step := DispatchType(t, groups[t], size);
        Progress(before.actions + step.actions, step.crash)
  }

  /** The run of `fix_issues` on the outcome of reading the file. */
  function FixPlan(file: IssuesFile, batchRebuild: int): Run {
    match file
    case Loaded(issues) =>
      if issues.None? || |issues.value| == 0 then Run([], NothingToFix)
      else
        var p := DispatchTypes(TypesInOrder(issues.value), GroupsOf(issues.value), batchRebuild);
        Run(p.actions, if p.crash.Some? then Crashed(p.crash.value) else Finished(|issues.value|))
    case _ => Run([], ExitCode(1))
  }

  /**
   * A type other than needs_rebuild prints its heading and one warning that names its kind and
   * the size of its group; it never raises and hands nothing on.
   */
  lemma OtherTypesQuiet(t: string, group: seq<Issue>, size: int)
    requires t != NEEDS_REBUILD
    ensures DispatchType(t, group, size).crash.None?
    ensures Rebuilt(DispatchType(t, group, size).actions) == []
    ensures var a := DispatchType(t, group, size).actions;
      && |a| == 2 && a[0] == Processing(t, |group|)
      && (a[1].ReleaseNotImplemented? <==> t == NEEDS_RELEASE)
      && (a[1].UnknownNotImplemented? <==> t == UNKNOWN)
      && (a[1].UnsupportedType? <==> t != NEEDS_RELEASE && t != UNKNOWN)
      && (a[1].UnsupportedType? ==> a[1].issueType == t)
      && a[1].count == |group|
  {
    var a := DispatchType(t, group, size).actions;
    assert |a| == 2 && !a[0].RebuildBatch? && !a[1].RebuildBatch?;
    assert Rebuilt(a[1..][1..]) == [];
    assert Rebuilt(a[1..]) == [];
  }

  /**
   * The handling of the needs_rebuild group: its heading, then an exception for a missing name
   * or a batch size of 0, nothing more for a negative size, and otherwise its batches, which
   * hand on exactly the group's names.
   */
  lemma RebuildTypeSpec(group: seq<Issue>, size: int)
    ensures var p := DispatchType(NEEDS_REBUILD, group, size);
      && (p.crash == Some(MissingPackageName) <==> exists i :: 0 <= i < |group| && group[i].packageName.None?)
      && (p.crash == Some(ZeroBatchSize) <==> PackageNames(group).Some? && size == 0)
      && (p.crash.None? ==> Rebuilt(p.actions) == if size > 0 then PackageNames(group).value else [])
      && (p.crash.Some? || size < 0 ==> p.actions == [Processing(NEEDS_REBUILD, |group|)])
      && (p.crash.None? && size > 0 ==>
            p.actions == [Processing(NEEDS_REBUILD, |group|)] + BatchesFrom(PackageNames(group).value, size, 0))
  {
    var p := DispatchType(NEEDS_REBUILD, group, size);
    var heading := Processing(NEEDS_REBUILD, |group|);
    if p.crash.None? {
      RebuiltAppend([heading], p.actions[1..]);
      assert [heading] + p.actions[1..] == p.actions;
      assert [heading][1..] == [];
      if size > 0 {
        BatchesCover(PackageNames(group).value, size, 0);
      }
    }
  }

  /**
   * Over distinct types, the run raises exactly when the needs_rebuild group raises, and
   * otherwise hands on exactly the packages that group hands on.
   */
  lemma {:induction false} DispatchTypesSpec(types: seq<string>, groups: map<string, seq<Issue>>, size: int)
    requires Distinct(types) && forall t :: t in types ==> t in groups
    ensures var p := DispatchTypes(types, groups, size);
      var r := if NEEDS_REBUILD in types then DispatchType(NEEDS_REBUILD, groups[NEEDS_REBUILD], size) else Progress([], None);
      && p.crash == r.crash
      && (p.crash.None? ==> Rebuilt(p.actions) == Rebuilt(r.actions))
  {
    if |types| > 0 {
      var init := types[..|types| - 1];
      var t := types[|types| - 1];
      assert forall u :: u in types <==> u in init || u == t;
      assert t !in init;
      DispatchTypesSpec(init, groups, size);
      var before := DispatchTypes(init, groups, size);
      if before.crash.None? {
        var step := DispatchType(t, groups[t], size);
        RebuiltAppend(before.actions, step.actions);
        if t != NEEDS_REBUILD {
          OtherTypesQuiet(t, groups[t], size);
        }
      }
    }
  }

  /** The types whose `Processing …` heading the actions print, in order. */
  function Headings(actions: seq<Action>): seq<string> {
    if |actions| == 0 then []
    else
      var a := actions[|actions| - 1];
      Headings(actions[..|actions| - 1]) + (if a.Processing? then [a.issueType] else [])
  }

  lemma {:induction false} HeadingsAppend(a: seq<Action>, b: seq<Action>)
    ensures Headings(a + b) == Headings(a) + Headings(b)
    decreases |b|
  {
    if |b| == 0 {
      assert a + b == a;
    } else {
      var b' := b[..|b| - 1];
      assert (a + b)[..|a + b| - 1] == a + b';
      assert (a + b)[|a + b| - 1] == b[|b| - 1];
      HeadingsAppend(a, b');
    }
  }

  /** Batches print no heading. */
  lemma {:induction false} BatchesHaveNoHeadings(names: seq<string>, size: int, i: nat)
    requires size > 0
    ensures Headings(BatchesFrom(names, size, i)) == []
    decreases |names| - i
  {
    if i < |names| {
      var head := RebuildBatch(i / size + 1, names[i..Min(i + size, |names|)]);
      BatchesHaveNoHeadings(names, size, i + size);
      HeadingsAppend([head], BatchesFrom(names, size, i + size));
      assert [head][..0] == [];
    }
  }

  /** Handling one group prints exactly one heading: its own. */
  lemma DispatchTypeHeading(t: string, group: seq<Issue>, size: int)
    ensures Headings(DispatchType(t, group, size).actions) == [t]
  {
    var heading := Processing(t, |group|);
    assert [heading][..0] == [];
    if t == NEEDS_REBUILD && PackageNames(group).Some? && size > 0 {
      BatchesHaveNoHeadings(PackageNames(group).value, size, 0);
      HeadingsAppend([heading], BatchesFrom(PackageNames(group).value, size, 0));
    } else if t != NEEDS_REBUILD {
      var a := DispatchType(t, group, size).actions;
      assert a[..1] == [heading] && !a[1].Processing?;
      assert Headings([heading]) == [t];
      assert Headings(a) == Headings([heading]);
    }
  }

  /**
   * The groups are handled in the order of `types`: the headings printed are a prefix of
   * `types`, and all of them when nothing raises.
   */
  lemma {:induction false} DispatchTypesHeadings(types: seq<string>, groups: map<string, seq<Issue>>, size: int)
    requires forall t :: t in types ==> t in groups
    ensures var h := Headings(DispatchTypes(types, groups, size).actions);
      |h| <= |types| && h == types[..|h|]
    ensures DispatchTypes(types, groups, size).crash.None? ==>
      Headings(DispatchTypes(types, groups, size).actions) == types
  {
    if |types| > 0 {
      var init := types[..|types| - 1];
      var t := types[|types| - 1];
      DispatchTypesHeadings(init, groups, size);
      var before := DispatchTypes(init, groups, size);
      var hb := Headings(before.actions);
      assert init[..|hb|] == types[..|hb|];
      if before.crash.None? {
        var step := DispatchType(t, groups[t], size);
        HeadingsAppend(before.actions, step.actions);
        DispatchTypeHeading(t, groups[t], size);
        assert init + [t] == types;
        assert types[..|types|] == types;
      }
    }
  }

  /**
   * The run prints the headings of the types in order of first appearance, stopping after the
   * type that raises; a finished run prints every type's heading.
   */
  lemma FixPlanHeadings(issues: seq<Issue>, batchRebuild: int)
    requires issues != []
    ensures var run := FixPlan(Loaded(Some(issues)), batchRebuild);
      var h := Headings(run.actions);
      var order := TypesInOrder(issues);
      && |h| <= |order| && h == order[..|h|]
      && (run.ending.Finished? ==> h == order)
  {
    DispatchTypesHeadings(TypesInOrder(issues), GroupsOf(issues), batchRebuild);
  }

  /**
   * A file that is missing, unreadable or not JSON ends the run with exit status 1; a missing or
   * empty `issues` list ends it with nothing to fix. Neither does anything else.
   */
  lemma FixPlanWithoutIssues(file: IssuesFile, batchRebuild: int)
    ensures !file.Loaded? ==> FixPlan(file, batchRebuild) == Run([], ExitCode(1))
    ensures file.Loaded? && (file.issues.None? || file.issues.value == []) ==>
      FixPlan(file, batchRebuild) == Run([], NothingToFix)
  {
  }

  /**
   * With a non-empty list of issues, what the run raises and hands on is what the needs_rebuild
   * group raises and hands on (nothing when there is no such issue).
   */
  lemma FixPlanFollowsRebuildGroup(issues: seq<Issue>, batchRebuild: int)
    requires issues != []
    ensures var rebuild := OfType(issues, NEEDS_REBUILD);
      var run := FixPlan(Loaded(Some(issues)), batchRebuild);
      var r := if |rebuild| > 0 then DispatchType(NEEDS_REBUILD, rebuild, batchRebuild) else Progress([], None);
      && (run.ending.Crashed? <==> r.crash.Some?)
      && (r.crash.Some? ==> run.ending == Crashed(r.crash.value))
      && (r.crash.None? ==> run.ending == Finished(|issues|) && Rebuilt(run.actions) == Rebuilt(r.actions))
  {
    var types := TypesInOrder(issues);
    var groups := GroupsOf(issues);
    var rebuild := OfType(issues, NEEDS_REBUILD);
    GroupingSpec(issues);
    DispatchTypesSpec(types, groups, batchRebuild);
    if NEEDS_REBUILD in types {
      assert groups[NEEDS_REBUILD] == rebuild;
    } else {
      OfTypeAbsent(issues, NEEDS_REBUILD);
    }
  }

  /**
   * With a non-empty list of issues, the run raises exactly when a needs_rebuild issue lacks its
   * package name, or when the batch size is 0 while there are needs_rebuild issues.
   */
  lemma FixPlanCrashes(issues: seq<Issue>, batchRebuild: int)
    requires issues != []
    ensures var rebuild := OfType(issues, NEEDS_REBUILD);
      var run := FixPlan(Loaded(Some(issues)), batchRebuild);
      && (run.ending == Crashed(MissingPackageName) <==>
            exists i :: 0 <= i < |rebuild| && rebuild[i].packageName.None?)
      && (run.ending == Crashed(ZeroBatchSize) <==>
            PackageNames(rebuild).Some? && |rebuild| > 0 && batchRebuild == 0)
  {
    FixPlanFollowsRebuildGroup(issues, batchRebuild);
    RebuildTypeSpec(OfType(issues, NEEDS_REBUILD), batchRebuild);
  }

  /**
   * Otherwise it finishes with every issue processed, handing on the needs_rebuild packages in
   * file order (none for a negative batch size).
   */
  lemma FixPlanFinishes(issues: seq<Issue>, batchRebuild: int)
    requires issues != []
    ensures var rebuild := OfType(issues, NEEDS_REBUILD);
      var run := FixPlan(Loaded(Some(issues)), batchRebuild);
      && (!run.ending.Crashed? ==> run.ending == Finished(|issues|))
      && (!run.ending.Crashed? ==>
            && PackageNames(rebuild).Some?
            && Rebuilt(run.actions) == if batchRebuild > 0 then PackageNames(rebuild).value else [])
  {
    FixPlanFollowsRebuildGroup(issues, batchRebuild);
    RebuildTypeSpec(OfType(issues, NEEDS_REBUILD), batchRebuild);
  }

  /** Handling one group: the heading, then the batches or the warning. */
  method ProcessType(t: string, group: seq<Issue>, batchRebuild: int) returns (p: Progress)
    ensures p == DispatchType(t, group, batchRebuild)
  {
    var heading := Processing(t, |group|);
    if t == NEEDS_REBUILD {
      var names := PackageNames(group);
      if names.None? {
        return Progress([heading], Some(MissingPackageName));
      }
      if batchRebuild == 0 {
        return Progress([heading], Some(ZeroBatchSize));
      }
      if batchRebuild < 0 {
        return Progress([heading], None);
      }
      var batches := RebuildInBatches(names.value, batchRebuild);
      return Progress([heading] + batches, None);
    } else if t == NEEDS_RELEASE {
      return Progress([heading, ReleaseNotImplemented(|group|)], None);
    } else if t == UNKNOWN {
      return Progress([heading, UnknownNotImplemented(|group|)], None);
    } else {
      return Progress([heading, UnsupportedType(t, |group|)], None);
    }
  }

  /** `fix_issues`: read the report, group, handle every group in order. */
  method FixIssues(file: IssuesFile, batchRebuild: int) returns (run: Run)
    ensures run == FixPlan(file, batchRebuild)
  {
    if !file.Loaded? {
      return Run([], ExitCode(1));
    }
    if file.issues.None? || |file.issues.value| == 0 {
      return Run([], NothingToFix);
    }
    var issues := file.issues.value;
    var order, groups := GroupByType(issues);
    var actions: seq<Action> := [];
    for i := 0 to |order|
      invariant DispatchTypes(order[..i], groups, batchRebuild) == Progress(actions, None)
    {
      assert order[..i + 1][..i] == order[..i];
      var step := ProcessType(order[i], groups[order[i]], batchRebuild);
      if step.crash.Some? {
        CrashStops(order, groups, batchRebuild, i + 1);
        return Run(actions + step.actions, Crashed(step.crash.value));
      }
      actions := actions + step.actions;
    }
    assert order[..|order|] == order;
    return Run(actions, Finished(|issues|));
  }

  /** Once a group raises, the remaining groups are not handled. */
  lemma {:induction false} CrashStops(types: seq<string>, groups: map<string, seq<Issue>>, size: int, j: nat)
    requires j <= |types| && forall t :: t in types ==> t in groups
    requires DispatchTypes(types[..j], groups, size).crash.Some?
    ensures DispatchTypes(types, groups, size) == DispatchTypes(types[..j], groups, size)
    decreases |types| - j
  {
    if j < |types| {
      var init := types[..|types| - 1];
      assert init[..j] == types[..j];
      CrashStops(init, groups, size, j);
    } else {
      assert types[..j] == types;
    }
  }
}
