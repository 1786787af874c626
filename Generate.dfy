/**
 * The content builders of the `generate` command: the wrapper files of each package
 * (`pyproject.toml`, `requirements.in`, `requirements.txt`, `requirements-build.txt`,
 * `argfile.conf`), each written only when it does not exist yet; the pip-tools and pybuild-deps
 * command lines; the Pipeline-as-Code templates with `${name}` and `${containerfile}`
 * substituted and appended to the pipeline files; and the top-level kustomization listing every
 * package.
 *
 * The working tree is a map from paths relative to the base directory to file contents. The
 * tools run as subprocesses are recorded as command lines; what they write is a parameter.
 */
module Generate {
  import opened Wrappers
  import opened Text
  import opened Sorting
  import opened Listing

  // ================================================================ configuration

  /** One package's entry in `packages/additional-requirements.yaml`. */
  datatype PackageConfig = PackageConfig(requirementsIn: Option<seq<string>>, packageName: Option<string>)

  /** The loaded document: its `packages` mapping, if present. */
  datatype AdditionalRequirements = AdditionalRequirements(packages: Option<map<string, PackageConfig>>)

  const NO_ADDITIONAL_REQUIREMENTS := AdditionalRequirements(None)

  /**
   * `load_additional_requirements`: `file` is `None` when the YAML file does not exist and
   * `Some(doc)` with what `yaml.safe_load` returned otherwise (`None` for an empty file).
   */
  function LoadAdditionalRequirements(file: Option<Option<AdditionalRequirements>>): (r: AdditionalRequirements)
    ensures file.None? || file.value.None? ==> r == NO_ADDITIONAL_REQUIREMENTS
    ensures file.Some? && file.value.Some? ==> r == file.value.value
  {
    match file
    case None => NO_ADDITIONAL_REQUIREMENTS
    case Some(doc) => doc.GetOr(NO_ADDITIONAL_REQUIREMENTS)
  }

  /** `additional_requirements.get("packages", {}).get(name, {})`. */
  function ConfigFor(additional: AdditionalRequirements, name: string): (c: PackageConfig)
    ensures additional.packages.None? || name !in additional.packages.value ==> c == PackageConfig(None, None)
    ensures additional.packages.Some? && name in additional.packages.value ==> c == additional.packages.value[name]
  {
    if additional.packages.Some? && name in additional.packages.value then additional.packages.value[name]
    else PackageConfig(None, None)
  }

  // ================================================================ find_packages

  /** `find_packages`: exit status 1 when the directory is missing, else the sorted sub-directories. */
  method FindPackages(packagesDir: Option<seq<DirEntry>>) returns (r: Result<seq<string>, int>)
    ensures r.Failure? <==> packagesDir.None?
    ensures r.Failure? ==> r.error == 1
    ensures r.Success? ==> SortedBy(r.value, NameKey)
    ensures r.Success? ==> forall n :: n in r.value <==> DirEntry(n, true) in packagesDir.value
    ensures r.Success? ==> r.value == SortBy(SubdirectoryNames(packagesDir.value), NameKey)
  {
    if packagesDir.None? {
      return Failure(1);
    }
    var names := SortedSubdirectories(packagesDir.value);
    return Success(names);
  }

  // ================================================================ wrapper contents

  /** The path of a file in a package directory, relative to the base directory. */
  function PackageFile(name: string, file: string): string {
    "packages/" + name + "/" + file
  }

  /** Two files of the same package have different paths. */
  lemma PackageFileInjective(name: string, a: string, b: string)
    requires PackageFile(name, a) == PackageFile(name, b)
    ensures a == b
  {
    var prefix := "packages/" + name + "/";
    assert PackageFile(name, a) == prefix + a && PackageFile(name, b) == prefix + b;
    assert a == (prefix + a)[|prefix|..];
    assert b == (prefix + b)[|prefix|..];
  }

  /** The lines of a text in which each line is followed by a newline. */
  function Unlines(lines: seq<string>): string {
    if |lines| == 0 then "" else lines[0] + "\n" + Unlines(lines[1..])
  }

  lemma {:induction false} UnlinesIsJoin(lines: seq<string>)
    requires |lines| >= 1
    ensures Unlines(lines) == Join(lines, "\n") + "\n"
  {
    if |lines| > 1 {
      UnlinesIsJoin(lines[1..]);
    }
  }

  lemma {:induction false} UnlinesAppend(a: seq<string>, b: seq<string>)
    ensures Unlines(a + b) == Unlines(a) + Unlines(b)
  {
    if |a| > 0 {
      assert (a + b)[1..] == a[1..] + b;
      UnlinesAppend(a[1..], b);
    } else {
      assert a + b == b;
    }
  }

  /** Reading back a text made of newline-terminated lines gives the lines. */
  lemma UnlinesRoundTrip(lines: seq<string>)
    requires |lines| >= 1
    requires forall i :: 0 <= i < |lines| ==> '\n' !in lines[i]
    ensures Lines(Unlines(lines)) == lines
  {
    UnlinesIsJoin(lines);
    LinesOfJoined(lines);
  }

  /** `pyproject.toml` of the placeholder wrapper. */
  function PyprojectLines(name: string): seq<string> {
    ["[project]", "name = \"" + name + "_placeholder_wrapper\"", "version = \"0.0.1\""]
  }

  /** The file: those lines, each ended by a newline. */
  function PyprojectContent(name: string): string {
    Unlines(PyprojectLines(name))
  }

  /** The wrapper project is named after the package and has version 0.0.1, one setting per line. */
  lemma PyprojectShape(name: string)
    requires '\n' !in name
    ensures Lines(PyprojectContent(name)) == PyprojectLines(name)
  {
    PyprojectLinesSingle(name);
    UnlinesRoundTrip(PyprojectLines(name));
  }

  /** The text is the three-line f-string of `generate_package_wrapper`. */
  lemma PyprojectText(name: string)
    ensures PyprojectContent(name)
      == "[project]\n" + "name = \"" + name + "_placeholder_wrapper\"\n" + "version = \"0.0.1\"\n"
  {
    UnlinesThree("[project]", "name = \"" + name + "_placeholder_wrapper\"", "version = \"0.0.1\"");
  }

  /** Three lines, each ended by a newline. */
  lemma UnlinesThree(a: string, b: string, c: string)
    ensures Unlines([a, b, c]) == a + "\n" + b + "\n" + c + "\n"
  {
    assert [a, b, c][1..] == [b, c];
    assert [b, c][1..] == [c];
    assert Unlines([c]) == c + "\n";
    assert Unlines([b, c]) == b + "\n" + (c + "\n");
  }

  lemma PyprojectLinesSingle(name: string)
    requires '\n' !in name
    ensures forall i :: 0 <= i < |PyprojectLines(name)| ==> '\n' !in PyprojectLines(name)[i]
  {
    var ls := PyprojectLines(name);
    var middle := "name = \"" + name + "_placeholder_wrapper\"";
    assert ls[1] == middle;
    forall j | 0 <= j < |middle| ensures middle[j] != '\n' {
      if 8 <= j < 8 + |name| { assert middle[j] == name[j - 8]; }
    }
    assert '\n' !in ls[0] && '\n' !in ls[2];
  }

  /** The lines of `requirements.in`: the package itself, then the configured extras in order. */
  function RequirementsInLines(name: string, config: PackageConfig): seq<string> {
    [name] + config.requirementsIn.GetOr([])
  }

  /** `"\n".join(requirements_in_content) + "\n"`. */
  function RequirementsInContent(name: string, config: PackageConfig): string {
    Join(RequirementsInLines(name, config), "\n") + "\n"
  }

  /**
   * `requirements.in` read back line by line is the package name followed by the configured
   * requirements, when none of them contains a newline.
   */
  lemma RequirementsInRoundTrip(name: string, config: PackageConfig)
    requires '\n' !in name
    requires forall i :: 0 <= i < |config.requirementsIn.GetOr([])| ==> '\n' !in config.requirementsIn.GetOr([])[i]
    ensures Lines(RequirementsInContent(name, config)) == [name] + config.requirementsIn.GetOr([])
  {
    var ls := RequirementsInLines(name, config);
    forall i | 0 <= i < |ls| ensures '\n' !in ls[i] {
      if i > 0 { assert ls[i] == config.requirementsIn.GetOr([])[i - 1]; }
    }
    LinesOfJoined(ls);
  }

  /** `name.replace("-", "_")`: every hyphen becomes an underscore, nothing else changes. */
  lemma {:induction false} DashesToUnderscores(name: string)
    ensures var r := ReplaceAll(name, "-", "_");
      |r| == |name| && forall i :: 0 <= i < |name| ==> r[i] == if name[i] == '-' then '_' else name[i]
    decreases |name|
  {
    if |name| > 0 {
      DashesToUnderscores(name[1..]);
      var rest := ReplaceAll(name[1..], "-", "_");
      if StartsWith(name, "-") {
        assert ReplaceAll(name, "-", "_") == "_" + ReplaceAll(name[|"-"|..], "-", "_");
        assert name[1..] == name[|"-"|..];
      } else {
        assert name[0] != '-' by { assert name[..1] == [name[0]]; }
        assert ReplaceAll(name, "-", "_") == [name[0]] + rest;
      }
    }
  }

  /** The package name `argfile.conf` carries: the configured one, else the name with `_` for `-`. */
  function ArgfilePackageName(name: string, config: PackageConfig): string {
    config.packageName.GetOr(ReplaceAll(name, "-", "_"))
  }

  function ArgfileContent(name: string, config: PackageConfig): string {
    "PACKAGE_NAME=" + ArgfilePackageName(name, config) + "\n"
  }

  /**
   * `argfile.conf` is the one line `PACKAGE_NAME=<p>`; without a configured name `p` is the
   * directory name with each `-` turned into `_`, so it has no hyphen.
   */
  lemma ArgfileSpec(name: string, config: PackageConfig)
    requires '\n' !in ArgfilePackageName(name, config)
    ensures Lines(ArgfileContent(name, config)) == ["PACKAGE_NAME=" + ArgfilePackageName(name, config)]
    ensures config.packageName.Some? ==> ArgfilePackageName(name, config) == config.packageName.value
    ensures config.packageName.None? ==>
      && |ArgfilePackageName(name, config)| == |name|
      && '-' !in ArgfilePackageName(name, config)
      && forall i :: 0 <= i < |name| && name[i] != '-' ==> ArgfilePackageName(name, config)[i] == name[i]
  {
    var line := "PACKAGE_NAME=" + ArgfilePackageName(name, config);
    assert '\n' !in line by {
      assert line == "PACKAGE_NAME=" + ArgfilePackageName(name, config);
      forall i | 0 <= i < |line| ensures line[i] != '\n' {
        if i >= 13 { assert line[i] == ArgfilePackageName(name, config)[i - 13]; }
      }
    }
    assert Unlines([line]) == ArgfileContent(name, config);
    UnlinesRoundTrip([line]);
    if config.packageName.None? {
      DashesToUnderscores(name);
      var p := ArgfilePackageName(name, config);
      forall i | 0 <= i < |p| ensures p[i] != '-' {
      }
    }
  }

  /**
   * Without a configuration file, or with an empty one, `requirements.in` lists only the package
   * and `argfile.conf` carries the package name derived from the directory name.
   */
  lemma NoConfigurationDefaults(file: Option<Option<AdditionalRequirements>>, name: string)
    requires file.None? || file.value.None?
    ensures var config := ConfigFor(LoadAdditionalRequirements(file), name);
      && RequirementsInContent(name, config) == name + "\n"
      && ArgfilePackageName(name, config) == ReplaceAll(name, "-", "_")
  {
  }

  // ================================================================ command lines

  /** The pip-tools command line of `compile_requirements`. */
  function CompileRequirementsCommand(
    python: string, inputPath: string, outputPath: string, allowUnsafe: bool, generateHashes: bool
  ): (cmd: seq<string>)
    ensures |cmd| == 9
    ensures cmd[0] == python && cmd[1] == "-m" && cmd[2] == "piptools" && cmd[3] == "compile"
    ensures cmd[4] == inputPath && cmd[5] == "--output-file" && cmd[6] == outputPath
    ensures cmd[7] == (if allowUnsafe then "--allow-unsafe" else "--no-allow-unsafe")
    ensures cmd[8] == (if generateHashes then "--generate-hashes" else "--no-generate-hashes")
  {
    [python, "-m", "piptools", "compile", inputPath, "--output-file", outputPath,
     if allowUnsafe then "--allow-unsafe" else "--no-allow-unsafe",
     if generateHashes then "--generate-hashes" else "--no-generate-hashes"]
  }

  /** The command line determines the paths and both switches. */
  lemma CompileRequirementsCommandInjective(
    python: string, in1: string, out1: string, u1: bool, h1: bool,
    in2: string, out2: string, u2: bool, h2: bool)
    requires CompileRequirementsCommand(python, in1, out1, u1, h1) == CompileRequirementsCommand(python, in2, out2, u2, h2)
    ensures in1 == in2 && out1 == out2 && u1 == u2 && h1 == h2
  {
    var c1 := CompileRequirementsCommand(python, in1, out1, u1, h1);
    var c2 := CompileRequirementsCommand(python, in2, out2, u2, h2);
    assert c1[4] == c2[4] && c1[6] == c2[6] && c1[7] == c2[7] && c1[8] == c2[8];
    assert "--allow-unsafe" != "--no-allow-unsafe" by { assert "--allow-unsafe"[2] != "--no-allow-unsafe"[2]; }
    assert "--generate-hashes" != "--no-generate-hashes" by { assert "--generate-hashes"[2] != "--no-generate-hashes"[2]; }
  }

  /** The pybuild-deps command line of `compile_build_requirements`. */
  function CompileBuildRequirementsCommand(python: string, lockPath: string, buildPath: string): (cmd: seq<string>)
    ensures |cmd| == 8
    ensures cmd[0] == python && cmd[1] == "-m" && cmd[2] == "pybuild_deps" && cmd[3] == "compile"
    ensures cmd[4] == "--generate-hashes" && cmd[5] == lockPath && cmd[6] == "--output-file" && cmd[7] == buildPath
  {
    [python, "-m", "pybuild_deps", "compile", "--generate-hashes", lockPath, "--output-file", buildPath]
  }

  // ================================================================ templates

  const NAME_PLACEHOLDER := "${name}"
  const CONTAINERFILE_PLACEHOLDER := "${containerfile}"

  /** The substitution of `generate_pac_resources`: `${name}` first, then `${containerfile}`. */
  function Substitute(template: string, name: string, containerfile: string): string {
    ReplaceAll(ReplaceAll(template, NAME_PLACEHOLDER, name), CONTAINERFILE_PLACEHOLDER, containerfile)
  }

  /** A piece of a template: literal text, or one of the two placeholders. */
  datatype Segment = Literal(text: string) | NameVar | ContainerfileVar

  /** The template text made of the segments. */
  function Render(segments: seq<Segment>): string {
    if |segments| == 0 then ""
    else
      var head := match segments[0]
        case Literal(t) => t
        case NameVar => NAME_PLACEHOLDER
        case ContainerfileVar => CONTAINERFILE_PLACEHOLDER;
      head + Render(segments[1..])
  }

  /** The intended result: each placeholder replaced by its value. */
  function Expand(segments: seq<Segment>, name: string, containerfile: string): string {
    if |segments| == 0 then ""
    else
      var head := match segments[0]
        case Literal(t) => t
        case NameVar => name
        case ContainerfileVar => containerfile;
      head + Expand(segments[1..], name, containerfile)
  }

  /** The template after the first pass: only `${name}` replaced. */
  function ExpandName(segments: seq<Segment>, name: string): string {
    if |segments| == 0 then ""
    else
      var head := match segments[0]
        case Literal(t) => t
        case NameVar => name
        case ContainerfileVar => CONTAINERFILE_PLACEHOLDER;
      head + ExpandName(segments[1..], name)
  }

  /** Literal text without `$`: nothing in it can be taken for a placeholder. */
  predicate PlainText(segments: seq<Segment>) {
    forall i :: 0 <= i < |segments| && segments[i].Literal? ==> '$' !in segments[i].text
  }

  lemma {:induction false} FirstPassReplacesNames(segments: seq<Segment>, name: string)
    requires PlainText(segments)
    ensures ReplaceAll(Render(segments), NAME_PLACEHOLDER, name) == ExpandName(segments, name)
  {
    if |segments| > 0 {
      var rest := segments[1..];
      assert PlainText(rest) by {
        forall i | 0 <= i < |rest| && rest[i].Literal? ensures '$' !in rest[i].text {
          assert rest[i] == segments[i + 1];
        }
      }
      FirstPassReplacesNames(rest, name);
      match segments[0]
      case Literal(t) =>
        ReplaceSkipsLiteral(t, Render(rest), NAME_PLACEHOLDER, name);
      case NameVar =>
        ReplaceAtFront(Render(rest), NAME_PLACEHOLDER, name);
      case ContainerfileVar =>
        OtherPlaceholderSkipped(Render(rest), name);
    }
  }

  /** `${containerfile}` is not `${name}`: the first pass leaves it alone. */
  lemma OtherPlaceholderSkipped(rest: string, name: string)
    ensures ReplaceAll(CONTAINERFILE_PLACEHOLDER + rest, NAME_PLACEHOLDER, name)
         == CONTAINERFILE_PLACEHOLDER + ReplaceAll(rest, NAME_PLACEHOLDER, name)
  {
    var s := CONTAINERFILE_PLACEHOLDER + rest;
    assert s[2] == 'c' && NAME_PLACEHOLDER[2] == 'n';
    assert !StartsWith(s, NAME_PLACEHOLDER) by {
      assert s[..|NAME_PLACEHOLDER|][2] == s[2];
    }
    assert s[1..] == CONTAINERFILE_PLACEHOLDER[1..] + rest;
    assert '$' !in CONTAINERFILE_PLACEHOLDER[1..];
    ReplaceSkipsLiteral(CONTAINERFILE_PLACEHOLDER[1..], rest, NAME_PLACEHOLDER, name);
    assert CONTAINERFILE_PLACEHOLDER == [s[0]] + CONTAINERFILE_PLACEHOLDER[1..];
  }

  lemma {:induction false} SecondPassReplacesContainerfiles(segments: seq<Segment>, name: string, containerfile: string)
    requires PlainText(segments) && '$' !in name
    ensures ReplaceAll(ExpandName(segments, name), CONTAINERFILE_PLACEHOLDER, containerfile)
         == Expand(segments, name, containerfile)
  {
    if |segments| > 0 {
      var rest := segments[1..];
      assert PlainText(rest) by {
        forall i | 0 <= i < |rest| && rest[i].Literal? ensures '$' !in rest[i].text {
          assert rest[i] == segments[i + 1];
        }
      }
      SecondPassReplacesContainerfiles(rest, name, containerfile);
      match segments[0]
      case Literal(t) =>
        ReplaceSkipsLiteral(t, ExpandName(rest, name), CONTAINERFILE_PLACEHOLDER, containerfile);
      case NameVar =>
        ReplaceSkipsLiteral(name, ExpandName(rest, name), CONTAINERFILE_PLACEHOLDER, containerfile);
      case ContainerfileVar =>
        ReplaceAtFront(ExpandName(rest, name), CONTAINERFILE_PLACEHOLDER, containerfile);
    }
  }

  /**
   * Substitution fills in every placeholder with its value, provided the template's own text
   * and the package name contain no `$`.
   */
  lemma SubstituteExpands(segments: seq<Segment>, name: string, containerfile: string)
    requires PlainText(segments) && '$' !in name
    ensures Substitute(Render(segments), name, containerfile) == Expand(segments, name, containerfile)
  {
    FirstPassReplacesNames(segments, name);
    SecondPassReplacesContainerfiles(segments, name, containerfile);
  }

  /**
   * Because `${name}` is replaced first, a package name that itself reads `${containerfile}` is
   * replaced again by the second pass.
   */
  lemma NameIsSubstitutedAgain(containerfile: string)
    ensures Substitute(NAME_PLACEHOLDER, CONTAINERFILE_PLACEHOLDER, containerfile) == containerfile
  {
    ReplaceAtFront("", NAME_PLACEHOLDER, CONTAINERFILE_PLACEHOLDER);
    assert NAME_PLACEHOLDER + "" == NAME_PLACEHOLDER;
    assert CONTAINERFILE_PLACEHOLDER + "" == CONTAINERFILE_PLACEHOLDER;
    ReplaceAtFront("", CONTAINERFILE_PLACEHOLDER, containerfile);
  }

  /** One Pipeline-as-Code template and the pipeline file it is appended to. */
  datatype PacTemplate = PacTemplate(template: string, output: string)

  const PAC_TEMPLATES := [
    PacTemplate(".tekton/on-push.yaml.template", ".tekton/packages-on-push.yaml"),
    PacTemplate(".tekton/on-pull-request.yaml.template", ".tekton/packages-on-pull-request.yaml")]

  const CONTAINERFILE := "Containerfile"

  /** The containerfile the pipelines build: the package's own, else the shared one. */
  function ContainerfileFor(files: map<string, string>, name: string): string {
    if PackageFile(name, CONTAINERFILE) in files then PackageFile(name, CONTAINERFILE) else CONTAINERFILE
  }

  /** One template of `generate_pac_resources`: when it exists, its substitution is appended to the output. */
  function ApplyTemplate(f: map<string, string>, t: PacTemplate, name: string, containerfile: string): map<string, string> {
    if t.template in f then
      f[t.output := (if t.output in f then f[t.output] else "") + Substitute(f[t.template], name, containerfile)]
    else f
  }

  /** The tree after the first `k` templates of `generate_pac_resources`. */
  function PacFiles(files: map<string, string>, name: string, containerfile: string, k: nat): map<string, string>
    requires k <= |PAC_TEMPLATES|
  {
    if k == 0 then files
    else ApplyTemplate(PacFiles(files, name, containerfile, k - 1), PAC_TEMPLATES[k - 1], name, containerfile)
  }

  /**
   * Each pipeline file whose template exists gets the substituted template appended after its
   * old content; nothing else changes.
   */
  lemma PacFilesSpec(files: map<string, string>, name: string, containerfile: string)
    ensures var r := PacFiles(files, name, containerfile, |PAC_TEMPLATES|);
      && (forall p :: p in r <==> p in files || exists t :: t in PAC_TEMPLATES && t.template in files && p == t.output)
      && (forall p :: p in files && (forall t :: t in PAC_TEMPLATES ==> p != t.output) ==> r[p] == files[p])
      && (forall t :: t in PAC_TEMPLATES && t.template in files ==>
            r[t.output] == (if t.output in files then files[t.output] else "") + Substitute(files[t.template], name, containerfile))
      && (forall t :: t in PAC_TEMPLATES && t.template !in files && t.output in files ==> r[t.output] == files[t.output])
  {
    var t0, t1 := PAC_TEMPLATES[0], PAC_TEMPLATES[1];
    assert |t0.output| != |t1.output| && |t1.template| != |t0.output|;
    assert PacFiles(files, name, containerfile, 1) == ApplyTemplate(files, t0, name, containerfile);
    assert PacFiles(files, name, containerfile, |PAC_TEMPLATES|)
      == ApplyTemplate(ApplyTemplate(files, t0, name, containerfile), t1, name, containerfile);
    TwoTemplates(files, t0, t1, name, containerfile);
    assert forall t :: t in PAC_TEMPLATES <==> t == t0 || t == t1;
  }

  /** Two templates with different outputs, the second not reading the first's output. */
  lemma TwoTemplates(files: map<string, string>, t0: PacTemplate, t1: PacTemplate, name: string, containerfile: string)
    requires t0.output != t1.output && t1.template != t0.output
    ensures var r := ApplyTemplate(ApplyTemplate(files, t0, name, containerfile), t1, name, containerfile);
      && (forall p :: p in r <==> p in files || (t0.template in files && p == t0.output) || (t1.template in files && p == t1.output))
      && (forall p :: p in files && p != t0.output && p != t1.output ==> r[p] == files[p])
      && (forall t | t == t0 || t == t1 :: t.template in files ==>
            r[t.output] == (if t.output in files then files[t.output] else "") + Substitute(files[t.template], name, containerfile))
      && (forall t | t == t0 || t == t1 :: t.template !in files && t.output in files ==> r[t.output] == files[t.output])
  {
  }

  // ================================================================ kustomization

  const KUSTOMIZATION_PATH := "konflux/components/kustomization.yaml"
  const KUSTOMIZATION_HEADER_LINES := ["---", "apiVersion: kustomize.config.k8s.io/v1beta1", "kind: Kustomization", "resources:"]
  const KUSTOMIZATION_HEADER := "---\n" + "apiVersion: kustomize.config.k8s.io/v1beta1\n" + "kind: Kustomization\n" + "resources:\n"

  /** One entry of the `resources` list. */
  function ResourceLine(name: string): string {
    "  - " + name
  }

  function ResourceLines(names: seq<string>): seq<string> {
    seq(|names|, i requires 0 <= i < |names| => ResourceLine(names[i]))
  }

  /**
   * The loop of `update_all_kustomization`: the header, then one resource line per package in
   * ascending name order.
   */
  method KustomizationContent(packageNames: seq<string>) returns (content: string)
    ensures content == KUSTOMIZATION_HEADER + Unlines(ResourceLines(SortBy(packageNames, NameKey)))
  {
    var sorted := SortBy(packageNames, NameKey);
    content := AppendResources(KUSTOMIZATION_HEADER, sorted);
  }

  /** `prefix` followed by one resource line per name, in the order given. */
  method AppendResources(prefix: string, names: seq<string>) returns (content: string)
    ensures content == prefix + Unlines(ResourceLines(names))
  {
    content := prefix;
    for i := 0 to |names|
      invariant content == prefix + Unlines(ResourceLines(names[..i]))
    {
      ResourceLinesStep(names, i);
      content := content + "  - " + names[i] + "\n";
    }
    assert names[..|names|] == names;
  }

  /** One more name adds its resource line at the end. */
  lemma ResourceLinesStep(names: seq<string>, i: nat)
    requires i < |names|
    ensures Unlines(ResourceLines(names[..i + 1])) == Unlines(ResourceLines(names[..i])) + "  - " + names[i] + "\n"
  {
    assert ResourceLines(names[..i + 1]) == ResourceLines(names[..i]) + [ResourceLine(names[i])];
    UnlinesAppend(ResourceLines(names[..i]), [ResourceLine(names[i])]);
    assert Unlines([ResourceLine(names[i])]) == ResourceLine(names[i]) + "\n" + "";
  }

  /**
   * Read back line by line, the kustomization is the fixed header followed by one resource line
   * per package, sorted by name, each package listed as often as it was given.
   */
  lemma KustomizationLines(packageNames: seq<string>)
    requires forall i :: 0 <= i < |packageNames| ==> '\n' !in packageNames[i]
    ensures var sorted := SortBy(packageNames, NameKey);
      && Lines(KUSTOMIZATION_HEADER + Unlines(ResourceLines(sorted))) == KUSTOMIZATION_HEADER_LINES + ResourceLines(sorted)
      && SortedBy(sorted, NameKey)
      && multiset(sorted) == multiset(packageNames)
  {
    var sorted := SortBy(packageNames, NameKey);
    forall i | 0 <= i < |sorted| ensures '\n' !in sorted[i] {
      assert sorted[i] in multiset(packageNames);
    }
    ResourceLinesSingle(sorted);
    HeaderThenLines(ResourceLines(sorted));
  }

  /** The header followed by newline-free lines reads back as the header lines and those lines. */
  lemma HeaderThenLines(lines: seq<string>)
    requires forall i :: 0 <= i < |lines| ==> '\n' !in lines[i]
    ensures Lines(KUSTOMIZATION_HEADER + Unlines(lines)) == KUSTOMIZATION_HEADER_LINES + lines
  {
    var all := KUSTOMIZATION_HEADER_LINES + lines;
    HeaderUnlines();
    UnlinesAppend(KUSTOMIZATION_HEADER_LINES, lines);
    HeaderLinesSingle();
    forall i | 0 <= i < |all| ensures '\n' !in all[i] {
      if i >= 4 { assert all[i] == lines[i - 4]; } else { assert all[i] == KUSTOMIZATION_HEADER_LINES[i]; }
    }
    UnlinesRoundTrip(all);
  }

  lemma HeaderLinesSingle()
    ensures forall i :: 0 <= i < |KUSTOMIZATION_HEADER_LINES| ==> '\n' !in KUSTOMIZATION_HEADER_LINES[i]
  {
    var h := KUSTOMIZATION_HEADER_LINES;
    assert '\n' !in h[0];
    assert '\n' !in h[1];
    assert '\n' !in h[2];
    assert '\n' !in h[3];
  }

  lemma HeaderUnlines()
    ensures Unlines(KUSTOMIZATION_HEADER_LINES) == KUSTOMIZATION_HEADER
  {
    var h := KUSTOMIZATION_HEADER_LINES;
    assert Unlines(h[4..]) == "";
    assert Unlines(h[3..]) == "resources:\n";
    assert Unlines(h[2..]) == "kind: Kustomization\n" + "resources:\n";
    assert Unlines(h[1..]) == "apiVersion: kustomize.config.k8s.io/v1beta1\n" + "kind: Kustomization\n" + "resources:\n";
  }

  /** A resource line of a name without a newline holds no newline. */
  lemma ResourceLinesSingle(names: seq<string>)
    requires forall i :: 0 <= i < |names| ==> '\n' !in names[i]
    ensures forall i :: 0 <= i < |names| ==> '\n' !in ResourceLines(names)[i]
  {
    forall i | 0 <= i < |names| ensures '\n' !in ResourceLines(names)[i] {
      var l := ResourceLines(names)[i];
      assert l == "  - " + names[i];
      forall j | 0 <= j < |l| ensures l[j] != '\n' {
        if j >= 4 { assert l[j] == names[i][j - 4]; }
      }
    }
  }

  // ================================================================ the working tree

  /** `path` written with `content` unless it already exists. */
  function WithDefault(files: map<string, string>, path: string, content: string): map<string, string> {
    if path in files then files else files[path := content]
  }

  /** The first two wrapper files: `pyproject.toml` and `requirements.in`. */
  function SourceFiles(files: map<string, string>, name: string, config: PackageConfig): map<string, string> {
    var f := WithDefault(files, PackageFile(name, "pyproject.toml"), PyprojectContent(name));
    WithDefault(f, PackageFile(name, "requirements.in"), RequirementsInContent(name, config))
  }

  /** The lock files, written by pip-tools and pybuild-deps when missing. */
  function LockFiles(files: map<string, string>, name: string, lockOutput: string, buildOutput: string): map<string, string> {
    var f := WithDefault(files, PackageFile(name, "requirements.txt"), lockOutput);
    WithDefault(f, PackageFile(name, "requirements-build.txt"), buildOutput)
  }

  /** The tools run for the missing lock files, each checked when its turn comes. */
  function LockCommands(files: map<string, string>, name: string, python: string, lockOutput: string): seq<seq<string>> {
    var lock := PackageFile(name, "requirements.txt");
    var build := PackageFile(name, "requirements-build.txt");
    (if lock in files then [] else [CompileRequirementsCommand(python, PackageFile(name, "requirements.in"), lock, true, true)])
    + (if build in WithDefault(files, lock, lockOutput) then [] else [CompileBuildRequirementsCommand(python, lock, build)])
  }

  /**
   * The tree after `generate_package_wrapper` for `name`; `lockOutput` and `buildOutput` are
   * what pip-tools and pybuild-deps write.
   */
  function WrapperFiles(
    files: map<string, string>, name: string, additional: AdditionalRequirements,
    lockOutput: string, buildOutput: string
  ): map<string, string> {
    var config := ConfigFor(additional, name);
    var f := LockFiles(SourceFiles(files, name, config), name, lockOutput, buildOutput);
    WithDefault(f, PackageFile(name, "argfile.conf"), ArgfileContent(name, config))
  }

  /** The tools `generate_package_wrapper` runs, in order. */
  function WrapperCommands(
    files: map<string, string>, name: string, additional: AdditionalRequirements, python: string, lockOutput: string
  ): seq<seq<string>> {
    LockCommands(SourceFiles(files, name, ConfigFor(additional, name)), name, python, lockOutput)
  }

  function WrapperPaths(name: string): set<string> {
    {PackageFile(name, "pyproject.toml"), PackageFile(name, "requirements.in"), PackageFile(name, "requirements.txt"),
     PackageFile(name, "requirements-build.txt"), PackageFile(name, "argfile.conf")}
  }

  /**
   * Generating a wrapper never changes an existing file, creates exactly the missing wrapper
   * files, and fills the new `pyproject.toml`, `requirements.in` and `argfile.conf` with their
   * contents.
   */
  lemma WrapperFilesSpec(
    files: map<string, string>, name: string, additional: AdditionalRequirements,
    lockOutput: string, buildOutput: string)
    ensures var r := WrapperFiles(files, name, additional, lockOutput, buildOutput);
      var config := ConfigFor(additional, name);
      && (forall p :: p in files ==> p in r && r[p] == files[p])
      && (forall p :: p in r <==> p in files || p in WrapperPaths(name))
      && (PackageFile(name, "pyproject.toml") !in files ==> r[PackageFile(name, "pyproject.toml")] == PyprojectContent(name))
      && (PackageFile(name, "requirements.in") !in files ==>
            r[PackageFile(name, "requirements.in")] == RequirementsInContent(name, config))
      && (PackageFile(name, "requirements.txt") !in files ==> r[PackageFile(name, "requirements.txt")] == lockOutput)
      && (PackageFile(name, "requirements-build.txt") !in files ==>
            r[PackageFile(name, "requirements-build.txt")] == buildOutput)
      && (PackageFile(name, "argfile.conf") !in files ==> r[PackageFile(name, "argfile.conf")] == ArgfileContent(name, config))
  {
    var config := ConfigFor(additional, name);
    var p1, c1 := PackageFile(name, "pyproject.toml"), PyprojectContent(name);
    var p2, c2 := PackageFile(name, "requirements.in"), RequirementsInContent(name, config);
    var p3, p4 := PackageFile(name, "requirements.txt"), PackageFile(name, "requirements-build.txt");
    var p5, c5 := PackageFile(name, "argfile.conf"), ArgfileContent(name, config);
    WrapperPathsDistinct(name);
    assert WrapperFiles(files, name, additional, lockOutput, buildOutput)
      == WriteFive(files, p1, c1, p2, c2, p3, lockOutput, p4, buildOutput, p5, c5);
    assert WrapperPaths(name) == {p1, p2, p3, p4, p5};
    WritesIfAbsent(files, p1, c1, p2, c2, p3, lockOutput, p4, buildOutput, p5, c5);
  }

  /** Five writes-unless-present in a row. */
  function WriteFive(
    files: map<string, string>,
    p1: string, c1: string, p2: string, c2: string, p3: string, c3: string,
    p4: string, c4: string, p5: string, c5: string
  ): map<string, string> {
    WithDefault(WithDefault(WithDefault(WithDefault(WithDefault(files, p1, c1), p2, c2), p3, c3), p4, c4), p5, c5)
  }

  /** Five writes-unless-present to five different paths. */
  lemma WritesIfAbsent(
    files: map<string, string>,
    p1: string, c1: string, p2: string, c2: string, p3: string, c3: string,
    p4: string, c4: string, p5: string, c5: string)
    requires p1 != p2 && p1 != p3 && p1 != p4 && p1 != p5 && p2 != p3 && p2 != p4 && p2 != p5
    requires p3 != p4 && p3 != p5 && p4 != p5
    ensures var r := WriteFive(files, p1, c1, p2, c2, p3, c3, p4, c4, p5, c5);
      && (forall p :: p in files ==> p in r && r[p] == files[p])
      && (forall p :: p in r <==> p in files || p in {p1, p2, p3, p4, p5})
      && (p1 !in files ==> r[p1] == c1) && (p2 !in files ==> r[p2] == c2) && (p3 !in files ==> r[p3] == c3)
      && (p4 !in files ==> r[p4] == c4) && (p5 !in files ==> r[p5] == c5)
  {
    WritesKeep(files, p1, c1, p2, c2, p3, c3, p4, c4, p5, c5);
    WritesDomain(files, p1, c1, p2, c2, p3, c3, p4, c4, p5, c5);
    WritesEarly(files, p1, c1, p2, c2, p3, c3, p4, c4, p5, c5);
    WritesLate(files, p1, c1, p2, c2, p3, c3, p4, c4, p5, c5);
  }

  lemma WritesKeep(
    files: map<string, string>,
    p1: string, c1: string, p2: string, c2: string, p3: string, c3: string,
    p4: string, c4: string, p5: string, c5: string)
    ensures var r := WriteFive(files, p1, c1, p2, c2, p3, c3, p4, c4, p5, c5);
      forall p :: p in files ==> p in r && r[p] == files[p]
  {
  }

  lemma WritesDomain(
    files: map<string, string>,
    p1: string, c1: string, p2: string, c2: string, p3: string, c3: string,
    p4: string, c4: string, p5: string, c5: string)
    ensures var r := WriteFive(files, p1, c1, p2, c2, p3, c3, p4, c4, p5, c5);
      forall p :: p in r <==> p in files || p in {p1, p2, p3, p4, p5}
  {
  }

  lemma WritesEarly(
    files: map<string, string>,
    p1: string, c1: string, p2: string, c2: string, p3: string, c3: string,
    p4: string, c4: string, p5: string, c5: string)
    requires p1 != p2
    ensures var r := WriteFive(files, p1, c1, p2, c2, p3, c3, p4, c4, p5, c5);
      (p1 !in files ==> r[p1] == c1) && (p2 !in files ==> r[p2] == c2)
  {
  }

  lemma WritesLate(
    files: map<string, string>,
    p1: string, c1: string, p2: string, c2: string, p3: string, c3: string,
    p4: string, c4: string, p5: string, c5: string)
    requires p1 != p3 && p1 != p4 && p1 != p5 && p2 != p3 && p2 != p4 && p2 != p5
    requires p3 != p4 && p3 != p5 && p4 != p5
    ensures var r := WriteFive(files, p1, c1, p2, c2, p3, c3, p4, c4, p5, c5);
      (p3 !in files ==> r[p3] == c3) && (p4 !in files ==> r[p4] == c4) && (p5 !in files ==> r[p5] == c5)
  {
  }

  /** The five wrapper files have five different paths. */
  lemma WrapperPathsDistinct(name: string)
    ensures var p1, p2, p3 := PackageFile(name, "pyproject.toml"), PackageFile(name, "requirements.in"), PackageFile(name, "requirements.txt");
      var p4, p5 := PackageFile(name, "requirements-build.txt"), PackageFile(name, "argfile.conf");
      && p1 != p2 && p1 != p3 && p1 != p4 && p1 != p5
      && p2 != p3 && p2 != p4 && p2 != p5
      && p3 != p4 && p3 != p5
      && p4 != p5
  {
    assert |PackageFile(name, "pyproject.toml")| == |name| + 24;
    assert |PackageFile(name, "requirements.in")| == |name| + 25;
    assert |PackageFile(name, "requirements.txt")| == |name| + 26;
    assert |PackageFile(name, "requirements-build.txt")| == |name| + 32;
    assert |PackageFile(name, "argfile.conf")| == |name| + 22;
  }

  /** The base directory: its files and the tools run so far. */
  class Workspace {
    var files: map<string, string>
    var commands: seq<seq<string>>

    constructor (files: map<string, string>)
      ensures this.files == files && commands == []
    {
      this.files := files;
      commands := [];
    }

    /** Write `content` to `path` unless the file exists. */
    method WriteIfAbsent(path: string, content: string)
      modifies this
      ensures files == WithDefault(old(files), path, content)
      ensures commands == old(commands)
    {
      if path !in files {
        files := files[path := content];
      }
    }

    /**
     * Run a tool that writes `output` to `outputPath`, a path of the base tree. pip-tools gets
     * paths relative to the base but no working directory of its own, so this holds when the
     * process runs in the base directory.
     */
    method RunTool(command: seq<string>, outputPath: string, output: string)
      modifies this
      ensures files == old(files)[outputPath := output]
      ensures commands == old(commands) + [command]
    {
      commands := commands + [command];
      files := files[outputPath := output];
    }

    /** `generate_package_wrapper`: create each missing wrapper file, in order. */
    method GeneratePackageWrapper(
      name: string, additional: AdditionalRequirements, python: string, lockOutput: string, buildOutput: string)
      modifies this
      ensures files == WrapperFiles(old(files), name, additional, lockOutput, buildOutput)
      ensures commands == old(commands) + WrapperCommands(old(files), name, additional, python, lockOutput)
    {
      var config := ConfigFor(additional, name);
      WriteSources(name, config);
      LockRequirements(name, python, lockOutput, buildOutput);
      WriteIfAbsent(PackageFile(name, "argfile.conf"), ArgfileContent(name, config));
    }

    /** Write `pyproject.toml` and `requirements.in` unless they exist. */
    method WriteSources(name: string, config: PackageConfig)
      modifies this
      ensures files == SourceFiles(old(files), name, config)
      ensures commands == old(commands)
    {
      WriteIfAbsent(PackageFile(name, "pyproject.toml"), PyprojectContent(name));
      WriteIfAbsent(PackageFile(name, "requirements.in"), RequirementsInContent(name, config));
    }

    /** Run pip-tools, then pybuild-deps, each only when its output file is missing. */
    method LockRequirements(name: string, python: string, lockOutput: string, buildOutput: string)
      modifies this
      ensures files == LockFiles(old(files), name, lockOutput, buildOutput)
      ensures commands == old(commands) + LockCommands(old(files), name, python, lockOutput)
    {
      var lock := PackageFile(name, "requirements.txt");
      var build := PackageFile(name, "requirements-build.txt");
      var first: seq<seq<string>> := [];
      if lock !in files {
        first := [CompileRequirementsCommand(python, PackageFile(name, "requirements.in"), lock, true, true)];
        RunTool(first[0], lock, lockOutput);
      }
      ghost var f1 := files;
      var second: seq<seq<string>> := [];
      if build !in files {
        second := [CompileBuildRequirementsCommand(python, lock, build)];
        RunTool(second[0], build, buildOutput);
      }
      assert commands == old(commands) + first + second;
    }

    /** `generate_pac_resources`: append each substituted template to its pipeline file. */
    method GeneratePacResources(name: string)
      modifies this
      ensures files == PacFiles(old(files), name, ContainerfileFor(old(files), name), |PAC_TEMPLATES|)
      ensures commands == old(commands)
    {
      var containerfile := ContainerfileFor(files, name);
      for k := 0 to |PAC_TEMPLATES|
        invariant files == PacFiles(old(files), name, containerfile, k)
        invariant commands == old(commands)
      {
        var t := PAC_TEMPLATES[k];
        if t.template in files {
          var content := Substitute(files[t.template], name, containerfile);
          files := files[t.output := (if t.output in files then files[t.output] else "") + content];
        }
      }
    }

    /** `update_all_kustomization`: overwrite the top-level kustomization. */
    method UpdateAllKustomization(packageNames: seq<string>)
      modifies this
      ensures files == old(files)[KUSTOMIZATION_PATH := KUSTOMIZATION_HEADER + Unlines(ResourceLines(SortBy(packageNames, NameKey)))]
      ensures commands == old(commands)
    {
      var content := KustomizationContent(packageNames);
      files := files[KUSTOMIZATION_PATH := content];
    }
  }
}
