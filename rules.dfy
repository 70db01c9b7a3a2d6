/** The detection rules of the framework detector and how one rule is evaluated against
    a file list and an optional `package.json` (`checkRule`). */
module Rules {
  import opened Wrappers
  import opened Strings
  import opened Manifest

  /** The `type` tag of a rule and of a detected technology. */
  datatype TechType = Framework | Language | Library | Tool

  /** One regular expression of the catalog. Every one of them is a file extension anchored
      at the end of the path (`/\.vue$/`, `/\.tsx?$/`, ...), so it matches exactly the paths
      that end in one of `suffixes`. */
  datatype Pattern = EndsWithOneOf(suffixes: seq<string>)

  /** A `DetectionRule`, without its `priority` and `icon`, which nothing reads. */
  datatype Rule = Rule(
    name: string,
    kind: TechType,
    files: seq<string>,
    packageJsonKeys: Option<seq<string>>,
    filePatterns: Option<seq<Pattern>>)

  /** One evidence string, kept structured until it is rendered. */
  datatype Evidence =
    | FoundFiles(files: seq<string>)
    | FoundKeys(keys: seq<string>)
    | Version(version: string)
    | MatchCount(count: nat)

  /** A `DetectedTech`. The detector never fills in `version`. */
  datatype DetectedTech = DetectedTech(
    name: string,
    kind: TechType,
    confidence: int,
    version: Option<string>,
    evidence: seq<Evidence>)

  /** `items.join(", ")`. */
  function JoinComma(items: seq<string>): string {
    if items == [] then ""
    else if |items| == 1 then items[0]
    else items[0] + ", " + JoinComma(items[1..])
  }

  /** The evidence text the detector pushes for each kind of evidence. */
  function Render(e: Evidence): string {
    match e
    case FoundFiles(files) => "Found files: " + JoinComma(files)
    case FoundKeys(keys) => "Found in package.json: " + JoinComma(keys)
    case Version(v) => "Version: " + v
    case MatchCount(n) => "Found " + NatToString(n) + " matching files"
  }

  /** The count in a rendered match-count line reads back as the number of matching files. */
  lemma RenderMatchCount(n: nat)
    ensures var text := Render(MatchCount(n));
      var digits := text[6..|text| - 15];
      text == "Found " + digits + " matching files" && IsDigits(digits) && DecimalValue(digits) == n
  {
    var digits := NatToString(n);
    var text := Render(MatchCount(n));
    assert text == "Found " + digits + " matching files";
    assert text[6..|text| - 15] == digits;
    NatToStringRoundTrip(n);
  }

  /** Where `items.join(", ")` places item `i`: after every earlier item and its `", "`. */
  function CommaOffset(items: seq<string>, i: nat): nat
    requires i <= |items|
  {
    if i == 0 then 0 else |items[0]| + 2 + CommaOffset(items[1..], i - 1)
  }

  /** The joined text holds each item at its offset, a `", "` after every item but the last,
      and nothing after the last item. */
  lemma {:induction false} JoinCommaLayout(items: seq<string>, i: nat)
    requires i < |items|
    ensures OccursAt(JoinComma(items), items[i], CommaOffset(items, i))
    ensures i + 1 < |items| ==> OccursAt(JoinComma(items), ", ", CommaOffset(items, i) + |items[i]|)
    ensures i + 1 == |items| ==> |JoinComma(items)| == CommaOffset(items, i) + |items[i]|
  {
    var text := JoinComma(items);
    if i == 0 {
      if |items| > 1 {
        assert text == items[0] + ", " + JoinComma(items[1..]);
        assert text[..|items[0]|] == items[0];
        assert text[|items[0]|..|items[0]| + 2] == ", ";
      }
    } else {
      var rest := JoinComma(items[1..]);
      var shift := |items[0]| + 2;
      JoinCommaLayout(items[1..], i - 1);
      assert text == items[0] + ", " + rest;
      var at := CommaOffset(items[1..], i - 1);
      assert items[1..][i - 1] == items[i];
      assert text[shift + at..shift + at + |items[i]|] == rest[at..at + |items[i]|];
      if i + 1 < |items| {
        var sep := at + |items[i]|;
        assert text[shift + sep..shift + sep + 2] == rest[sep..sep + 2];
      }
    }
  }

  /** The found-keys evidence reads "Found in package.json: " followed by the keys in order,
      separated by `", "`. */
  lemma RenderFoundKeys(keys: seq<string>)
    ensures IsPrefix("Found in package.json: ", Render(FoundKeys(keys)))
    ensures forall i :: 0 <= i < |keys| ==> OccursAt(Render(FoundKeys(keys)), keys[i], 23 + CommaOffset(keys, i))
    ensures forall i :: 0 <= i < |keys| - 1 ==>
      OccursAt(Render(FoundKeys(keys)), ", ", 23 + CommaOffset(keys, i) + |keys[i]|)
  {
    var head := "Found in package.json: ";
    var text := Render(FoundKeys(keys));
    var joined := JoinComma(keys);
    assert text == head + joined;
    forall i | 0 <= i < |keys|
      ensures OccursAt(text, keys[i], 23 + CommaOffset(keys, i))
      ensures i < |keys| - 1 ==> OccursAt(text, ", ", 23 + CommaOffset(keys, i) + |keys[i]|)
    {
      JoinCommaLayout(keys, i);
      var at := CommaOffset(keys, i);
      assert text[23 + at..23 + at + |keys[i]|] == joined[at..at + |keys[i]|];
      if i < |keys| - 1 {
        var sep := at + |keys[i]|;
        assert text[23 + sep..23 + sep + 2] == joined[sep..sep + 2];
      }
    }
  }

  const NextJs := Rule("Next.js", Framework, ["next.config.js", "next.config.mjs", "next.config.ts"], Some(["next"]), None)
  const React := Rule("React", Framework, [], Some(["react", "react-dom"]), None)
  const VueJs := Rule("Vue.js", Framework, ["vue.config.js"], Some(["vue"]), Some([EndsWithOneOf([".vue"])]))
  const Angular := Rule("Angular", Framework, ["angular.json"], Some(["@angular/core"]), None)
  const Svelte := Rule("Svelte", Framework, ["svelte.config.js"], Some(["svelte"]), Some([EndsWithOneOf([".svelte"])]))
  const NuxtJs := Rule("Nuxt.js", Framework, ["nuxt.config.js", "nuxt.config.ts"], Some(["nuxt"]), None)
  const ExpressJs := Rule("Express.js", Framework, [], Some(["express"]), None)
  const NestJs := Rule("NestJS", Framework, ["nest-cli.json"], Some(["@nestjs/core"]), None)
  const Django := Rule("Django", Framework, ["manage.py", "settings.py"], Some([]), None)
  const Flask := Rule("Flask", Framework, ["app.py"], Some([]), None)
  const FastApi := Rule("FastAPI", Framework, ["main.py"], Some([]), None)
  const SpringBoot := Rule("Spring Boot", Framework, ["pom.xml", "build.gradle"], Some([]), None)
  const Webpack := Rule("Webpack", Tool, ["webpack.config.js"], Some(["webpack"]), None)
  const Vite := Rule("Vite", Tool, ["vite.config.js", "vite.config.ts"], Some(["vite"]), None)
  const Turbopack := Rule("Turbopack", Tool, [], Some(["turbo"]), None)
  const TypeScript := Rule("TypeScript", Language, ["tsconfig.json"], Some(["typescript"]), Some([EndsWithOneOf([".ts", ".tsx"])]))
  const JavaScript := Rule("JavaScript", Language, ["package.json"], None, Some([EndsWithOneOf([".js", ".jsx"])]))
  const Python := Rule("Python", Language, ["requirements.txt", "Pipfile", "pyproject.toml"], None, Some([EndsWithOneOf([".py"])]))
  const Redux := Rule("Redux", Library, [], Some(["redux", "@reduxjs/toolkit"]), None)
  const Zustand := Rule("Zustand", Library, [], Some(["zustand"]), None)
  const Pinia := Rule("Pinia", Library, [], Some(["pinia"]), None)
  const TailwindCss := Rule("Tailwind CSS", Library, ["tailwind.config.js", "tailwind.config.ts"], Some(["tailwindcss"]), None)
  const Bootstrap := Rule("Bootstrap", Library, [], Some(["bootstrap"]), None)
  const Prisma := Rule("Prisma", Library, ["prisma/schema.prisma"], Some(["prisma", "@prisma/client"]), None)
  const MongoDb := Rule("MongoDB", Library, [], Some(["mongodb", "mongoose"]), None)

  /** `DETECTION_RULES`, in catalog order. */
  const DetectionRules: seq<Rule> := [
    NextJs, React, VueJs, Angular, Svelte, NuxtJs, ExpressJs, NestJs,
    Django, Flask, FastApi, SpringBoot,
    Webpack, Vite, Turbopack,
    TypeScript, JavaScript, Python,
    Redux, Zustand, Pinia, TailwindCss, Bootstrap, Prisma, MongoDb]

  /** What one signal adds to a rule's confidence, and the evidence it pushes. */
  datatype Signal = Signal(weight: int, evidence: seq<Evidence>)

  const NoSignal := Signal(0, [])

  /** The callback of the file-name filter as written. Its block body evaluates the
      `some` test, discards the result and has no `return`, so it yields `undefined`,
      which `filter` reads as false. */
  predicate FileCallbackAsWritten(fileList: seq<string>, file: string) {
    false
  }

  /** The file-name filter as written: no declared file name is ever kept. */
  function FoundFilesAsWritten(ruleFiles: seq<string>, fileList: seq<string>): (found: seq<string>)
    ensures found == []
  {
    if ruleFiles == [] then []
    else
      var file := ruleFiles[0];
      (if FileCallbackAsWritten(fileList, file) then [file] else [])
      + FoundFilesAsWritten(ruleFiles[1..], fileList)
  }

  /** The file-name filter as its callback evidently means it: the declared names that some
      path contains, in the rule's order. */
  function IntendedFoundFiles(ruleFiles: seq<string>, fileList: seq<string>): (found: seq<string>)
    ensures forall f :: f in found <==> f in ruleFiles && SomeContains(fileList, f)
  {
    if ruleFiles == [] then []
    else
      (if SomeContains(fileList, ruleFiles[0]) then [ruleFiles[0]] else [])
      + IntendedFoundFiles(ruleFiles[1..], fileList)
  }

  /** The file-name signal (+40), evaluated as written. */
  function FileSignal(rule: Rule, fileList: seq<string>): Signal {
    if |rule.files| > 0 then
      var found := FoundFilesAsWritten(rule.files, fileList);
      if |found| > 0 then Signal(40, [FoundFiles(found)]) else NoSignal
    else NoSignal
  }

  /** `rule.packageJsonKeys.filter((key) => deps[key])`: the listed keys whose dependency
      entry is truthy, in the rule's order. */
  function FoundKeysIn(keys: seq<string>, deps: map<string, string>): (found: seq<string>)
    ensures forall k :: k in found <==> k in keys && IsTruthy(deps, k)
    ensures |found| <= |keys|
  {
    if keys == [] then []
    else (if IsTruthy(deps, keys[0]) then [keys[0]] else []) + FoundKeysIn(keys[1..], deps)
  }

  /** The `package.json` signal (+50): only when the rule lists keys (an empty list counts as
      listing) and a manifest is present. */
  function ManifestSignal(rule: Rule, packageJson: Option<PackageJson>): Signal {
    if rule.packageJsonKeys.Some? && packageJson.Some? then
      var deps := MergedDependencies(packageJson.value);
      var found := FoundKeysIn(rule.packageJsonKeys.value, deps);
      if |found| > 0 then
        assert found[0] in found;
        var version := deps[found[0]];
        Signal(50, [FoundKeys(found)] + (if version != "" then [Version(version)] else []))
      else NoSignal
    else NoSignal
  }

  /** `pattern.test(file)` for one of the catalog's end-anchored extension patterns. */
  predicate Matches(pattern: Pattern, file: string) {
    exists suffix :: suffix in pattern.suffixes && EndsWith(file, suffix)
  }

  /** `rule.filePatterns?.some((pattern) => pattern.test(file))`. */
  predicate MatchesSome(patterns: seq<Pattern>, file: string) {
    exists p :: p in patterns && Matches(p, file)
  }

  /** The paths that match at least one pattern, in the file list's order, each occurrence
      of a path kept once however many patterns it matches. */
  function MatchingFiles(patterns: seq<Pattern>, fileList: seq<string>): (matching: seq<string>)
    ensures forall f :: multiset(matching)[f] == if MatchesSome(patterns, f) then multiset(fileList)[f] else 0
    ensures |matching| <= |fileList|
  {
    if fileList == [] then []
    else
      var rest := MatchingFiles(patterns, fileList[1..]);
      assert fileList == [fileList[0]] + fileList[1..];
      (if MatchesSome(patterns, fileList[0]) then [fileList[0]] else []) + rest
  }

  /** The path-pattern signal (+30), with the number of matching paths as evidence. */
  function PatternSignal(rule: Rule, fileList: seq<string>): Signal {
    if rule.filePatterns.Some? then
      var matching := MatchingFiles(rule.filePatterns.value, fileList);
      if |matching| > 0 then Signal(30, [MatchCount(|matching|)]) else NoSignal
    else NoSignal
  }

  function Min(a: int, b: int): int {
    if a <= b then a else b
  }

  /** `checkRule`: the three signals added up, `null` at zero, otherwise the rule's name and
      type, the total capped at 100, and the evidence in signal order. */
  function RuleResult(rule: Rule, fileList: seq<string>, packageJson: Option<PackageJson>): Option<DetectedTech> {
    var files := FileSignal(rule, fileList);
    var manifest := ManifestSignal(rule, packageJson);
    var patterns := PatternSignal(rule, fileList);
    var confidence := files.weight + manifest.weight + patterns.weight;
    if confidence == 0 then None
    else Some(DetectedTech(rule.name, rule.kind, Min(confidence, 100), None,
                           files.evidence + manifest.evidence + patterns.evidence))
  }

  /** `f` applied to each element, in order. */
  function Map<A, B>(f: A -> B, s: seq<A>): (r: seq<B>)
    ensures |r| == |s|
    ensures forall i :: 0 <= i < |s| ==> r[i] == f(s[i])
  {
    if s == [] then [] else Map(f, s[..|s| - 1]) + [f(s[|s| - 1])]
  }

  /** `checkRule` against one snapshot, as a function of the rule. */
  function CheckRuleOn(fileList: seq<string>, packageJson: Option<PackageJson>): Rule -> Option<DetectedTech> {
    rule => RuleResult(rule, fileList, packageJson)
  }

  /** Each rule's outcome, in the order of `rules`. */
  function Outcomes(rules: seq<Rule>, fileList: seq<string>, packageJson: Option<PackageJson>): (outcomes: seq<Option<DetectedTech>>)
    ensures |outcomes| == |rules|
    ensures forall i :: 0 <= i < |rules| ==> outcomes[i] == RuleResult(rules[i], fileList, packageJson)
  {
    Map(CheckRuleOn(fileList, packageJson), rules)
  }

  /** The values of the outcomes that are present, in order: what the `push` of each
      non-null result accumulates. */
  function Present<T>(outcomes: seq<Option<T>>): (values: seq<T>)
    ensures |values| <= |outcomes|
  {
    if outcomes == [] then []
    else
      var last := outcomes[|outcomes| - 1];
      Present(outcomes[..|outcomes| - 1]) + (if last.Some? then [last.value] else [])
  }

  /** The results of the rules that fire, in the order of `rules`. */
  function Collect(rules: seq<Rule>, fileList: seq<string>, packageJson: Option<PackageJson>): seq<DetectedTech> {
    Present(Outcomes(rules, fileList, packageJson))
  }
}
