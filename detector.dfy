/** The `FrameworkDetector` class: a snapshot of a repository's file paths and its parsed
    `package.json`, evaluated against every detection rule. */
module Detector {
  import opened Wrappers
  import opened Manifest
  import opened Rules
  import opened RuleProperties
  import opened Ranking

  class FrameworkDetector {
    var fileList: seq<string>
    var packageJson: Option<PackageJson>

    /** Stores the snapshot; a missing manifest is `None` (the `null` default). */
    constructor(fileList: seq<string>, packageJson: Option<PackageJson>)
      ensures this.fileList == fileList && this.packageJson == packageJson
    {
      this.fileList := fileList;
      this.packageJson := packageJson;
    }

    /** `checkRule`: adds up the file-name, manifest and path-pattern signals in that order,
        pushing each signal's evidence as it goes. */
    method CheckRule(rule: Rule) returns (result: Option<DetectedTech>)
      ensures result == RuleResult(rule, fileList, packageJson)
    {
      var evidence: seq<Evidence> := [];
      var confidence := 0;
      if |rule.files| > 0 {
        var foundFiles := FoundFilesAsWritten(rule.files, fileList);
        if |foundFiles| > 0 {
          confidence := confidence + 40;
          evidence := evidence + [FoundFiles(foundFiles)];
        }
      }
      assert confidence == FileSignal(rule, fileList).weight;
      assert evidence == FileSignal(rule, fileList).evidence;
      if rule.packageJsonKeys.Some? && packageJson.Some? {
        var deps := MergedDependencies(packageJson.value);
        var foundKeys := FoundKeysIn(rule.packageJsonKeys.value, deps);
        if |foundKeys| > 0 {
          confidence := confidence + 50;
          evidence := evidence + [FoundKeys(foundKeys)];
          assert foundKeys[0] in foundKeys;
          var version := deps[foundKeys[0]];
          if version != "" {
            evidence := evidence + [Version(version)];
          }
        }
      }
      assert confidence == FileSignal(rule, fileList).weight + ManifestSignal(rule, packageJson).weight;
      assert evidence == FileSignal(rule, fileList).evidence + ManifestSignal(rule, packageJson).evidence;
      if rule.filePatterns.Some? {
        var matchingFiles := MatchingFiles(rule.filePatterns.value, fileList);
        if |matchingFiles| > 0 {
          confidence := confidence + 30;
          evidence := evidence + [MatchCount(|matchingFiles|)];
        }
      }
      assert confidence == FileSignal(rule, fileList).weight + ManifestSignal(rule, packageJson).weight
        + PatternSignal(rule, fileList).weight;
      assert evidence == FileSignal(rule, fileList).evidence + ManifestSignal(rule, packageJson).evidence
        + PatternSignal(rule, fileList).evidence;
      if confidence == 0 {
        return None;
      }
      return Some(DetectedTech(rule.name, rule.kind, Min(confidence, 100), None, evidence));
    }

    /** `detect()`: the result of every rule that fires, pushed in catalog order, then sorted
        highest confidence first with ties in catalog order. */
    method Detect() returns (detected: seq<DetectedTech>)
      ensures detected == DetectAll(DetectionRules, fileList, packageJson)
      ensures SortedByConfidence(detected)
      ensures multiset(detected) == multiset(Collect(DetectionRules, fileList, packageJson))
    {
      ghost var outcomes := Outcomes(DetectionRules, fileList, packageJson);
      var found: seq<DetectedTech> := [];
      for i := 0 to |DetectionRules|
        invariant found == Present(outcomes[..i])
      {
        var result := CheckRule(DetectionRules[i]);
        if result.Some? {
          found := found + [result.value];
        }
        assert outcomes[..i + 1][..i] == outcomes[..i];
      }
      assert outcomes[..|DetectionRules|] == outcomes;
      var a := new DetectedTech[|found|](k requires 0 <= k < |found| => found[k]);
      assert a[..] == found;
      SortInPlace(a);
      detected := a[..];
      SortSorts(found);
      SortPermutes(found);
    }

    /** `getFrameworks()`: the detected frameworks, highest confidence first. */
    method GetFrameworks() returns (frameworks: seq<DetectedTech>)
      ensures frameworks == OfKind(DetectAll(DetectionRules, fileList, packageJson), Framework)
      ensures SortedByConfidence(frameworks)
    {
      var detected := Detect();
      frameworks := OfKind(detected, Framework);
      OfKindSorted(detected, Framework);
    }

    /** `getLanguages()`: the detected languages, highest confidence first. */
    method GetLanguages() returns (languages: seq<DetectedTech>)
      ensures languages == OfKind(DetectAll(DetectionRules, fileList, packageJson), Language)
      ensures SortedByConfidence(languages)
    {
      var detected := Detect();
      languages := OfKind(detected, Language);
      OfKindSorted(detected, Language);
    }

    /** `getLibraries()`: the detected libraries, highest confidence first. */
    method GetLibraries() returns (libraries: seq<DetectedTech>)
      ensures libraries == OfKind(DetectAll(DetectionRules, fileList, packageJson), Library)
      ensures SortedByConfidence(libraries)
    {
      var detected := Detect();
      libraries := OfKind(detected, Library);
      OfKindSorted(detected, Library);
    }

    /** `getPrimaryFramework()`: the first of the frameworks, or `null` when none fired. It is
        absent exactly when no framework rule fires, and otherwise is a firing framework of
        highest confidence. */
    method GetPrimaryFramework() returns (primary: Option<DetectedTech>)
      ensures primary == PrimaryFramework(DetectAll(DetectionRules, fileList, packageJson))
      ensures primary.None? <==>
        forall t :: t in Collect(DetectionRules, fileList, packageJson) ==> t.kind != Framework
      ensures primary.Some? ==>
        && primary.value in Collect(DetectionRules, fileList, packageJson)
        && primary.value.kind == Framework
        && forall t :: t in Collect(DetectionRules, fileList, packageJson) && t.kind == Framework ==>
             t.confidence <= primary.value.confidence
    {
      var frameworks := GetFrameworks();
      primary := if |frameworks| > 0 then Some(frameworks[0]) else None;
      ghost var detected := DetectAll(DetectionRules, fileList, packageJson);
      SortSorts(Collect(DetectionRules, fileList, packageJson));
      SortPermutes(Collect(DetectionRules, fileList, packageJson));
      PrimaryFrameworkAbsent(detected);
      PrimaryFrameworkHighest(detected);
      MultisetSameMembers(detected, Collect(DetectionRules, fileList, packageJson));
    }
  }

  /** Two sequences with the same multiset have the same members. */
  lemma MultisetSameMembers(a: seq<DetectedTech>, b: seq<DetectedTech>)
    requires multiset(a) == multiset(b)
    ensures forall t :: t in a <==> t in b
  {
    forall t ensures t in a <==> t in b {
      assert t in a <==> t in multiset(a);
      assert t in b <==> t in multiset(b);
    }
  }

  /** Every detected entry comes from a catalog rule of the same name and type, carries no
      version, and has confidence 30, 50 or 80. */
  lemma DetectedEntries(fileList: seq<string>, packageJson: Option<PackageJson>)
    ensures forall t :: t in DetectAll(DetectionRules, fileList, packageJson) ==>
      && t.version.None?
      && t.confidence in {30, 50, 80}
      && exists i :: 0 <= i < |DetectionRules| && DetectionRules[i].name == t.name && DetectionRules[i].kind == t.kind
  {
    var collected := Collect(DetectionRules, fileList, packageJson);
    SortPermutes(collected);
    MultisetSameMembers(DetectAll(DetectionRules, fileList, packageJson), collected);
    CollectMembers(DetectionRules, fileList, packageJson);
    forall t | t in collected
      ensures && t.version.None?
              && t.confidence in {30, 50, 80}
              && exists i :: 0 <= i < |DetectionRules| && DetectionRules[i].name == t.name && DetectionRules[i].kind == t.kind
    {
      var i :| 0 <= i < |DetectionRules| && RuleResult(DetectionRules[i], fileList, packageJson) == Some(t);
      RuleEntry(DetectionRules[i], fileList, packageJson);
    }
  }

  /** A snapshot with no paths and no `package.json` detects nothing, so every view is empty
      and there is no primary framework. */
  lemma EmptySnapshot()
    ensures DetectAll(DetectionRules, [], None) == []
    ensures PrimaryFramework(DetectAll(DetectionRules, [], None)) == None
  {
    CollectNothing(DetectionRules);
  }

  /** The three views split the detected entries by type: an entry is in the view of its own
      type and in no other, and tools are in none of them. */
  lemma ViewsByType(detected: seq<DetectedTech>, t: DetectedTech)
    requires t in detected
    ensures t in OfKind(detected, Framework) <==> t.kind == Framework
    ensures t in OfKind(detected, Language) <==> t.kind == Language
    ensures t in OfKind(detected, Library) <==> t.kind == Library
  {
    OfKindMembers(detected, Framework);
    OfKindMembers(detected, Language);
    OfKindMembers(detected, Library);
  }
}
