/** What evaluating one rule yields: the three signals one by one, then their sum. */
module RuleProperties {
  import opened Wrappers
  import opened Strings
  import opened Manifest
  import opened Rules

  /** Whatever the file list, the file-name signal adds nothing and pushes no evidence. */
  lemma FileSignalNeverFires(rule: Rule, fileList: seq<string>)
    ensures FileSignal(rule, fileList) == NoSignal
  {
  }

  /** The dead filter in action: a repository holding `manage.py` contains Django's marker
      file, the intended filter would report it, and yet Django is not detected. */
  lemma DeadFileSignalMissesDjango()
    ensures IntendedFoundFiles(Django.files, ["manage.py"]) == ["manage.py"]
    ensures RuleResult(Django, ["manage.py"], None) == None
  {
    assert Contains("manage.py", "manage.py") by { assert IsPrefix("manage.py", "manage.py"); }
    assert SomeContains(["manage.py"], "manage.py");
    assert !SomeContains(["manage.py"], "settings.py") by {
      ContainsIff("manage.py", "settings.py");
    }
  }

  /** The first key `filter` keeps is the first listed key whose entry is truthy. */
  lemma {:induction false} FoundKeysFirst(keys: seq<string>, deps: map<string, string>)
    requires FoundKeysIn(keys, deps) != []
    ensures exists i :: (0 <= i < |keys| && keys[i] == FoundKeysIn(keys, deps)[0] &&
                         forall j :: 0 <= j < i ==> !IsTruthy(deps, keys[j]))
  {
    if !IsTruthy(deps, keys[0]) {
      FoundKeysFirst(keys[1..], deps);
      var i :| 0 <= i < |keys[1..]| && keys[1..][i] == FoundKeysIn(keys[1..], deps)[0]
        && forall j :: 0 <= j < i ==> !IsTruthy(deps, keys[1..][j]);
      assert keys[i + 1] == FoundKeysIn(keys, deps)[0];
      forall j | 0 <= j < i + 1 ensures !IsTruthy(deps, keys[j]) {
        if j > 0 { assert keys[j] == keys[1..][j - 1]; }
      }
    } else {
      assert keys[0] == FoundKeysIn(keys, deps)[0];
    }
  }

  /** The found keys keep the rule's order: finding over two consecutive key lists gives the
      first list's found keys followed by the second's. */
  lemma {:induction false} FoundKeysInAppend(a: seq<string>, b: seq<string>, deps: map<string, string>)
    ensures FoundKeysIn(a + b, deps) == FoundKeysIn(a, deps) + FoundKeysIn(b, deps)
  {
    if a != [] {
      FoundKeysInAppend(a[1..], b, deps);
      assert (a + b)[1..] == a[1..] + b;
    } else {
      assert a + b == b;
    }
  }

  /** The `package.json` signal adds 50 exactly when there is a manifest, the rule lists
      keys, and some listed key has a non-empty version in the merged dependencies; it then
      reports the found keys in the rule's order and the version of the first of them.
      Otherwise it adds nothing and reports nothing. */
  lemma ManifestSignalSpec(rule: Rule, packageJson: Option<PackageJson>)
    ensures var s := ManifestSignal(rule, packageJson);
      && (s.weight == 0 || s.weight == 50)
      && (s.weight == 50 <==>
            && packageJson.Some?
            && rule.packageJsonKeys.Some?
            && exists k :: k in rule.packageJsonKeys.value && IsTruthy(MergedDependencies(packageJson.value), k))
      && (s.weight == 0 ==> s.evidence == [])
  {
    if packageJson.Some? && rule.packageJsonKeys.Some? {
      var deps := MergedDependencies(packageJson.value);
      var found := FoundKeysIn(rule.packageJsonKeys.value, deps);
      if found != [] {
        assert found[0] in found;
      }
      if exists k :: k in rule.packageJsonKeys.value && IsTruthy(deps, k) {
        var k :| k in rule.packageJsonKeys.value && IsTruthy(deps, k);
        assert k in found;
      }
    }
  }

  /** When the `package.json` signal fires its evidence is always two lines: the found keys,
      then the version of the first listed key found, which is never empty. */
  lemma ManifestEvidence(rule: Rule, packageJson: Option<PackageJson>)
    requires ManifestSignal(rule, packageJson).weight == 50
    ensures var deps := MergedDependencies(packageJson.value);
      var found := FoundKeysIn(rule.packageJsonKeys.value, deps);
      && found != []
      && IsTruthy(deps, found[0])
      && ManifestSignal(rule, packageJson).evidence == [FoundKeys(found), Version(deps[found[0]])]
      && exists i :: (0 <= i < |rule.packageJsonKeys.value| && rule.packageJsonKeys.value[i] == found[0] &&
                      forall j :: 0 <= j < i ==> !IsTruthy(deps, rule.packageJsonKeys.value[j]))
  {
    var deps := MergedDependencies(packageJson.value);
    var found := FoundKeysIn(rule.packageJsonKeys.value, deps);
    assert found[0] in found;
    FoundKeysFirst(rule.packageJsonKeys.value, deps);
  }

  /** A development entry decides alone: an empty development version hides a runtime
      version of the same package, and a non-empty one counts even when the runtime
      entry is empty. */
  lemma DevDependencyWins(pj: PackageJson, key: string)
    requires key in Entries(pj.devDependencies)
    ensures IsTruthy(MergedDependencies(pj), key) <==> Entries(pj.devDependencies)[key] != ""
  {
  }

  /** Next.js listed with version "14.0.0" at runtime and with an empty development entry is
      not found in the manifest. */
  lemma EmptyDevEntryHidesRuntimeVersion()
    ensures var pj := PackageJson(None, None, None,
                                  Some(JsonObject(["next"], map["next" := "14.0.0"])),
                                  Some(JsonObject(["next"], map["next" := ""])));
      ManifestSignal(NextJs, Some(pj)) == NoSignal
  {
    var pj := PackageJson(None, None, None,
                          Some(JsonObject(["next"], map["next" := "14.0.0"])),
                          Some(JsonObject(["next"], map["next" := ""])));
    assert !IsTruthy(MergedDependencies(pj), "next");
    assert FoundKeysIn(["next"], MergedDependencies(pj)) == [];
  }

  /** The path-pattern signal adds 30 exactly when the rule has patterns and some path
      matches one of them, and then reports how many paths match, each path once.
      Otherwise it adds nothing and reports nothing. */
  lemma PatternSignalSpec(rule: Rule, fileList: seq<string>)
    ensures var s := PatternSignal(rule, fileList);
      && (s.weight == 0 || s.weight == 30)
      && (s.weight == 30 <==>
            rule.filePatterns.Some? && exists f :: f in fileList && MatchesSome(rule.filePatterns.value, f))
      && (s.weight == 30 ==> s.evidence == [MatchCount(|MatchingFiles(rule.filePatterns.value, fileList)|)])
      && (s.weight == 0 ==> s.evidence == [])
  {
    if rule.filePatterns.Some? {
      var matching := MatchingFiles(rule.filePatterns.value, fileList);
      if exists f :: f in fileList && MatchesSome(rule.filePatterns.value, f) {
        var f :| f in fileList && MatchesSome(rule.filePatterns.value, f);
        assert multiset(matching)[f] > 0;
      }
    }
  }

  /** `checkRule` reports a rule exactly when its `package.json` signal or its path-pattern
      signal fires. */
  lemma RuleFires(rule: Rule, fileList: seq<string>, packageJson: Option<PackageJson>)
    ensures RuleResult(rule, fileList, packageJson).Some? <==>
      ManifestSignal(rule, packageJson).weight == 50 || PatternSignal(rule, fileList).weight == 30
  {
    FileSignalNeverFires(rule, fileList);
    ManifestSignalSpec(rule, packageJson);
    PatternSignalSpec(rule, fileList);
  }

  /** A reported entry carries the rule's name and type, no version, and a confidence that is
      the sum of the two live signals: 30, 50 or 80, never above 100. */
  lemma RuleEntry(rule: Rule, fileList: seq<string>, packageJson: Option<PackageJson>)
    ensures var r := RuleResult(rule, fileList, packageJson);
      r.Some? ==>
        && r.value.name == rule.name
        && r.value.kind == rule.kind
        && r.value.version.None?
        && r.value.confidence == ManifestSignal(rule, packageJson).weight + PatternSignal(rule, fileList).weight
        && r.value.confidence in {30, 50, 80}
        && 0 < r.value.confidence <= 100
  {
    FileSignalNeverFires(rule, fileList);
    ManifestSignalSpec(rule, packageJson);
    PatternSignalSpec(rule, fileList);
  }

  /** A reported entry's evidence is the `package.json` evidence followed by the match count,
      never empty, and never about file names. */
  lemma RuleEvidence(rule: Rule, fileList: seq<string>, packageJson: Option<PackageJson>)
    ensures var r := RuleResult(rule, fileList, packageJson);
      r.Some? ==>
        && r.value.evidence == ManifestSignal(rule, packageJson).evidence + PatternSignal(rule, fileList).evidence
        && r.value.evidence != []
  {
    FileSignalNeverFires(rule, fileList);
    ManifestSignalSpec(rule, packageJson);
    PatternSignalSpec(rule, fileList);
    if ManifestSignal(rule, packageJson).weight == 50 {
      ManifestEvidence(rule, packageJson);
    }
  }

  /** A rule whose only signal is file names (no manifest keys, or an empty list of them,
      and no patterns) is never reported. */
  lemma FileOnlyRuleNeverDetected(rule: Rule, fileList: seq<string>, packageJson: Option<PackageJson>)
    requires rule.packageJsonKeys.None? || rule.packageJsonKeys == Some([])
    requires rule.filePatterns.None?
    ensures RuleResult(rule, fileList, packageJson) == None
  {
    RuleFires(rule, fileList, packageJson);
    ManifestSignalSpec(rule, packageJson);
  }

  /** Django, Flask, FastAPI and Spring Boot can never be detected. */
  lemma UndetectableFrameworks(fileList: seq<string>, packageJson: Option<PackageJson>)
    ensures RuleResult(Django, fileList, packageJson) == None
    ensures RuleResult(Flask, fileList, packageJson) == None
    ensures RuleResult(FastApi, fileList, packageJson) == None
    ensures RuleResult(SpringBoot, fileList, packageJson) == None
  {
    FileOnlyRuleNeverDetected(Django, fileList, packageJson);
    FileOnlyRuleNeverDetected(Flask, fileList, packageJson);
    FileOnlyRuleNeverDetected(FastApi, fileList, packageJson);
    FileOnlyRuleNeverDetected(SpringBoot, fileList, packageJson);
  }

  /** The present values are exactly the values of the outcomes that are present. */
  lemma {:induction false} PresentMembers<T>(outcomes: seq<Option<T>>)
    ensures forall t :: t in Present(outcomes) <==> exists i :: 0 <= i < |outcomes| && outcomes[i] == Some(t)
  {
    if outcomes != [] {
      var front := outcomes[..|outcomes| - 1];
      PresentMembers(front);
      forall t
        ensures t in Present(outcomes) <==> exists i :: 0 <= i < |outcomes| && outcomes[i] == Some(t)
      {
        if exists i :: 0 <= i < |outcomes| && outcomes[i] == Some(t) {
          var i :| 0 <= i < |outcomes| && outcomes[i] == Some(t);
          if i < |outcomes| - 1 {
            assert front[i] == outcomes[i];
          }
        }
        if t in Present(front) {
          var i :| 0 <= i < |front| && front[i] == Some(t);
          assert outcomes[i] == front[i];
        }
      }
    }
  }

  /** Present values of two runs of outcomes come out run by run, each in order. */
  lemma {:induction false} PresentAppend<T>(a: seq<Option<T>>, b: seq<Option<T>>)
    ensures Present(a + b) == Present(a) + Present(b)
    decreases |b|
  {
    if b == [] {
      assert a + b == a;
    } else {
      PresentAppend(a, b[..|b| - 1]);
      assert (a + b)[..|a + b| - 1] == a + b[..|b| - 1];
    }
  }

  /** Nothing is present when every outcome is absent. */
  lemma {:induction false} PresentNone<T>(outcomes: seq<Option<T>>)
    requires forall i :: 0 <= i < |outcomes| ==> outcomes[i].None?
    ensures Present(outcomes) == []
  {
    if outcomes != [] {
      PresentNone(outcomes[..|outcomes| - 1]);
    }
  }

  /** The collected results are exactly the results of the rules that fire. */
  lemma CollectMembers(rules: seq<Rule>, fileList: seq<string>, packageJson: Option<PackageJson>)
    ensures forall t :: t in Collect(rules, fileList, packageJson) <==>
      exists i :: 0 <= i < |rules| && RuleResult(rules[i], fileList, packageJson) == Some(t)
  {
    PresentMembers(Outcomes(rules, fileList, packageJson));
  }

  /** No paths and no manifest: no rule fires. */
  lemma CollectNothing(rules: seq<Rule>)
    ensures Collect(rules, [], None) == []
  {
    var outcomes := Outcomes(rules, [], None);
    forall i | 0 <= i < |rules| ensures outcomes[i].None? {
      RuleFires(rules[i], [], None);
      PatternSignalSpec(rules[i], []);
    }
    PresentNone(outcomes);
  }

  /** Mapping keeps order across a concatenation. */
  lemma {:induction false} MapAppend<A, B>(f: A -> B, a: seq<A>, b: seq<A>)
    ensures Map(f, a + b) == Map(f, a) + Map(f, b)
    decreases |b|
  {
    if b == [] {
      assert a + b == a;
    } else {
      MapAppend(f, a, b[..|b| - 1]);
      assert (a + b)[..|a + b| - 1] == a + b[..|b| - 1];
    }
  }

  /** `detect()` pushes in catalog order: the results of two consecutive runs of rules are
      the first run's results followed by the second's. */
  lemma CollectAppend(a: seq<Rule>, b: seq<Rule>, fileList: seq<string>, packageJson: Option<PackageJson>)
    ensures Collect(a + b, fileList, packageJson) == Collect(a, fileList, packageJson) + Collect(b, fileList, packageJson)
  {
    MapAppend(CheckRuleOn(fileList, packageJson), a, b);
    PresentAppend(Outcomes(a, fileList, packageJson), Outcomes(b, fileList, packageJson));
  }
}
