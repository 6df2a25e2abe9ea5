/**
 * The rule-count aggregation behind the app list of the module screen
 * (AppListLoader.kt): how many templates name each installed package, stamped
 * onto the package records the list shows.
 */
module AppListLoader {
  import opened Wrappers

  /** A rule template: its display name and the packages it applies to (`null` when absent). */
  datatype Template = Template(templateName: string, applyToApp: Option<seq<string>>)

  /** An installed package as the platform reports it; only `packageName` is read by the loader. */
  datatype PackageInfo = PackageInfo(packageName: string, appLabel: string, requestedPermissions: seq<string>)

  /** A row of the app list: the package's metadata and the number of templates that name it. */
  datatype PreferencesPackageInfo = PreferencesPackageInfo(
    packageName: string, appLabel: string, requestedPermissions: seq<string>, ruleCount: int)

  /** The packages one template names; a template without `applyToApp` names none. */
  function Targets(t: Template): seq<string>
  {
    match t.applyToApp
    case None => []
    case Some(apps) => apps
  }

  /** Every package name the templates name, template by template, in template order. */
  function AllTargets(templates: seq<Template>): seq<string>
  {
    if templates == [] then []
    else AllTargets(templates[..|templates| - 1]) + Targets(templates[|templates| - 1])
  }

  /** The total length of all non-null `applyToApp` collections. */
  function TotalTargets(templates: seq<Template>): nat
  {
    if templates == [] then 0
    else TotalTargets(templates[..|templates| - 1]) + |Targets(templates[|templates| - 1])|
  }

  /** How many times `packageName` occurs across all non-null `applyToApp` collections. */
  function Occurrences(templates: seq<Template>, packageName: string): nat
  {
    multiset(AllTargets(templates))[packageName]
  }

  /** The count map of a sequence of names, built one name at a time as `fetchRuleCount` does. */
  function CountsOf(names: seq<string>): map<string, int>
  {
    if names == [] then map[]
    else
      var init, p := names[..|names| - 1], names[|names| - 1];
      CountsOf(init)[p := GetOrDefault(CountsOf(init), p, 0) + 1]
  }

  /** A name has an entry in the count map exactly when it occurs, and the entry is its number of occurrences. */
  lemma {:induction false} CountsOfOccurrences(names: seq<string>)
    ensures forall p :: p in CountsOf(names) <==> p in names
    ensures forall p :: GetOrDefault(CountsOf(names), p, 0) == multiset(names)[p]
  {
    if names != [] {
      var init, q := names[..|names| - 1], names[|names| - 1];
      assert names == init + [q];
      CountsOfOccurrences(init);
      assert multiset(names) == multiset(init) + multiset{q};
    }
  }

  /** The package-name to rule-count map that `fetchRuleCount` builds: an entry exactly for the packages
    * some template names, holding how often they are named. */
  function RuleCounts(templates: seq<Template>): (m: map<string, int>)
    ensures forall p :: p in m <==> Occurrences(templates, p) > 0
    ensures forall p :: GetOrDefault(m, p, 0) == Occurrences(templates, p)
  {
    CountsOfOccurrences(AllTargets(templates));
    CountsOf(AllTargets(templates))
  }

  /** Appending one name to the names bumps that name's count by one and leaves the others. */
  lemma CountsOfSnoc(names: seq<string>, p: string)
    ensures CountsOf(names + [p]) == CountsOf(names)[p := GetOrDefault(CountsOf(names), p, 0) + 1]
  {
    assert (names + [p])[..|names|] == names;
  }

  /** The targets of a prefix one template longer. */
  lemma AllTargetsSnoc(templates: seq<Template>, i: nat)
    requires i < |templates|
    ensures AllTargets(templates[..i + 1]) == AllTargets(templates[..i]) + Targets(templates[i])
  {
    assert templates[..i + 1][..i] == templates[..i];
  }

  /** The inner loop of `fetchRuleCount`: bumps the count of each package one template names. */
  method CountPackages(m0: map<string, int>, ghost seen: seq<string>, apps: seq<string>) returns (m: map<string, int>)
    requires m0 == CountsOf(seen)
    ensures m == CountsOf(seen + apps)
  {
    m := m0;
    assert seen + apps[..0] == seen;
    for j := 0 to |apps|
      invariant m == CountsOf(seen + apps[..j])
    {
      var packageName := apps[j];
      assert m[packageName := GetOrDefault(m, packageName, 0) + 1] == CountsOf(seen + apps[..j] + [packageName]) by {
        CountsOfSnoc(seen + apps[..j], packageName);
      }
      assert seen + apps[..j + 1] == seen + apps[..j] + [packageName] by {
        assert apps[..j + 1] == apps[..j] + [packageName];
      }
      m := m[packageName := GetOrDefault(m, packageName, 0) + 1];
    }
    assert apps[..|apps|] == apps;
  }

  /** `fetchRuleCount`: the loop over the templates, counting the packages of each non-null `applyToApp`. */
  method FetchRuleCount(templates: seq<Template>) returns (m: map<string, int>)
    ensures m == RuleCounts(templates)
  {
    m := map[];
    ghost var seen: seq<string> := [];
    for i := 0 to |templates|
      invariant seen == AllTargets(templates[..i])
      invariant m == CountsOf(seen)
    {
      if templates[i].applyToApp.Some? {
        var apps := templates[i].applyToApp.value;
        m := CountPackages(m, seen, apps);
      } else {
        assert seen + Targets(templates[i]) == seen;
      }
      seen := seen + Targets(templates[i]);
      assert seen == AllTargets(templates[..i + 1]) by {
        AllTargetsSnoc(templates, i);
      }
    }
    assert templates[..|templates|] == templates;
  }

  /** Every value in the rule-count map is at least one: packages named by no template have no entry. */
  lemma RuleCountsPositive(templates: seq<Template>, p: string)
    requires p in RuleCounts(templates)
    ensures RuleCounts(templates)[p] >= 1
  {
  }

  /** The sum of the values of a map. */
  ghost function SumValues(m: map<string, int>): int
    decreases |m|
  {
    if m == map[] then 0
    else
      var k := PickKey(m);
      m[k] + SumValues(m - {k})
  }

  /** Some key of a non-empty map. */
  ghost function PickKey(m: map<string, int>): (k: string)
    requires m != map[]
    ensures k in m
  {
    assert m.Keys != {};
    var k :| k in m.Keys; k
  }

  /** The sum of a map's values may be taken out at any key, not just the one `SumValues` picks. */
  lemma {:induction false} SumValuesRemove(m: map<string, int>, k: string)
    requires k in m
    ensures SumValues(m) == m[k] + SumValues(m - {k})
    decreases |m|
  {
    var k' := PickKey(m);
    if k' != k {
      SumValuesRemove(m - {k'}, k);
      SumValuesRemove(m - {k}, k');
      assert m - {k'} - {k} == m - {k} - {k'};
    }
  }

  /** Setting one key changes the sum by the difference between its new and its old value. */
  lemma SumValuesUpdate(m: map<string, int>, k: string, v: int)
    ensures SumValues(m[k := v]) == SumValues(m) - GetOrDefault(m, k, 0) + v
  {
    SumValuesRemove(m[k := v], k);
    if k in m {
      SumValuesRemove(m, k);
      assert m[k := v] - {k} == m - {k};
    } else {
      assert m[k := v] - {k} == m;
    }
  }

  /** The counts of a sequence of names add up to its length. */
  lemma {:induction false} SumValuesCountsOf(names: seq<string>)
    ensures SumValues(CountsOf(names)) == |names|
  {
    if names == [] {
      assert CountsOf(names) == map[];
    } else {
      var init, p := names[..|names| - 1], names[|names| - 1];
      assert names == init + [p];
      SumValuesCountsOf(init);
      CountsOfSnoc(init, p);
      SumValuesUpdate(CountsOf(init), p, GetOrDefault(CountsOf(init), p, 0) + 1);
    }
  }

  /** All targets are as many as the lengths of the `applyToApp` collections add up to. */
  lemma {:induction false} AllTargetsLength(templates: seq<Template>)
    ensures |AllTargets(templates)| == TotalTargets(templates)
    decreases |templates|
  {
    if templates != [] {
      AllTargetsLength(templates[..|templates| - 1]);
    }
  }

  /** The rule counts add up to the total length of all non-null `applyToApp` collections. */
  lemma RuleCountsSum(templates: seq<Template>)
    ensures SumValues(RuleCounts(templates)) == TotalTargets(templates)
  {
    SumValuesCountsOf(AllTargets(templates));
    AllTargetsLength(templates);
  }

  /** `PreferencesPackageInfo.newInstance`: the platform's metadata, before a rule count is stamped. */
  function NewInstance(p: PackageInfo): PreferencesPackageInfo
  {
    PreferencesPackageInfo(p.packageName, p.appLabel, p.requestedPermissions, 0)
  }

  /** The values `load` hands to its progress listener over `size` packages: `100 * k / size` for the k-th. */
  function ProgressReports(size: nat): seq<int>
  {
    seq(size, k requires 0 <= k < size => 100 * (k + 1) / size)
  }

  /** One progress report against the last one and against a later one. */
  lemma ProgressReportBounds(size: nat, k: nat, l: nat)
    requires k <= l < size
    ensures 0 <= ProgressReports(size)[k] <= ProgressReports(size)[l] <= 100
  {
    var r := ProgressReports(size);
    var a, b := 100 * (k + 1), 100 * (l + 1);
    assert r[k] == a / size && r[l] == b / size;
    DivMonotone(a, b, size);
    DivMonotone(b, 100 * size, size);
    MulDivCancel(100, size);
  }

  /** The progress reports: one per package, each in [0, 100], non-decreasing, and the last one is 100. */
  lemma ProgressReportsShape(size: nat)
    ensures |ProgressReports(size)| == size
    ensures forall k, l :: 0 <= k <= l < size ==> 0 <= ProgressReports(size)[k] <= ProgressReports(size)[l] <= 100
    ensures size > 0 ==> ProgressReports(size)[size - 1] == 100
  {
    forall k, l | 0 <= k <= l < size
      ensures 0 <= ProgressReports(size)[k] <= ProgressReports(size)[l] <= 100
    {
      ProgressReportBounds(size, k, l);
    }
    if size > 0 {
      MulDivCancel(100, size);
      assert ProgressReports(size)[size - 1] == 100 * size / size;
    }
  }

  /** Integer division by a positive number is monotone. */
  lemma DivMonotone(a: nat, b: nat, d: nat)
    requires a <= b && 0 < d
    ensures a / d <= b / d
  {
    var qa, qb := a / d, b / d;
    assert qa * d <= a;
    assert b < (qb + 1) * d;
    ProductCancel(qa, qb + 1, d);
  }

  /** Multiplying by a positive number and dividing by it again gives back the original. */
  lemma MulDivCancel(c: int, d: int)
    requires 0 < d
    ensures c * d / d == c
  {
    var q := c * d / d;
    assert (c - q) * d == c * d - q * d;
    ProductCancel(c - q, 1, d);
    ProductCancel(-1, c - q, d);
  }

  /** A positive factor can be cancelled from a strict inequality. */
  lemma ProductCancel(x: int, y: int, d: int)
    requires 0 < d && x * d < y * d
    ensures x < y
  {
    assert (y - x) * d == y * d - x * d;
  }

  /** `load`: one record per installed package, in the platform's order, stamped with its rule count,
    * and the progress reported after each package. */
  method Load(installedPackages: seq<PackageInfo>, templates: seq<Template>)
    returns (records: seq<PreferencesPackageInfo>, progress: seq<int>)
    ensures |records| == |installedPackages|
    ensures forall i :: 0 <= i < |records| ==>
      records[i].(ruleCount := 0) == NewInstance(installedPackages[i]) &&
      records[i].ruleCount == Occurrences(templates, installedPackages[i].packageName)
    ensures progress == ProgressReports(|installedPackages|)
  {
    var packageNameToRuleCount := FetchRuleCount(templates);
    var size := |installedPackages|;
    var count := 0;
    records, progress := [], [];
    for i := 0 to size
      invariant count == i
      invariant |records| == i
      invariant forall j :: 0 <= j < i ==>
        records[j].(ruleCount := 0) == NewInstance(installedPackages[j]) &&
        records[j].ruleCount == Occurrences(templates, installedPackages[j].packageName)
      invariant progress == ProgressReports(size)[..i]
    {
      count := count + 1;
      progress := progress + [100 * count / size];
      var p := installedPackages[i];
      records := records + [NewInstance(p).(ruleCount := GetOrDefault(packageNameToRuleCount, p.packageName, 0))];
    }
    assert ProgressReports(size)[..size] == ProgressReports(size);
  }

  /** Each record carries the rule count of its own package under `templates`. */
  ghost predicate Stamped(list: seq<PreferencesPackageInfo>, templates: seq<Template>)
  {
    forall i :: 0 <= i < |list| ==> list[i].ruleCount == Occurrences(templates, list[i].packageName)
  }

  /** `update`: copies of the old records, in the same order, with only `ruleCount` re-stamped. */
  function Update(oldList: seq<PreferencesPackageInfo>, templates: seq<Template>): (r: seq<PreferencesPackageInfo>)
    ensures |r| == |oldList|
    ensures forall i :: 0 <= i < |r| ==> r[i].(ruleCount := oldList[i].ruleCount) == oldList[i]
    ensures Stamped(r, templates)
  {
    var packageNameToRuleCount := RuleCounts(templates);
    seq(|oldList|, i requires 0 <= i < |oldList| =>
      oldList[i].(ruleCount := GetOrDefault(packageNameToRuleCount, oldList[i].packageName, 0)))
  }

  /** Re-stamping a list whose counts already match the templates gives back the same list. */
  lemma UpdateStampedUnchanged(list: seq<PreferencesPackageInfo>, templates: seq<Template>)
    requires Stamped(list, templates)
    ensures Update(list, templates) == list
  {
    var r := Update(list, templates);
    forall i | 0 <= i < |list| ensures r[i] == list[i] {
      assert r[i].(ruleCount := list[i].ruleCount) == list[i];
    }
  }

  /** Calling `update` twice with unchanged templates yields the same counts as calling it once. */
  lemma UpdateIdempotent(list: seq<PreferencesPackageInfo>, templates: seq<Template>)
    ensures Update(Update(list, templates), templates) == Update(list, templates)
  {
    UpdateStampedUnchanged(Update(list, templates), templates);
  }

  /** Two templates naming `a.b` twice and `c.d` once; `e.f` is named by none. */
  lemma RuleCountScenario()
    ensures var templates := [Template("X", Some(["a.b"])), Template("Y", Some(["a.b", "c.d"])), Template("Z", None)];
      && RuleCounts(templates) == map["a.b" := 2, "c.d" := 1]
      && Occurrences(templates, "e.f") == 0
  {
    var templates := [Template("X", Some(["a.b"])), Template("Y", Some(["a.b", "c.d"])), Template("Z", None)];
    assert AllTargets(templates[..1]) == ["a.b"] by {
      assert templates[..1][..0] == [];
    }
    assert AllTargets(templates[..2]) == ["a.b", "a.b", "c.d"] by {
      assert templates[..2][..1] == templates[..1];
    }
    assert AllTargets(templates) == ["a.b", "a.b", "c.d"] by {
      assert templates[..2] == templates[..|templates| - 1];
    }
    assert CountsOf(["a.b", "a.b", "c.d"]) == map["a.b" := 2, "c.d" := 1] by {
      assert ["a.b", "a.b", "c.d"][..2] == ["a.b", "a.b"];
      assert ["a.b", "a.b"][..1] == ["a.b"];
    }
  }

  /** Over four packages the listener hears 25, 50, 75 and 100. */
  lemma ProgressScenario()
    ensures ProgressReports(4) == [25, 50, 75, 100]
  {
  }
}
