/** The package tab's data logic: parsing `dnf list` and `dnf info` output,
    merging the installed and available lists into one name-keyed map, the
    view filter and the selection-to-request filters. */
module Packages {
  import opened Text
  import Executor

  /** PackageInfo: one package as listed by dnf. */
  datatype PackageInfo = PackageInfo(
    name: string,
    version: string,
    arch: string,
    repository: string,
    summary: string,
    description: string,
    size: string,
    installDate: string,
    isInstalled: bool,
    isUpdateAvailable: bool,
    updateVersion: string)

  /** A default-constructed record. */
  const EmptyPackage := PackageInfo("", "", "", "", "", "", "", "", false, false, "")

  // ---------------------------------------------------------------------
  // `dnf list installed|available`

  /** The header and blank lines parsePackageList skips. */
  predicate IsSkippedLine(line: string) {
    StartsWith(line, "Last metadata") || StartsWith(line, "Available")
    || StartsWith(line, "Installed") || line == []
  }

  /** QString::lastIndexOf('.'). */
  function LastDot(s: string): (r: Option<nat>)
    ensures r.Some? ==> r.value < |s| && s[r.value] == '.' && '.' !in s[r.value + 1..]
    ensures r.None? ==> '.' !in s
  {
    if s == [] then None
    else if s[|s| - 1] == '.' then Some(|s| - 1)
    else
      var r := LastDot(s[..|s| - 1]);
      if r.Some? then
        assert s[r.value + 1..] == s[..|s| - 1][r.value + 1..] + [s[|s| - 1]];
        r
      else
        assert s == s[..|s| - 1] + [s[|s| - 1]];
        r
  }

  /** The name.arch field split at its last dot, when that dot is not the
      first character; otherwise the whole field is the name, arch "noarch". */
  function SplitNameArch(field: string): (string, string) {
    match LastDot(field)
    case Some(d) => if d > 0 then (field[..d], field[d + 1..]) else (field, "noarch")
    case None => (field, "noarch")
  }

  /** Either name "." arch rebuilds the field, or the field is the name and
      the arch is "noarch". */
  lemma NameArchRejoin(field: string)
    ensures var (name, arch) := SplitNameArch(field);
      (name + "." + arch == field && name != [] && '.' !in arch)
      || (name == field && arch == "noarch")
  {
    match LastDot(field)
    case Some(d) =>
      if d > 0 {
        assert field == field[..d] + "." + field[d + 1..];
      }
    case None =>
  }

  /** A dotted field splits back into the name and an arch without dots. */
  lemma NameArchRoundTrip(name: string, arch: string)
    requires name != [] && '.' !in arch
    ensures SplitNameArch(name + "." + arch) == (name, arch)
  {
    var field := name + "." + arch;
    assert field[|name|] == '.';
    assert field[|name| + 1..] == arch;
    assert forall j :: |name| < j < |field| ==> field[j] == arch[j - |name| - 1];
    assert forall j :: |name| < j < |field| ==> field[j] != '.';
    assert LastDot(field) == Some(|name|);
    assert field[..|name|] == name;
  }

  /** One line of `dnf list`: skipped headers and lines with fewer than three
      fields give nothing. */
  function ParsePackageLine(line: string, installedOnly: bool): Option<PackageInfo> {
    if IsSkippedLine(line) then None
    else
      var parts := Fields(line);
      if |parts| < 3 then None
      else
        var (name, arch) := SplitNameArch(parts[0]);
        Some(PackageInfo(name, parts[1], arch, parts[2], "", "", "", "", installedOnly, false, ""))
  }

  function ParsePackageLines(lines: seq<string>, installedOnly: bool): seq<PackageInfo> {
    if lines == [] then []
    else
      var head := ParsePackageLine(lines[0], installedOnly);
      (if head.Some? then [head.value] else []) + ParsePackageLines(lines[1..], installedOnly)
  }

  /** parsePackageList: the records of the non-empty lines, in line order. */
  function ParsePackageList(output: string, installedOnly: bool): seq<PackageInfo> {
    ParsePackageLines(SplitSkipEmpty(output, "\n"), installedOnly)
  }

  /** The records come from the lines in order: parsing a concatenation of
      line lists concatenates the results. */
  lemma {:induction false} ParsePackageLinesAppend(a: seq<string>, b: seq<string>, installedOnly: bool)
    ensures ParsePackageLines(a + b, installedOnly)
         == ParsePackageLines(a, installedOnly) + ParsePackageLines(b, installedOnly)
    decreases |a|
  {
    if a != [] {
      assert (a + b)[1..] == a[1..] + b;
      ParsePackageLinesAppend(a[1..], b, installedOnly);
    } else {
      assert a + b == b;
    }
  }

  /** A record is in the result exactly when some line parses to it. */
  lemma {:induction false} ParsePackageLinesMembers(lines: seq<string>, installedOnly: bool, p: PackageInfo)
    ensures p in ParsePackageLines(lines, installedOnly)
        <==> exists i :: 0 <= i < |lines| && ParsePackageLine(lines[i], installedOnly) == Some(p)
    decreases |lines|
  {
    if lines != [] {
      ParsePackageLinesMembers(lines[1..], installedOnly, p);
      if exists i :: 0 <= i < |lines| && ParsePackageLine(lines[i], installedOnly) == Some(p) {
        var i :| 0 <= i < |lines| && ParsePackageLine(lines[i], installedOnly) == Some(p);
        if i > 0 {
          assert lines[1..][i - 1] == lines[i];
        }
      }
      if p in ParsePackageLines(lines[1..], installedOnly) {
        var i :| 0 <= i < |lines[1..]| && ParsePackageLine(lines[1..][i], installedOnly) == Some(p);
        assert lines[i + 1] == lines[1..][i];
      }
    }
  }

  /** Every parsed record carries the installed flag it was parsed with, no
      update flag, a non-empty name, and single-word version and repository. */
  lemma ParsedLineShape(line: string, installedOnly: bool)
    ensures var r := ParsePackageLine(line, installedOnly);
      r.Some? ==> && r.value.isInstalled == installedOnly && !r.value.isUpdateAvailable
                  && r.value.name != [] && IsWord(r.value.version) && IsWord(r.value.repository)
                  && r.value.updateVersion == []
  {
    if !IsSkippedLine(line) && |Fields(line)| >= 3 {
      var parts := Fields(line);
      SplitWsPiecesFree(line);
      assert parts[1] in SplitWs(line) && parts[2] in SplitWs(line);
      NameArchRejoin(parts[0]);
    }
  }

  /** A `name.arch version repo` line parses back to exactly those fields. */
  lemma ParsePackageLineRoundTrip(name: string, arch: string, version: string, repo: string, installedOnly: bool)
    requires IsWord(name) && IsWord(arch) && '.' !in arch && IsWord(version) && IsWord(repo)
    requires !IsSkippedLine(name + "." + arch + " " + version + " " + repo)
    ensures ParsePackageLine(name + "." + arch + " " + version + " " + repo, installedOnly)
         == Some(PackageInfo(name, version, arch, repo, "", "", "", "", installedOnly, false, ""))
  {
    var field := name + "." + arch;
    assert IsWord(field) by {
      forall j | 0 <= j < |field| ensures !IsRegexSpace(field[j]) {
        if j < |name| { assert field[j] == name[j]; }
        else if j > |name| { assert field[j] == arch[j - |name| - 1]; }
      }
    }
    var words := [field, version, repo];
    assert Join(words, " ") == field + " " + version + " " + repo by {
      assert words == [field] + [version, repo];
      JoinCons(field, [version, repo], " ");
      assert [version, repo] == [version] + [repo];
      JoinCons(version, [repo], " ");
    }
    FieldsOfWords(words);
    NameArchRoundTrip(name, arch);
  }

  // ---------------------------------------------------------------------
  // The installed/available merge

  /** QMap<QString, PackageInfo> keyed by package name. */
  type PackageMap = map<string, PackageInfo>

  /** Every entry is stored under its own name. */
  ghost predicate KeyedByName(m: PackageMap) {
    forall k :: k in m ==> m[k].name == k
  }

  /** `packageMap[pkg.name] = pkg` over the installed list. */
  function InstalledMap(installed: seq<PackageInfo>): PackageMap {
    if installed == [] then map[]
    else
      var last := installed[|installed| - 1];
      InstalledMap(installed[..|installed| - 1])[last.name := last]
  }

  /** The merge step as the source writes it: a name already in the map is
      flagged as updatable to the newer version whenever the versions differ,
      whether or not the entry in the map is an installed package. */
  function MergeAvailableAsWritten(m: PackageMap, pkg: PackageInfo): PackageMap {
    if pkg.name in m then
      if pkg.version != m[pkg.name].version then
        m[pkg.name := m[pkg.name].(isUpdateAvailable := true, updateVersion := pkg.version)]
      else m
    else m[pkg.name := pkg]
  }

  /** The merge step as intended: only an installed entry is flagged. */
  function MergeAvailable(m: PackageMap, pkg: PackageInfo): PackageMap {
    if pkg.name in m then
      if m[pkg.name].isInstalled && pkg.version != m[pkg.name].version then
        m[pkg.name := m[pkg.name].(isUpdateAvailable := true, updateVersion := pkg.version)]
      else m
    else m[pkg.name := pkg]
  }

  function MergeAll(m: PackageMap, available: seq<PackageInfo>): PackageMap {
    if available == [] then m
    else MergeAvailable(MergeAll(m, available[..|available| - 1]), available[|available| - 1])
  }

  function MergeAllAsWritten(m: PackageMap, available: seq<PackageInfo>): PackageMap {
    if available == [] then m
    else MergeAvailableAsWritten(MergeAllAsWritten(m, available[..|available| - 1]), available[|available| - 1])
  }

  /** Two available builds of a package that is not installed (same name,
      different versions, e.g. two architectures) leave it flagged as having
      an update although it is not installed. */
  lemma MergeAsWrittenFlagsUninstalled()
    ensures var a := PackageInfo("foo", "1.0", "x86_64", "updates", "", "", "", "", false, false, "");
            var b := PackageInfo("foo", "1.1", "i686", "updates", "", "", "", "", false, false, "");
            var r := MergeAllAsWritten(InstalledMap([]), [a, b])["foo"];
      r.isUpdateAvailable && !r.isInstalled
  {
    var a := PackageInfo("foo", "1.0", "x86_64", "updates", "", "", "", "", false, false, "");
    var b := PackageInfo("foo", "1.1", "i686", "updates", "", "", "", "", false, false, "");
    assert [a, b][..1] == [a];
    assert [a][..0] == [];
    var m0: PackageMap := map[];
    assert InstalledMap([]) == m0;
    assert MergeAllAsWritten(m0, []) == m0;
    var m1 := MergeAllAsWritten(m0, [a]);
    assert m1 == map["foo" := a];
    assert MergeAllAsWritten(m0, [a, b]) == MergeAvailableAsWritten(m1, b);
  }

  /** Merging keeps every entry stored under its own name. */
  lemma {:induction false} MergeKeyedByName(installed: seq<PackageInfo>, available: seq<PackageInfo>)
    ensures KeyedByName(InstalledMap(installed))
    ensures KeyedByName(MergeAllAsWritten(InstalledMap(installed), available))
    decreases |installed| + |available|
  {
    if available != [] {
      MergeKeyedByName(installed, available[..|available| - 1]);
    } else if installed != [] {
      MergeKeyedByName(installed[..|installed| - 1], []);
    }
  }

  /** The merged names are exactly the installed and the available names. */
  lemma {:induction false} MergeKeys(installed: seq<PackageInfo>, available: seq<PackageInfo>, k: string)
    ensures k in MergeAllAsWritten(InstalledMap(installed), available)
        <==> ((exists i :: 0 <= i < |installed| && installed[i].name == k)
              || (exists j :: 0 <= j < |available| && available[j].name == k))
    decreases |installed| + |available|
  {
    if available != [] {
      var init := available[..|available| - 1];
      MergeKeys(installed, init, k);
      if exists j :: 0 <= j < |init| && init[j].name == k {
        var j :| 0 <= j < |init| && init[j].name == k;
        assert available[j] == init[j];
      }
    } else if installed != [] {
      var init := installed[..|installed| - 1];
      MergeKeys(init, [], k);
      if exists i :: 0 <= i < |init| && init[i].name == k {
        var i :| 0 <= i < |init| && init[i].name == k;
        assert installed[i] == init[i];
      }
    }
  }

  /** Some available build of name `k` from index `lo` on has a version
      other than `v`. */
  ghost predicate DiffersFrom(available: seq<PackageInfo>, lo: nat, k: string, v: string) {
    exists j :: lo <= j < |available| && available[j].name == k && available[j].version != v
  }

  /** `j` is the last available build of name `k` whose version is not `v`. */
  ghost predicate LastDiffering(available: seq<PackageInfo>, k: string, v: string, j: int) {
    && 0 <= j < |available| && available[j].name == k && available[j].version != v
    && forall i :: j < i < |available| && available[i].name == k ==> available[i].version == v
  }

  /** `e` is what the merge makes of the entry `e0` of name `k` once the
      available builds from index `lo` on are folded in: everything but the
      update fields is kept; it is flagged when some build of its name has
      another version, with the version of the last such build; otherwise
      it is unchanged. */
  ghost predicate MergedFrom(e0: PackageInfo, available: seq<PackageInfo>, lo: nat, k: string, e: PackageInfo) {
    && e.(isUpdateAvailable := e0.isUpdateAvailable, updateVersion := e0.updateVersion) == e0
    && (e.isUpdateAvailable <==> e0.isUpdateAvailable || DiffersFrom(available, lo, k, e0.version))
    && (DiffersFrom(available, lo, k, e0.version) ==>
          exists j :: lo <= j && LastDiffering(available, k, e0.version, j) && e.updateVersion == available[j].version)
    && (!DiffersFrom(available, lo, k, e0.version) ==> e == e0)
  }

  /** One merge step keeps `MergedFrom`. */
  lemma MergedStep(e0: PackageInfo, available: seq<PackageInfo>, lo: nat, k: string, q: PackageInfo, e: PackageInfo)
    requires 0 <= lo < |available|
    requires MergedFrom(e0, available[..|available| - 1], lo, k, q)
    requires var last := available[|available| - 1];
      e == if last.name == k && last.version != q.version
           then q.(isUpdateAvailable := true, updateVersion := last.version) else q
    ensures MergedFrom(e0, available, lo, k, e)
  {
    var init := available[..|available| - 1];
    var last := available[|available| - 1];
    var v := e0.version;
    assert q.version == v;
    LastStep(available, lo, k, v);
    if last.name == k && last.version != v {
      assert LastDiffering(available, k, v, |available| - 1);
    } else if DiffersFrom(init, lo, k, v) {
      var j :| lo <= j && LastDiffering(init, k, v, j) && q.updateVersion == init[j].version;
      assert LastDiffering(available, k, v, j);
    }
  }

  /** An entry already in the map (an installed package) keeps everything
      but its update fields. It is flagged when some available build of its
      name has a different version, and then its update version is that of
      the last such build; with no such build it is unchanged. */
  lemma {:induction false} MergeInstalledEntry(m: PackageMap, available: seq<PackageInfo>, k: string)
    requires k in m
    ensures var r := MergeAllAsWritten(m, available); var v := m[k].version;
      && k in r
      && r[k].(isUpdateAvailable := m[k].isUpdateAvailable, updateVersion := m[k].updateVersion) == m[k]
      && (r[k].isUpdateAvailable <==> m[k].isUpdateAvailable || DiffersFrom(available, 0, k, v))
      && (DiffersFrom(available, 0, k, v) ==>
            exists j :: LastDiffering(available, k, v, j) && r[k].updateVersion == available[j].version)
      && (!DiffersFrom(available, 0, k, v) ==> r[k] == m[k])
    decreases |available|
  {
    if available == [] {
      assert !DiffersFrom(available, 0, k, m[k].version);
    } else {
      var init := available[..|available| - 1];
      MergeInstalledEntry(m, init, k);
      var q := MergeAllAsWritten(m, init);
      assert MergedFrom(m[k], init, 0, k, q[k]);
      MergedStep(m[k], available, 0, k, q[k], MergeAllAsWritten(m, available)[k]);
    }
  }

  /** A name that is not installed takes the first available build of that
      name, apart from its update fields; the later builds of the name flag
      it as for an installed entry, with the last differing version. */
  lemma {:induction false} MergeAvailableOnlyEntry(m: PackageMap, available: seq<PackageInfo>, k: string, j0: int)
    requires k !in m
    requires 0 <= j0 < |available| && available[j0].name == k
    requires forall i :: 0 <= i < j0 ==> available[i].name != k
    ensures var r := MergeAllAsWritten(m, available); var a := available[j0];
      && k in r
      && r[k].(isUpdateAvailable := a.isUpdateAvailable, updateVersion := a.updateVersion) == a
      && (r[k].isUpdateAvailable <==> a.isUpdateAvailable || DiffersFrom(available, j0 + 1, k, a.version))
      && (DiffersFrom(available, j0 + 1, k, a.version) ==>
            exists j :: j0 < j && LastDiffering(available, k, a.version, j) && r[k].updateVersion == available[j].version)
      && (!DiffersFrom(available, j0 + 1, k, a.version) ==> r[k] == a)
    decreases |available|
  {
    var init := available[..|available| - 1];
    var r := MergeAllAsWritten(m, available);
    if j0 == |available| - 1 {
      assert forall i :: 0 <= i < |init| ==> init[i] == available[i];
      MergeAbsent(m, init, k);
      assert r[k] == available[j0];
      assert !DiffersFrom(available, j0 + 1, k, available[j0].version);
    } else {
      MergeAvailableOnlyEntry(m, init, k, j0);
      var q := MergeAllAsWritten(m, init);
      assert init[j0] == available[j0];
      assert MergedFrom(available[j0], init, j0 + 1, k, q[k]);
      MergedStep(available[j0], available, j0 + 1, k, q[k], r[k]);
    }
  }

  /** Splitting off the last build of the available list. */
  lemma LastStep(available: seq<PackageInfo>, lo: nat, k: string, v: string)
    requires 0 <= lo < |available|
    ensures var init := available[..|available| - 1]; var last := available[|available| - 1];
      DiffersFrom(available, lo, k, v) <==> DiffersFrom(init, lo, k, v) || (last.name == k && last.version != v)
  {
    var init := available[..|available| - 1];
    if DiffersFrom(available, lo, k, v) {
      var j :| lo <= j < |available| && available[j].name == k && available[j].version != v;
      if j < |init| { assert init[j] == available[j]; }
    }
    if DiffersFrom(init, lo, k, v) {
      var j :| lo <= j < |init| && init[j].name == k && init[j].version != v;
      assert available[j] == init[j];
    }
  }

  /** A name that neither the map nor the merged builds carry stays absent. */
  lemma {:induction false} MergeAbsent(m: PackageMap, available: seq<PackageInfo>, k: string)
    requires k !in m
    requires forall i :: 0 <= i < |available| ==> available[i].name != k
    ensures k !in MergeAllAsWritten(m, available)
    decreases |available|
  {
    if available != [] {
      var init := available[..|available| - 1];
      assert forall i :: 0 <= i < |init| ==> init[i] == available[i];
      MergeAbsent(m, init, k);
    }
  }

  /** No entry that is not installed is flagged as having an update. */
  ghost predicate FlagsOnlyInstalled(m: PackageMap) {
    forall k :: k in m && m[k].isUpdateAvailable ==> m[k].isInstalled
  }

  /** With the intended step, an entry that was not installed is never
      flagged: an update is only ever offered for an installed package. */
  lemma {:induction false} MergeFlagsOnlyInstalled(m: PackageMap, available: seq<PackageInfo>)
    requires FlagsOnlyInstalled(m)
    requires forall j :: 0 <= j < |available| ==> !available[j].isUpdateAvailable
    ensures FlagsOnlyInstalled(MergeAll(m, available))
    decreases |available|
  {
    if available != [] {
      var init := available[..|available| - 1];
      var last := available[|available| - 1];
      assert forall j :: 0 <= j < |init| ==> init[j] == available[j];
      MergeFlagsOnlyInstalled(m, init);
      var q := MergeAll(m, init);
      var r := MergeAvailable(q, last);
      forall k | k in r && r[k].isUpdateAvailable ensures r[k].isInstalled {
        if k != last.name || last.name in q {
          assert k in q;
        }
      }
    }
  }

  /** The two steps differ only on a name whose entry is not installed: on a
      map of installed entries they agree. */
  lemma MergeStepsAgreeOnInstalled(m: PackageMap, pkg: PackageInfo)
    requires pkg.name in m ==> m[pkg.name].isInstalled
    ensures MergeAvailable(m, pkg) == MergeAvailableAsWritten(m, pkg)
  {
  }

  /** A package name together with the ascending key order. */
  lemma MergedValuesAscending(m: PackageMap)
    requires KeyedByName(m)
    ensures var vs := ValuesByKey(m);
      && (forall i, j :: 0 <= i < j < |vs| ==> StrLess(vs[i].name, vs[j].name))
      && (forall i :: 0 <= i < |vs| ==> vs[i].name in m && m[vs[i].name] == vs[i])
      && (forall k :: k in m ==> exists i :: 0 <= i < |vs| && vs[i].name == k)
  {
    var ks := SortedKeys(m.Keys);
    var vs := ValuesByKey(m);
    ValuesNamed(m, ks, vs);
    forall i, j | 0 <= i < j < |vs| ensures StrLess(vs[i].name, vs[j].name) {
      assert vs[i].name == ks[i] && vs[j].name == ks[j];
    }
    forall k | k in m ensures exists i :: 0 <= i < |vs| && vs[i].name == k {
      var i :| 0 <= i < |ks| && ks[i] == k;
      assert vs[i].name == k;
    }
  }

  /** Each value sits at its own key's position. */
  lemma ValuesNamed(m: PackageMap, ks: seq<string>, vs: seq<PackageInfo>)
    requires KeyedByName(m) && ks == SortedKeys(m.Keys) && vs == ValuesByKey(m)
    ensures |vs| == |ks|
    ensures forall i :: 0 <= i < |vs| ==> vs[i].name == ks[i] && vs[i].name in m && m[vs[i].name] == vs[i]
  {
    forall i | 0 <= i < |vs| ensures vs[i].name == ks[i] && vs[i].name in m && m[vs[i].name] == vs[i] {
      assert ks[i] in m.Keys;
      assert vs[i] == m[ks[i]];
    }
  }

  /** The installed/available merge of refreshAllPackages: a failed listing
      contributes nothing; installed records are keyed by name (a later
      record replacing an earlier one), each available record then updates
      or inserts, and the result is the map's values in ascending name
      order. As in the source, a name already in the map is flagged on any
      differing version, even when its entry is itself only available. */
  method MergePackageLists(installed: seq<PackageInfo>, installedOk: bool,
                           available: seq<PackageInfo>, availableOk: bool)
    returns (all: seq<PackageInfo>)
    ensures all == ValuesByKey(MergeAllAsWritten(InstalledMap(if installedOk then installed else []),
                                                 if availableOk then available else []))
  {
    var packageMap: PackageMap := map[];
    if installedOk {
      var i := 0;
      while i < |installed|
        invariant 0 <= i <= |installed|
        invariant packageMap == InstalledMap(installed[..i])
      {
        assert installed[..i + 1][..i] == installed[..i];
        packageMap := packageMap[installed[i].name := installed[i]];
        i := i + 1;
      }
      assert installed[..i] == installed;
    }
    ghost var base := packageMap;
    if availableOk {
      var j := 0;
      while j < |available|
        invariant 0 <= j <= |available|
        invariant packageMap == MergeAllAsWritten(base, available[..j])
      {
        assert available[..j + 1][..j] == available[..j];
        var pkg := available[j];
        if pkg.name in packageMap {
          var installedPkg := packageMap[pkg.name];
          if pkg.version != installedPkg.version {
            packageMap := packageMap[pkg.name := installedPkg.(isUpdateAvailable := true, updateVersion := pkg.version)];
          }
        } else {
          packageMap := packageMap[pkg.name := pkg];
        }
        j := j + 1;
      }
      assert available[..j] == available;
    }
    all := ValuesByKey(packageMap);
  }

  // ---------------------------------------------------------------------
  // The view filter

  /** Whether a package passes the combo-box filter; an unknown filter
      passes nothing. */
  predicate PassesFilter(filter: string, p: PackageInfo) {
    if filter == "All Packages" then true
    else if filter == "Installed Only" then p.isInstalled
    else if filter == "Available Only" then !p.isInstalled
    else if filter == "Updates Available" then p.isUpdateAvailable
    else false
  }

  function FilterPackages(packages: seq<PackageInfo>, filter: string): seq<PackageInfo> {
    if packages == [] then []
    else
      var init := FilterPackages(packages[..|packages| - 1], filter);
      var last := packages[|packages| - 1];
      if PassesFilter(filter, last) then init + [last] else init
  }

  /** The filtered list holds exactly the packages that pass, in their
      order: it is the concatenation of the filtered parts. */
  lemma {:induction false} FilterAppend(a: seq<PackageInfo>, b: seq<PackageInfo>, filter: string)
    ensures FilterPackages(a + b, filter) == FilterPackages(a, filter) + FilterPackages(b, filter)
    decreases |b|
  {
    if b != [] {
      assert (a + b)[..|a + b| - 1] == a + b[..|b| - 1];
      FilterAppend(a, b[..|b| - 1], filter);
    } else {
      assert a + b == a;
    }
  }

  lemma {:induction false} FilterMembers(packages: seq<PackageInfo>, filter: string, p: PackageInfo)
    ensures p in FilterPackages(packages, filter) <==> p in packages && PassesFilter(filter, p)
    decreases |packages|
  {
    if packages != [] {
      FilterMembers(packages[..|packages| - 1], filter, p);
      assert packages == packages[..|packages| - 1] + [packages[|packages| - 1]];
    }
  }

  /** "All Packages" keeps everything and an unknown filter keeps nothing. */
  lemma {:induction false} FilterAllAndUnknown(packages: seq<PackageInfo>, filter: string)
    ensures FilterPackages(packages, "All Packages") == packages
    ensures filter !in {"All Packages", "Installed Only", "Available Only", "Updates Available"}
            ==> FilterPackages(packages, filter) == []
    decreases |packages|
  {
    if packages != [] {
      FilterAllAndUnknown(packages[..|packages| - 1], filter);
      assert packages == packages[..|packages| - 1] + [packages[|packages| - 1]];
    }
  }

  /** The package tab's list state. */
  class PackageManager {
    /** m_allPackages */
    var allPackages: seq<PackageInfo>
    /** m_filteredPackages */
    var filteredPackages: seq<PackageInfo>

    constructor (packages: seq<PackageInfo>)
      ensures allPackages == packages && filteredPackages == []
    {
      allPackages := packages;
      filteredPackages := [];
    }

    /** applyPackageFilter: clears the filtered list, then appends every
        package of the full list that passes the filter. */
    method ApplyPackageFilter(filter: string)
      modifies this`filteredPackages
      ensures filteredPackages == FilterPackages(allPackages, filter)
    {
      filteredPackages := [];
      var i := 0;
      while i < |allPackages|
        invariant 0 <= i <= |allPackages|
        invariant filteredPackages == FilterPackages(allPackages[..i], filter)
      {
        assert allPackages[..i + 1][..i] == allPackages[..i];
        if PassesFilter(filter, allPackages[i]) {
          filteredPackages := filteredPackages + [allPackages[i]];
        }
        i := i + 1;
      }
      assert allPackages[..i] == allPackages;
    }
  }

  // ---------------------------------------------------------------------
  // Acting on the selection

  datatype PackageAction = Install | Remove | Update

  /** Which selected packages an action applies to. */
  predicate Eligible(action: PackageAction, p: PackageInfo) {
    match action
    case Install => !p.isInstalled
    case Remove => p.isInstalled
    case Update => p.isUpdateAvailable
  }

  function EligibleNames(action: PackageAction, selected: seq<PackageInfo>): seq<string> {
    if selected == [] then []
    else
      var init := EligibleNames(action, selected[..|selected| - 1]);
      var last := selected[|selected| - 1];
      if Eligible(action, last) then init + [last.name] else init
  }

  lemma {:induction false} EligibleNamesMembers(action: PackageAction, selected: seq<PackageInfo>, n: string)
    ensures n in EligibleNames(action, selected)
        <==> exists i :: 0 <= i < |selected| && Eligible(action, selected[i]) && selected[i].name == n
    ensures EligibleNames(action, selected) == []
        <==> forall i :: 0 <= i < |selected| ==> !Eligible(action, selected[i])
    decreases |selected|
  {
    if selected != [] {
      var init := selected[..|selected| - 1];
      EligibleNamesMembers(action, init, n);
      forall i | 0 <= i < |init| ensures init[i] == selected[i] { }
    }
  }

  /** The dnf verb each action runs. */
  function DnfVerb(action: PackageAction): string {
    match action
    case Install => "install"
    case Remove => "remove"
    case Update => "update"
  }

  /** install/remove/updateSelectedPackages: the request submitted for the
      selection once the user confirms; none when no selected package is
      eligible or the user declines. */
  function SelectedRequest(action: PackageAction, selected: seq<PackageInfo>, confirmed: bool): Option<Executor.Request> {
    var names := EligibleNames(action, selected);
    if names == [] || !confirmed then None
    else match action
      case Install => Some(Executor.InstallPackages(names))
      case Remove => Some(Executor.RemovePackages(names))
      case Update => Some(Executor.UpdatePackages(names))
  }

  /** A request is submitted exactly when the user confirms and some selected
      package is eligible; it runs `dnf <verb> -y` with the action's verb on
      exactly the eligible packages, and an
      update of a selection never turns into an update of everything. */
  lemma SelectedRequestSpec(action: PackageAction, selected: seq<PackageInfo>, confirmed: bool)
    ensures var r := SelectedRequest(action, selected, confirmed);
      && (r.Some? <==> confirmed && exists i :: 0 <= i < |selected| && Eligible(action, selected[i]))
      && (r.Some? ==> && r.value.command == "dnf" && |r.value.args| >= 2
                      && r.value.args[..2] == [DnfVerb(action), "-y"]
                      && r.value.args[2..] == EligibleNames(action, selected))
      && (r.Some? && action == Update ==> r.value != Executor.UpdatePackages([]))
  {
    EligibleNamesMembers(action, selected, "");
  }

  /** updateAllPackages: the empty update once the user confirms. */
  function UpdateAll(confirmed: bool): (r: Option<Executor.Request>)
    ensures r.Some? <==> confirmed
    ensures r.Some? ==> r.value == Executor.Request("dnf", ["update", "-y"], "Updating all packages")
    ensures r.Some? ==> r.value == Executor.UpdatePackages([])
  {
    if confirmed then Some(Executor.UpdatePackages([])) else None
  }

  // ---------------------------------------------------------------------
  // `dnf info`

  /** The line prefixes parsePackageInfoBlock recognises, in test order. */
  const InfoPrefixes: seq<string> := ["Name", "Version", "Arch", "From repo", "Summary", "Description", "Size"]

  /** The index of the first recognised prefix the line starts with. */
  function InfoKey(line: string): (r: Option<nat>)
    ensures r.Some? ==> r.value < |InfoPrefixes| && StartsWith(line, InfoPrefixes[r.value])
    ensures r.Some? ==> forall j :: 0 <= j < r.value ==> !StartsWith(line, InfoPrefixes[j])
    ensures r.None? ==> forall j :: 0 <= j < |InfoPrefixes| ==> !StartsWith(line, InfoPrefixes[j])
  {
    InfoKeyFrom(line, 0)
  }

  function InfoKeyFrom(line: string, from: nat): (r: Option<nat>)
    requires from <= |InfoPrefixes|
    ensures r.Some? ==> from <= r.value < |InfoPrefixes| && StartsWith(line, InfoPrefixes[r.value])
    ensures r.Some? ==> forall j :: from <= j < r.value ==> !StartsWith(line, InfoPrefixes[j])
    ensures r.None? ==> forall j :: from <= j < |InfoPrefixes| ==> !StartsWith(line, InfoPrefixes[j])
    decreases |InfoPrefixes| - from
  {
    if from == |InfoPrefixes| then None
    else if StartsWith(line, InfoPrefixes[from]) then Some(from)
    else InfoKeyFrom(line, from + 1)
  }

  /** `line.split(":").last().trimmed()` */
  function InfoValue(line: string): string {
    Trim(AfterLast(line, ":"))
  }

  /** The field a prefix index stands for. */
  function InfoField(p: PackageInfo, k: nat): string
    requires k < |InfoPrefixes|
  {
    match k
    case 0 => p.name
    case 1 => p.version
    case 2 => p.arch
    case 3 => p.repository
    case 4 => p.summary
    case 5 => p.description
    case _ => p.size
  }

  function SetInfoField(p: PackageInfo, k: nat, v: string): PackageInfo
    requires k < |InfoPrefixes|
  {
    match k
    case 0 => p.(name := v)
    case 1 => p.(version := v)
    case 2 => p.(arch := v)
    case 3 => p.(repository := v)
    case 4 => p.(summary := v)
    case 5 => p.(description := v)
    case _ => p.(size := v)
  }

  function ApplyInfoLines(p: PackageInfo, lines: seq<string>): PackageInfo {
    if lines == [] then p
    else
      var q := ApplyInfoLines(p, lines[..|lines| - 1]);
      var line := lines[|lines| - 1];
      match InfoKey(line)
      case None => q
      case Some(k) => SetInfoField(q, k, InfoValue(line))
  }

  /** parsePackageInfoBlock: each recognised line overwrites its field. */
  function ParsePackageInfoBlock(block: string): PackageInfo {
    ApplyInfoLines(EmptyPackage, SplitSkipEmpty(block, "\n"))
  }

  lemma SetInfoFieldSpec(p: PackageInfo, k: nat, v: string, j: nat)
    requires k < |InfoPrefixes| && j < |InfoPrefixes|
    ensures InfoField(SetInfoField(p, k, v), j) == if j == k then v else InfoField(p, j)
    ensures var q := SetInfoField(p, k, v);
      q.isInstalled == p.isInstalled && q.isUpdateAvailable == p.isUpdateAvailable
      && q.updateVersion == p.updateVersion && q.installDate == p.installDate
  {
  }

  /** The flags and the fields no prefix names are never touched. */
  lemma {:induction false} InfoKeepsFlags(p: PackageInfo, lines: seq<string>)
    ensures var r := ApplyInfoLines(p, lines);
      && r.isInstalled == p.isInstalled && r.isUpdateAvailable == p.isUpdateAvailable
      && r.updateVersion == p.updateVersion && r.installDate == p.installDate
    decreases |lines|
  {
    if lines != [] {
      InfoKeepsFlags(p, lines[..|lines| - 1]);
      var line := lines[|lines| - 1];
      if InfoKey(line).Some? {
        SetInfoFieldSpec(ApplyInfoLines(p, lines[..|lines| - 1]), InfoKey(line).value, InfoValue(line), 0);
      }
    }
  }

  /** A field no line names keeps its initial value. */
  lemma {:induction false} InfoUnnamedKeeps(p: PackageInfo, lines: seq<string>, k: nat)
    requires k < |InfoPrefixes|
    requires forall i :: 0 <= i < |lines| ==> InfoKey(lines[i]) != Some(k)
    ensures InfoField(ApplyInfoLines(p, lines), k) == InfoField(p, k)
    decreases |lines|
  {
    if lines != [] {
      var init := lines[..|lines| - 1];
      var line := lines[|lines| - 1];
      assert forall i :: 0 <= i < |init| ==> init[i] == lines[i];
      InfoUnnamedKeeps(p, init, k);
      if InfoKey(line).Some? {
        SetInfoFieldSpec(ApplyInfoLines(p, init), InfoKey(line).value, InfoValue(line), k);
      }
    }
  }

  /** Last line wins: a field holds the value of the last line whose first
      recognised prefix is that field's. */
  lemma {:induction false} InfoLastWins(p: PackageInfo, lines: seq<string>, k: nat, i: nat)
    requires k < |InfoPrefixes| && i < |lines| && InfoKey(lines[i]) == Some(k)
    requires forall j :: i < j < |lines| ==> InfoKey(lines[j]) != Some(k)
    ensures InfoField(ApplyInfoLines(p, lines), k) == InfoValue(lines[i])
    decreases |lines|
  {
    var init := lines[..|lines| - 1];
    var line := lines[|lines| - 1];
    var q := ApplyInfoLines(p, init);
    if i == |lines| - 1 {
      SetInfoFieldSpec(q, k, InfoValue(line), k);
    } else {
      assert forall j :: 0 <= j < |init| ==> init[j] == lines[j];
      InfoLastWins(p, init, k, i);
      if InfoKey(line).Some? {
        SetInfoFieldSpec(q, InfoKey(line).value, InfoValue(line), k);
      }
    }
  }

  /** parsePackageInfo: blocks separated by blank lines, those without a
      name dropped. */
  function ParsePackageInfo(output: string): seq<PackageInfo> {
    KeepNamed(SplitSkipEmpty(output, "\n\n"))
  }

  function KeepNamed(blocks: seq<string>): seq<PackageInfo> {
    if blocks == [] then []
    else
      var p := ParsePackageInfoBlock(blocks[0]);
      (if p.name != [] then [p] else []) + KeepNamed(blocks[1..])
  }

  /** Every record has a name, and every block with a name yields one. */
  lemma {:induction false} KeepNamedMembers(blocks: seq<string>, p: PackageInfo)
    ensures p in KeepNamed(blocks)
        <==> p.name != [] && exists i :: 0 <= i < |blocks| && ParsePackageInfoBlock(blocks[i]) == p
    decreases |blocks|
  {
    if blocks != [] {
      KeepNamedMembers(blocks[1..], p);
      if exists i :: 0 <= i < |blocks| && ParsePackageInfoBlock(blocks[i]) == p {
        var i :| 0 <= i < |blocks| && ParsePackageInfoBlock(blocks[i]) == p;
        if i > 0 { assert blocks[1..][i - 1] == blocks[i]; }
      }
      if exists i :: 0 <= i < |blocks[1..]| && ParsePackageInfoBlock(blocks[1..][i]) == p {
        var i :| 0 <= i < |blocks[1..]| && ParsePackageInfoBlock(blocks[1..][i]) == p;
        assert blocks[i + 1] == blocks[1..][i];
      }
    }
  }
}
