/** The repository tab's data logic: parsing `dnf repolist all --verbose`,
    `flatpak remotes --show-details` and `dnf repoinfo` blocks, the
    enable/disable checkbox handling and the Flathub quick-add check. */
module Repositories {
  import opened Text
  import Executor

  /** RepositoryInfo: one dnf repository. */
  datatype RepositoryInfo = RepositoryInfo(
    id: string,
    name: string,
    baseUrl: string,
    mirrorList: string,
    enabled: bool,
    status: string,
    description: string,
    gpgCheck: string,
    gpgKey: string,
    cost: string,
    priority: string)

  /** A value-initialised record: empty strings, not enabled. */
  const EmptyRepository := RepositoryInfo("", "", "", "", false, "", "", "", "", "", "")

  /** FlatpakRemote: one Flatpak remote. */
  datatype FlatpakRemote = FlatpakRemote(
    name: string,
    url: string,
    title: string,
    description: string,
    enabled: bool,
    isSystem: bool,
    filter: string)

  /** `line.split(":").last().trimmed()`: every field value of these parsers. */
  function FieldValue(line: string): string {
    Trim(AfterLast(line, ":"))
  }

  /** The value is the text after the last colon, so a URL loses its scheme:
      "Repo-baseurl : https://x" gives "//x". */
  lemma FieldValueAfterLastColon(key: string, rest: string)
    requires ':' !in rest
    ensures FieldValue(key + ":" + rest) == Trim(rest)
    ensures FieldValue(key + ":https:" + rest) == Trim(rest)
  {
    AfterLastAfterSep(key, ':', rest);
    assert key + ":https:" + rest == (key + ":https") + [':'] + rest;
    AfterLastAfterSep(key + ":https", ':', rest);
  }

  // ---------------------------------------------------------------------
  // `dnf repolist all --verbose`

  /** The kind of a trimmed `dnf repolist` line: the first prefix it starts
      with, Repo-id tested first. */
  datatype RepoKey = IdKey | NameKey | StatusKey | BaseUrlKey | MetalinkKey | MirrorsKey | DescriptionKey | OtherKey

  function KeyOf(t: string): RepoKey {
    if StartsWith(t, "Repo-id") then IdKey
    else if StartsWith(t, "Repo-name") then NameKey
    else if StartsWith(t, "Repo-status") then StatusKey
    else if StartsWith(t, "Repo-baseurl") then BaseUrlKey
    else if StartsWith(t, "Repo-metalink") then MetalinkKey
    else if StartsWith(t, "Repo-mirrors") then MirrorsKey
    else if StartsWith(t, "Repo-description") then DescriptionKey
    else OtherKey
  }

  /** A line reduced to its kind and its field value. */
  datatype RepoLine = RepoLine(key: RepoKey, value: string)

  function Classify(line: string): RepoLine {
    var t := Trim(line);
    RepoLine(KeyOf(t), FieldValue(t))
  }

  function ClassifyAll(lines: seq<string>): (r: seq<RepoLine>)
    ensures |r| == |lines|
  {
    if lines == [] then [] else ClassifyAll(lines[..|lines| - 1]) + [Classify(lines[|lines| - 1])]
  }

  lemma ClassifyAllSnoc(lines: seq<string>, i: nat)
    requires i < |lines|
    ensures ClassifyAll(lines[..i + 1]) == ClassifyAll(lines[..i]) + [Classify(lines[i])]
  {
    assert lines[..i + 1][..i] == lines[..i];
  }

  /** The effect of one line inside a record (never a Repo-id line). */
  function ApplyRepoLine(r: RepositoryInfo, line: RepoLine): RepositoryInfo {
    match line.key
    case NameKey => r.(name := line.value)
    case StatusKey => r.(enabled := ContainsCI(line.value, "enabled"), status := line.value)
    case BaseUrlKey => r.(baseUrl := line.value)
    case MetalinkKey => if r.baseUrl == [] then r.(baseUrl := line.value) else r
    case MirrorsKey => r.(mirrorList := line.value)
    case DescriptionKey => r.(description := line.value)
    case _ => r
  }

  function ApplyRepoLines(r: RepositoryInfo, ls: seq<RepoLine>): RepositoryInfo {
    if ls == [] then r else ApplyRepoLine(ApplyRepoLines(r, ls[..|ls| - 1]), ls[|ls| - 1])
  }

  /** The record of one section: the record its Repo-id line opens, filled by
      the lines up to the next Repo-id line. */
  function BuildRecord(section: seq<RepoLine>): RepositoryInfo
    requires section != []
  {
    ApplyRepoLines(EmptyRepository.(id := section[0].value), section[1..])
  }

  /** The lines cut into sections, each starting at a Repo-id line; lines
      before the first Repo-id line belong to no section. */
  function Sections(ls: seq<RepoLine>): (r: seq<seq<RepoLine>>)
    ensures forall k :: 0 <= k < |r| ==> r[k] != [] && r[k][0].key == IdKey
  {
    if ls == [] then []
    else
      var g := Sections(ls[..|ls| - 1]);
      var l := ls[|ls| - 1];
      if l.key == IdKey then g + [[l]]
      else if g == [] then []
      else g[..|g| - 1] + [g[|g| - 1] + [l]]
  }

  function Flatten(gs: seq<seq<RepoLine>>): seq<RepoLine> {
    if gs == [] then [] else Flatten(gs[..|gs| - 1]) + gs[|gs| - 1]
  }

  /** Index of the first Repo-id line, or the number of lines. */
  function FirstIdLine(ls: seq<RepoLine>): (r: nat)
    ensures r <= |ls|
    ensures forall k :: 0 <= k < r ==> ls[k].key != IdKey
    ensures r < |ls| ==> ls[r].key == IdKey
  {
    if ls == [] then 0
    else if ls[0].key == IdKey then 0
    else FirstIdLine(ls[1..]) + 1
  }

  lemma {:induction false} FirstIdLineSnoc(ls: seq<RepoLine>, l: RepoLine)
    ensures FirstIdLine(ls) < |ls| ==> FirstIdLine(ls + [l]) == FirstIdLine(ls)
    ensures FirstIdLine(ls) == |ls| ==> FirstIdLine(ls + [l]) == (if l.key == IdKey then |ls| else |ls| + 1)
    decreases |ls|
  {
    if ls != [] {
      assert (ls + [l])[0] == ls[0];
      assert (ls + [l])[1..] == ls[1..] + [l];
      FirstIdLineSnoc(ls[1..], l);
    }
  }

  /** The sections partition the lines from the first Repo-id line on, and
      only the first line of a section is a Repo-id line. */
  lemma SectionsPartition(ls: seq<RepoLine>)
    ensures Flatten(Sections(ls)) == ls[FirstIdLine(ls)..]
    ensures forall k, j :: 0 <= k < |Sections(ls)| && 0 < j < |Sections(ls)[k]| ==> Sections(ls)[k][j].key != IdKey
  {
    SectionsFlatten(ls);
    SectionsInner(ls);
  }

  /** The sections, put back together, are the lines from the first Repo-id
      line on. */
  lemma {:induction false} SectionsFlatten(ls: seq<RepoLine>)
    ensures Flatten(Sections(ls)) == ls[FirstIdLine(ls)..]
    decreases |ls|
  {
    if ls != [] {
      var init := ls[..|ls| - 1];
      var l := ls[|ls| - 1];
      assert ls == init + [l];
      SectionsFlatten(init);
      FirstIdLineSnoc(init, l);
      var f := FirstIdLine(init);
      DropSnoc(init, l, f);
      var g := Sections(init);
      if l.key == IdKey {
        assert Sections(ls) == g + [[l]];
        FlattenSnoc(g, [l]);
        if f == |init| {
          assert FirstIdLine(ls) == f;
        }
        assert Flatten(Sections(ls)) == init[f..] + [l];
      } else if g == [] {
        assert f == |init|;
        assert FirstIdLine(ls) == |ls|;
        assert ls[|ls|..] == [];
      } else {
        var front, last := g[..|g| - 1], g[|g| - 1];
        assert g == front + [last];
        assert Sections(ls) == front + [last + [l]];
        FlattenSnoc(front, last);
        FlattenSnoc(front, last + [l]);
        assert f < |init|;
        assert FirstIdLine(ls) == f;
        assert Flatten(Sections(ls)) == init[f..] + [l];
      }
    }
  }

  lemma FlattenSnoc(gs: seq<seq<RepoLine>>, x: seq<RepoLine>)
    ensures Flatten(gs + [x]) == Flatten(gs) + x
  {
    assert (gs + [x])[..|gs|] == gs;
  }

  lemma DropSnoc(ls: seq<RepoLine>, l: RepoLine, f: nat)
    requires f <= |ls|
    ensures (ls + [l])[f..] == ls[f..] + [l]
  {
  }

  /** Only the first line of a section is a Repo-id line. */
  lemma {:induction false} SectionsInner(ls: seq<RepoLine>)
    ensures forall k, j :: 0 <= k < |Sections(ls)| && 0 < j < |Sections(ls)[k]| ==> Sections(ls)[k][j].key != IdKey
    decreases |ls|
  {
    if ls != [] {
      var init := ls[..|ls| - 1];
      var l := ls[|ls| - 1];
      SectionsInner(init);
      var g := Sections(init);
      var r: seq<seq<RepoLine>> := Sections(ls);
      if l.key == IdKey {
        assert r == g + [[l]];
        forall k, j | 0 <= k < |r| && 0 < j < |r[k]| ensures r[k][j].key != IdKey {
          assert k < |g|;
          assert r[k] == g[k];
        }
      } else if g != [] {
        var last := g[|g| - 1];
        assert r == g[..|g| - 1] + [last + [l]];
        forall k, j | 0 <= k < |r| && 0 < j < |r[k]| ensures r[k][j].key != IdKey {
          if k < |g| - 1 {
            assert r[k] == g[k];
          } else if j < |last| {
            assert r[k][j] == last[j];
          }
        }
      }
    }
  }

  /** The records of the sections whose id is not empty, in section order. */
  function RecordsOf(sections: seq<seq<RepoLine>>): seq<RepositoryInfo>
    requires forall k :: 0 <= k < |sections| ==> sections[k] != []
  {
    if sections == [] then []
    else
      var r := BuildRecord(sections[|sections| - 1]);
      RecordsOf(sections[..|sections| - 1]) + (if r.id != [] then [r] else [])
  }

  /** What parseRepositoryList returns for an output. */
  function RepositoryList(output: string): seq<RepositoryInfo> {
    RecordsOf(Sections(ClassifyAll(Split(output, "\n"))))
  }

  /** The parser's state after some lines: whether a section is open, the
      record being built, and the records already emitted. */
  predicate Tracks(ls: seq<RepoLine>, repositories: seq<RepositoryInfo>, currentRepo: RepositoryInfo, inRepoSection: bool) {
    var g := Sections(ls);
    && (inRepoSection <==> g != [])
    && (g == [] ==> repositories == [])
    && (g != [] ==> currentRepo == BuildRecord(g[|g| - 1]) && repositories == RecordsOf(g[..|g| - 1]))
  }

  /** A Repo-id line emits the open record (when its id is not empty) and
      opens a new one. */
  lemma TracksIdLine(ls: seq<RepoLine>, l: RepoLine, repositories: seq<RepositoryInfo>, currentRepo: RepositoryInfo, inRepoSection: bool)
    requires l.key == IdKey
    requires Tracks(ls, repositories, currentRepo, inRepoSection)
    ensures Tracks(ls + [l], if inRepoSection && currentRepo.id != [] then repositories + [currentRepo] else repositories,
                   EmptyRepository.(id := l.value), true)
  {
    assert (ls + [l])[..|ls|] == ls;
    var g := Sections(ls);
    assert (g + [[l]])[..|g|] == g;
    assert [l][1..] == [];
    if g != [] {
      assert g == g[..|g| - 1] + [g[|g| - 1]];
    }
  }

  /** Any other line fills the open record, and is dropped when no section
      is open. */
  lemma TracksOtherLine(ls: seq<RepoLine>, l: RepoLine, repositories: seq<RepositoryInfo>, currentRepo: RepositoryInfo, inRepoSection: bool)
    requires l.key != IdKey
    requires Tracks(ls, repositories, currentRepo, inRepoSection)
    ensures Tracks(ls + [l], repositories, if inRepoSection then ApplyRepoLine(currentRepo, l) else currentRepo, inRepoSection)
  {
    assert (ls + [l])[..|ls|] == ls;
    var g := Sections(ls);
    if g != [] {
      var last := g[|g| - 1];
      var g' := g[..|g| - 1] + [last + [l]];
      assert g'[..|g'| - 1] == g[..|g| - 1];
      assert (last + [l])[1..] == last[1..] + [l];
      assert (last[1..] + [l])[..|last| - 1] == last[1..];
    }
  }

  /** One line of parseRepositoryList: the state before it and after it. */
  predicate RepoStep(l: RepoLine, repositories: seq<RepositoryInfo>, currentRepo: RepositoryInfo, inRepoSection: bool,
                     repositories': seq<RepositoryInfo>, currentRepo': RepositoryInfo, inRepoSection': bool) {
    if l.key == IdKey then
      && repositories' == (if inRepoSection && currentRepo.id != [] then repositories + [currentRepo] else repositories)
      && currentRepo' == EmptyRepository.(id := l.value) && inRepoSection'
    else
      && repositories' == repositories && inRepoSection' == inRepoSection
      && currentRepo' == (if inRepoSection then ApplyRepoLine(currentRepo, l) else currentRepo)
  }

  /** Each step of the parser keeps it in step with the sections. */
  lemma TracksStep(ls: seq<RepoLine>, l: RepoLine, repositories: seq<RepositoryInfo>, currentRepo: RepositoryInfo, inRepoSection: bool,
                   repositories': seq<RepositoryInfo>, currentRepo': RepositoryInfo, inRepoSection': bool)
    requires Tracks(ls, repositories, currentRepo, inRepoSection)
    requires RepoStep(l, repositories, currentRepo, inRepoSection, repositories', currentRepo', inRepoSection')
    ensures Tracks(ls + [l], repositories', currentRepo', inRepoSection')
  {
    if l.key == IdKey {
      TracksIdLine(ls, l, repositories, currentRepo, inRepoSection);
    } else {
      TracksOtherLine(ls, l, repositories, currentRepo, inRepoSection);
    }
  }

  /** parseRepositoryList: a state machine over the trimmed lines; a Repo-id
      line emits the record being built (when its id is not empty) and opens
      the next one, other lines fill the open record, and the last record is
      emitted at the end. */
  method ParseRepositoryList(output: string) returns (repositories: seq<RepositoryInfo>)
    ensures repositories == RepositoryList(output)
  {
    var lines := Split(output, "\n");
    repositories := [];
    var currentRepo := EmptyRepository;
    var inRepoSection := false;
    var i := 0;
    ghost var ls: seq<RepoLine> := [];
    while i < |lines|
      invariant 0 <= i <= |lines|
      invariant ls == ClassifyAll(lines[..i])
      invariant Tracks(ls, repositories, currentRepo, inRepoSection)
    {
      var line := Classify(lines[i]);
      ClassifyAllSnoc(lines, i);
      ghost var repositories0, currentRepo0, inRepoSection0 := repositories, currentRepo, inRepoSection;
      if line.key == IdKey {
        if inRepoSection && currentRepo.id != [] {
          repositories := repositories + [currentRepo];
        }
        currentRepo := EmptyRepository.(id := line.value);
        inRepoSection := true;
      } else if inRepoSection {
        currentRepo := FillRecord(currentRepo, line);
      }
      TracksStep(ls, line, repositories0, currentRepo0, inRepoSection0, repositories, currentRepo, inRepoSection);
      ls := ls + [line];
      i := i + 1;
    }
    assert lines[..i] == lines;
    TracksAll(ls, repositories, currentRepo, inRepoSection);
    if inRepoSection && currentRepo.id != [] {
      repositories := repositories + [currentRepo];
    }
  }

  /** The inner branches of parseRepositoryList: a line read into the open
      record. */
  method FillRecord(currentRepo: RepositoryInfo, line: RepoLine) returns (r: RepositoryInfo)
    ensures r == ApplyRepoLine(currentRepo, line)
  {
    r := currentRepo;
    match line.key {
      case NameKey => r := r.(name := line.value);
      case StatusKey => r := r.(enabled := ContainsCI(line.value, "enabled"), status := line.value);
      case BaseUrlKey => r := r.(baseUrl := line.value);
      case MetalinkKey =>
        if r.baseUrl == [] {
          r := r.(baseUrl := line.value);
        }
      case MirrorsKey => r := r.(mirrorList := line.value);
      case DescriptionKey => r := r.(description := line.value);
      case _ =>
    }
  }

  /** At the end of the lines, the records are the ones emitted and the open
      one, when its id is not empty. */
  lemma TracksAll(ls: seq<RepoLine>, repositories: seq<RepositoryInfo>, currentRepo: RepositoryInfo, inRepoSection: bool)
    requires Tracks(ls, repositories, currentRepo, inRepoSection)
    ensures RecordsOf(Sections(ls))
         == if inRepoSection && currentRepo.id != [] then repositories + [currentRepo] else repositories
  {
    var g := Sections(ls);
    if g != [] {
      assert g == g[..|g| - 1] + [g[|g| - 1]];
    }
  }

  /** Every listed repository has an id, and there are no more of them than
      sections. */
  lemma {:induction false} RecordsHaveIds(sections: seq<seq<RepoLine>>)
    requires forall k :: 0 <= k < |sections| ==> sections[k] != []
    ensures forall k :: 0 <= k < |RecordsOf(sections)| ==> RecordsOf(sections)[k].id != []
    ensures |RecordsOf(sections)| <= |sections|
    decreases |sections|
  {
    if sections != [] {
      RecordsHaveIds(sections[..|sections| - 1]);
    }
  }

  /** `enabled` agrees with the stored status. */
  predicate StatusAgrees(r: RepositoryInfo) {
    r.enabled <==> ContainsCI(r.status, "enabled")
  }

  /** `enabled` always holds exactly when the status contains "enabled" in
      any letter case. */
  lemma {:induction false} EnabledFollowsStatus(r: RepositoryInfo, ls: seq<RepoLine>)
    requires StatusAgrees(r)
    ensures StatusAgrees(ApplyRepoLines(r, ls))
    decreases |ls|
  {
    if ls != [] {
      EnabledFollowsStatus(r, ls[..|ls| - 1]);
      StatusStep(ApplyRepoLines(r, ls[..|ls| - 1]), ls[|ls| - 1]);
    }
  }

  lemma StatusStep(r: RepositoryInfo, l: RepoLine)
    requires StatusAgrees(r)
    ensures StatusAgrees(ApplyRepoLine(r, l))
  {
    if l.key != StatusKey {
      assert ApplyRepoLine(r, l).status == r.status && ApplyRepoLine(r, l).enabled == r.enabled;
    }
  }

  lemma RecordEnabledFollowsStatus(section: seq<RepoLine>)
    requires section != []
    ensures StatusAgrees(BuildRecord(section))
  {
    assert Lower([]) == [];
    assert !Contains([], Lower("enabled"));
    EnabledFollowsStatus(EmptyRepository.(id := section[0].value), section[1..]);
  }

  /** Repo-baseurl wins over Repo-metalink: once the last baseurl line has set
      a non-empty value, later metalink lines leave it. */
  lemma {:induction false} BaseUrlWins(r: RepositoryInfo, ls: seq<RepoLine>, i: nat)
    requires i < |ls| && ls[i].key == BaseUrlKey && ls[i].value != []
    requires forall j :: i < j < |ls| ==> ls[j].key != BaseUrlKey
    ensures ApplyRepoLines(r, ls).baseUrl == ls[i].value
    decreases |ls|
  {
    var init := ls[..|ls| - 1];
    if i < |ls| - 1 {
      assert forall j :: i < j < |init| ==> init[j] == ls[j];
      BaseUrlWins(r, init, i);
    }
  }

  /** A Repo-metalink line fills the URL only while it is empty. */
  lemma {:induction false} MetalinkOnlyFills(r: RepositoryInfo, ls: seq<RepoLine>)
    requires forall j :: 0 <= j < |ls| ==> ls[j].key != BaseUrlKey
    ensures r.baseUrl != [] ==> ApplyRepoLines(r, ls).baseUrl == r.baseUrl
    decreases |ls|
  {
    if ls != [] {
      MetalinkOnlyFills(r, ls[..|ls| - 1]);
    }
  }

  // ---------------------------------------------------------------------
  // `flatpak remotes --show-details`

  /** One line: blank lines, the header and lines with fewer than four tab
      separated fields give nothing. */
  function ParseRemoteLine(line: string): Option<FlatpakRemote> {
    var t := Trim(line);
    if t == [] || StartsWith(t, "Name") then None
    else
      var parts := Split(t, "\t");
      if |parts| < 4 then None
      else Some(FlatpakRemote(Trim(parts[0]), Trim(parts[2]), Trim(parts[3]), "",
                              !Contains(parts[1], "disabled"),
                              |parts| > 4 && Contains(parts[4], "system"), ""))
  }

  function ParseRemoteLines(lines: seq<string>): seq<FlatpakRemote> {
    if lines == [] then []
    else
      var head := ParseRemoteLine(lines[0]);
      (if head.Some? then [head.value] else []) + ParseRemoteLines(lines[1..])
  }

  /** parseFlatpakRemotes */
  function ParseFlatpakRemotes(output: string): seq<FlatpakRemote> {
    ParseRemoteLines(Split(output, "\n"))
  }

  /** A remote is listed exactly when some line parses to it. */
  lemma {:induction false} ParseRemoteLinesMembers(lines: seq<string>, r: FlatpakRemote)
    ensures r in ParseRemoteLines(lines) <==> exists i :: 0 <= i < |lines| && ParseRemoteLine(lines[i]) == Some(r)
    decreases |lines|
  {
    if lines != [] {
      ParseRemoteLinesMembers(lines[1..], r);
      if exists i :: 0 <= i < |lines| && ParseRemoteLine(lines[i]) == Some(r) {
        var i :| 0 <= i < |lines| && ParseRemoteLine(lines[i]) == Some(r);
        if i > 0 { assert lines[1..][i - 1] == lines[i]; }
      }
      if r in ParseRemoteLines(lines[1..]) {
        var i :| 0 <= i < |lines[1..]| && ParseRemoteLine(lines[1..][i]) == Some(r);
        assert lines[i + 1] == lines[1..][i];
      }
    }
  }

  /** A tab-separated line of four or five fields parses back into its
      fields: enabled unless the options say "disabled", a system remote
      only when a fifth field says "system". */
  lemma RemoteLineRoundTrip(fields: seq<string>)
    requires |fields| == 4 || |fields| == 5
    requires forall k :: 0 <= k < |fields| ==> '\t' !in fields[k]
    requires Trim(Join(fields, "\t")) == Join(fields, "\t")
    requires !StartsWith(Join(fields, "\t"), "Name")
    ensures ParseRemoteLine(Join(fields, "\t"))
         == Some(FlatpakRemote(Trim(fields[0]), Trim(fields[2]), Trim(fields[3]), "",
                               !Contains(fields[1], "disabled"),
                               |fields| == 5 && Contains(fields[4], "system"), ""))
  {
    var line := Join(fields, "\t");
    SplitJoin(fields, '\t');
    assert fields == [fields[0]] + fields[1..];
    JoinCons(fields[0], fields[1..], "\t");
    assert line != [];
  }

  // ---------------------------------------------------------------------
  // `dnf repoinfo` blocks

  /** The kind of a trimmed `dnf repoinfo` line: the first prefix it starts
      with. */
  datatype InfoKey = InfoId | InfoName | InfoStatus | InfoBaseUrl | InfoGpgCheck | InfoOther

  function InfoKeyOf(t: string): InfoKey {
    if StartsWith(t, "repo id:") then InfoId
    else if StartsWith(t, "repo name:") then InfoName
    else if StartsWith(t, "repo status:") then InfoStatus
    else if StartsWith(t, "repo baseurl:") then InfoBaseUrl
    else if StartsWith(t, "repo gpgcheck:") then InfoGpgCheck
    else InfoOther
  }

  datatype InfoLine = InfoLine(key: InfoKey, value: string)

  function ClassifyInfo(line: string): InfoLine {
    var t := Trim(line);
    InfoLine(InfoKeyOf(t), FieldValue(t))
  }

  function ClassifyInfoAll(lines: seq<string>): (r: seq<InfoLine>)
    ensures |r| == |lines|
  {
    if lines == [] then [] else ClassifyInfoAll(lines[..|lines| - 1]) + [ClassifyInfo(lines[|lines| - 1])]
  }

  /** The effect of one line; a later line for the same field overwrites. */
  function ApplyInfoLine(r: RepositoryInfo, line: InfoLine): RepositoryInfo {
    match line.key
    case InfoId => r.(id := line.value)
    case InfoName => r.(name := line.value)
    case InfoStatus => r.(enabled := line.value == "enabled", status := line.value)
    case InfoBaseUrl => r.(baseUrl := line.value)
    case InfoGpgCheck => r.(gpgCheck := line.value)
    case InfoOther => r
  }

  function ApplyInfoLines(r: RepositoryInfo, ls: seq<InfoLine>): RepositoryInfo {
    if ls == [] then r else ApplyInfoLine(ApplyInfoLines(r, ls[..|ls| - 1]), ls[|ls| - 1])
  }

  /** parseRepositoryInfo */
  function ParseRepositoryInfo(block: string): RepositoryInfo {
    ApplyInfoLines(EmptyRepository, ClassifyInfoAll(Split(block, "\n")))
  }

  /** Here `enabled` requires the status to be exactly "enabled" (unlike the
      list parser, which accepts any status containing it in any case). */
  lemma {:induction false} InfoEnabledExact(r: RepositoryInfo, ls: seq<InfoLine>)
    requires r.enabled <==> r.status == "enabled"
    ensures var q := ApplyInfoLines(r, ls); q.enabled <==> q.status == "enabled"
    decreases |ls|
  {
    if ls != [] {
      InfoEnabledExact(r, ls[..|ls| - 1]);
    }
  }

  lemma ParseRepositoryInfoEnabled(block: string)
    ensures ParseRepositoryInfo(block).enabled <==> ParseRepositoryInfo(block).status == "enabled"
  {
    InfoEnabledExact(EmptyRepository, ClassifyInfoAll(Split(block, "\n")));
  }

  /** Each field holds the value of the last line of its kind, and keeps its
      initial value when no line has that kind. */
  lemma {:induction false} InfoLastLineWins(r: RepositoryInfo, ls: seq<InfoLine>, i: nat)
    requires i < |ls| && ls[i].key != InfoOther
    requires forall j :: i < j < |ls| ==> ls[j].key != ls[i].key
    ensures var q := ApplyInfoLines(r, ls);
      match ls[i].key
      case InfoId => q.id == ls[i].value
      case InfoName => q.name == ls[i].value
      case InfoStatus => q.status == ls[i].value
      case InfoBaseUrl => q.baseUrl == ls[i].value
      case InfoGpgCheck => q.gpgCheck == ls[i].value
      case InfoOther => true
    decreases |ls|
  {
    var init := ls[..|ls| - 1];
    if i < |ls| - 1 {
      assert forall j :: i < j < |init| ==> init[j] == ls[j];
      InfoLastLineWins(r, init, i);
    }
  }

  // ---------------------------------------------------------------------
  // Checkbox changes and Flathub

  const RepoColumnEnabled := 1
  const FlatpakColumnEnabled := 1

  /** enableFlatpakRemote */
  function EnableFlatpakRemote(remoteName: string): Executor.Request {
    Executor.Request("flatpak", ["remote-modify", "--enable", remoteName], "Enabling Flatpak remote " + remoteName)
  }

  /** disableFlatpakRemote */
  function DisableFlatpakRemote(remoteName: string): Executor.Request {
    Executor.Request("flatpak", ["remote-modify", "--disable", remoteName], "Disabling Flatpak remote " + remoteName)
  }

  /** onRepoTableItemChanged: the request a change of the enabled checkbox
      submits. */
  function RepoToggleRequest(repos: seq<RepositoryInfo>, column: int, row: int, checked: bool): Option<Executor.Request> {
    if column != RepoColumnEnabled || !(0 <= row < |repos|) || checked == repos[row].enabled then None
    else if checked then Some(Executor.EnableRepository(repos[row].id))
    else Some(Executor.DisableRepository(repos[row].id))
  }

  /** onFlatpakTableItemChanged */
  function FlatpakToggleRequest(remotes: seq<FlatpakRemote>, column: int, row: int, checked: bool): Option<Executor.Request> {
    if column != FlatpakColumnEnabled || !(0 <= row < |remotes|) || checked == remotes[row].enabled then None
    else if checked then Some(EnableFlatpakRemote(remotes[row].name))
    else Some(DisableFlatpakRemote(remotes[row].name))
  }

  /** A checkbox change submits something exactly when it is on the enabled
      column of an existing row and differs from the stored state; what it
      submits moves that row's repository or remote to the new state. */
  lemma ToggleRequestsSpec(repos: seq<RepositoryInfo>, remotes: seq<FlatpakRemote>, column: int, row: int, checked: bool)
    ensures var r := RepoToggleRequest(repos, column, row, checked);
      && (r.Some? <==> column == RepoColumnEnabled && 0 <= row < |repos| && checked != repos[row].enabled)
      && (r.Some? ==> r.value.args[|r.value.args| - 1] == repos[row].id
                      && r.value.args[1] == (if checked then "--enable" else "--disable"))
    ensures var r := FlatpakToggleRequest(remotes, column, row, checked);
      && (r.Some? <==> column == FlatpakColumnEnabled && 0 <= row < |remotes| && checked != remotes[row].enabled)
      && (r.Some? ==> r.value.args == ["remote-modify", if checked then "--enable" else "--disable", remotes[row].name])
  {
  }

  datatype FlathubOutcome =
    | FlatpakMissing
    | AlreadyAdded
    | AddStarted(program: string, args: seq<string>)

  const FlathubUrl := "https://dl.flathub.org/repo/flathub.flatpakrepo"

  /** The repository tab's lists. */
  class RepositoryManager {
    /** m_repositories */
    var repositories: seq<RepositoryInfo>
    /** m_flatpakRemotes */
    var flatpakRemotes: seq<FlatpakRemote>

    constructor ()
      ensures repositories == [] && flatpakRemotes == []
    {
      repositories := [];
      flatpakRemotes := [];
    }

    /** refreshRepositories: the list is replaced only when dnf succeeded. */
    method RefreshRepositories(exitCode: int, output: string)
      modifies this`repositories
      ensures repositories == if exitCode == 0 then RepositoryList(output) else old(repositories)
    {
      if exitCode == 0 {
        repositories := ParseRepositoryList(output);
      }
    }

    /** refreshFlatpakRemotes: nothing without flatpak; the list is replaced
        only when the listing succeeded. */
    method RefreshFlatpakRemotes(flatpakAvailable: bool, exitCode: int, output: string)
      modifies this`flatpakRemotes
      ensures flatpakRemotes == if flatpakAvailable && exitCode == 0 then ParseFlatpakRemotes(output) else old(flatpakRemotes)
    {
      if !flatpakAvailable {
        return;
      }
      if exitCode == 0 {
        flatpakRemotes := ParseFlatpakRemotes(output);
      }
    }

    /** quickAddFlathub: no process when flatpak is missing or a remote named
        exactly "flathub" is listed; otherwise `flatpak remote-add`. */
    method QuickAddFlathub(flatpakAvailable: bool) returns (outcome: FlathubOutcome)
      ensures !flatpakAvailable ==> outcome == FlatpakMissing
      ensures flatpakAvailable && (exists i :: 0 <= i < |flatpakRemotes| && flatpakRemotes[i].name == "flathub")
              ==> outcome == AlreadyAdded
      ensures flatpakAvailable && (forall i :: 0 <= i < |flatpakRemotes| ==> flatpakRemotes[i].name != "flathub")
              ==> outcome == AddStarted("flatpak", ["remote-add", "--if-not-exists", "flathub", FlathubUrl])
    {
      if !flatpakAvailable {
        return FlatpakMissing;
      }
      var i := 0;
      while i < |flatpakRemotes|
        invariant 0 <= i <= |flatpakRemotes|
        invariant forall j :: 0 <= j < i ==> flatpakRemotes[j].name != "flathub"
      {
        if flatpakRemotes[i].name == "flathub" {
          return AlreadyAdded;
        }
        i := i + 1;
      }
      return AddStarted("flatpak", ["remote-add", "--if-not-exists", "flathub", FlathubUrl]);
    }
  }
}
