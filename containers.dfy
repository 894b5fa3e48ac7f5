/** The container tab (src/containermanager.cpp): the container and image
    lists kept up to date by ID, the search worker's filter, the
    duration and status renderings, and the argument lists handed to the
    container runtime. */
module Containers {
  import opened Text
  import opened Json

  // ---------------------------------------------------------------------
  // Upsert by ID

  /** The ID a container or image record is keyed by. */
  function IdOf(record: Object): string {
    GetString(record, "ID")
  }

  /** The position of the first record whose ID is `id`, if any. */
  function FirstWithId(records: seq<Object>, id: string): (r: Option<nat>)
    ensures r.Some? ==> r.value < |records| && IdOf(records[r.value]) == id
    ensures r.Some? ==> forall j :: 0 <= j < r.value ==> IdOf(records[j]) != id
    ensures r.None? ==> forall j :: 0 <= j < |records| ==> IdOf(records[j]) != id
    decreases |records|
  {
    if records == [] then None
    else if IdOf(records[0]) == id then Some(0)
    else match FirstWithId(records[1..], id)
      case None => None
      case Some(i) => Some(i + 1)
  }

  /** The list after a record is reported: the first record with the same
      ID is replaced by it, or it is appended when no record has that ID. */
  function Upsert(records: seq<Object>, info: Object): seq<Object>
  {
    match FirstWithId(records, IdOf(info))
    case Some(i) => records[i := info]
    case None => records + [info]
  }

  /** Where an upsert puts the record: the first position holding its ID,
      or the end of the list. */
  function UpsertPosition(records: seq<Object>, id: string): (k: nat)
    ensures k <= |records|
  {
    match FirstWithId(records, id)
    case Some(i) => i
    case None => |records|
  }

  /** No two records share an ID. */
  predicate DistinctIds(records: seq<Object>) {
    forall i, j :: 0 <= i < j < |records| ==> IdOf(records[i]) != IdOf(records[j])
  }

  /** An upsert grows the list by one exactly when the ID was absent, puts
      the record at its position and leaves every other entry as it was. */
  lemma UpsertShape(records: seq<Object>, info: Object)
    ensures |Upsert(records, info)| ==
      |records| + (if FirstWithId(records, IdOf(info)).None? then 1 else 0)
    ensures Upsert(records, info)[UpsertPosition(records, IdOf(info))] == info
    ensures forall j :: 0 <= j < |records| && j != UpsertPosition(records, IdOf(info)) ==>
      Upsert(records, info)[j] == records[j]
  {
  }

  /** After an upsert the first record carrying the ID is the new one. */
  lemma UpsertFinds(records: seq<Object>, info: Object)
    ensures FirstWithId(Upsert(records, info), IdOf(info)) ==
      Some(UpsertPosition(records, IdOf(info)))
  {
    var id := IdOf(info);
    var r := Upsert(records, info);
    var k := UpsertPosition(records, id);
    UpsertShape(records, info);
    assert IdOf(r[k]) == id;
    forall j | 0 <= j < k ensures IdOf(r[j]) != id {
      assert r[j] == records[j];
    }
  }

  /** Reporting the same record twice has the effect of reporting it once. */
  lemma UpsertIdempotent(records: seq<Object>, info: Object)
    ensures Upsert(Upsert(records, info), info) == Upsert(records, info)
  {
    var r := Upsert(records, info);
    UpsertFinds(records, info);
    UpsertShape(records, info);
    assert r[UpsertPosition(records, IdOf(info)) := info] == r;
  }

  /** An upsert keeps IDs distinct. */
  lemma UpsertKeepsDistinct(records: seq<Object>, info: Object)
    requires DistinctIds(records)
    ensures DistinctIds(Upsert(records, info))
  {
    var r := Upsert(records, info);
    var k := UpsertPosition(records, IdOf(info));
    UpsertShape(records, info);
    forall i, j | 0 <= i < j < |r| ensures IdOf(r[i]) != IdOf(r[j]) {
      if i != k && j != k {
        assert r[i] == records[i] && r[j] == records[j];
      } else if i == k {
        assert r[j] == records[j] || j == |records|;
      } else {
        assert r[i] == records[i];
      }
    }
  }

  /** The container tab's record lists, in the order rows were first
      reported. */
  class ContainerManager {
    var containers: seq<Object>
    var images: seq<Object>

    /** Every ID appears at most once in each list. */
    ghost predicate Valid()
      reads this
    {
      DistinctIds(containers) && DistinctIds(images)
    }

    constructor ()
      ensures containers == [] && images == []
      ensures Valid()
    {
      containers := [];
      images := [];
    }

    /** A container reported by the search worker replaces the first entry
        with its ID, or is appended. */
    method OnContainerFound(containerInfo: Object)
      requires Valid()
      modifies this
      ensures containers == Upsert(old(containers), containerInfo)
      ensures images == old(images)
      ensures Valid()
    {
      ghost var before := containers;
      var id := IdOf(containerInfo);
      var found := false;
      var i := 0;
      while i < |containers|
        invariant 0 <= i <= |containers|
        invariant containers == before
        invariant forall j :: 0 <= j < i ==> IdOf(containers[j]) != id
      {
        if IdOf(containers[i]) == id {
          containers := containers[i := containerInfo];
          found := true;
          break;
        }
        i := i + 1;
      }
      if !found {
        containers := containers + [containerInfo];
      }
      UpsertKeepsDistinct(before, containerInfo);
    }

    /** An image reported by the search worker replaces the first entry
        with its ID, or is appended. */
    method OnImageFound(imageInfo: Object)
      requires Valid()
      modifies this
      ensures images == Upsert(old(images), imageInfo)
      ensures containers == old(containers)
      ensures Valid()
    {
      ghost var before := images;
      var id := IdOf(imageInfo);
      var found := false;
      var i := 0;
      while i < |images|
        invariant 0 <= i <= |images|
        invariant images == before
        invariant forall j :: 0 <= j < i ==> IdOf(images[j]) != id
      {
        if IdOf(images[i]) == id {
          images := images[i := imageInfo];
          found := true;
          break;
        }
        i := i + 1;
      }
      if !found {
        images := images + [imageInfo];
      }
      UpsertKeepsDistinct(before, imageInfo);
    }
  }

  // ---------------------------------------------------------------------
  // Search worker

  /** A record passes the search when the term is empty or one of the two
      named fields contains it, ignoring case. */
  predicate Matches(record: Object, term: string, first: string, second: string) {
    term == [] || ContainsCI(GetString(record, first), term) ||
    ContainsCI(GetString(record, second), term)
  }

  /** The records reported for the lines of `docker ... --format json`
      output: each line that parses as JSON and passes the search. */
  function Kept(lines: seq<string>, parse: string -> Option<Object>, term: string,
                first: string, second: string): seq<Object>
    decreases |lines|
  {
    if lines == [] then []
    else
      var rest := Kept(lines[..|lines| - 1], parse, term, first, second);
      match parse(lines[|lines| - 1])
      case Some(record) => if Matches(record, term, first, second) then rest + [record] else rest
      case None => rest
  }

  /** A record is reported iff some line parses to it and it passes the
      search. */
  lemma {:induction false} KeptMembers(lines: seq<string>, parse: string -> Option<Object>,
                                       term: string, first: string, second: string, record: Object)
    ensures record in Kept(lines, parse, term, first, second) <==>
      (Matches(record, term, first, second) &&
       exists i :: 0 <= i < |lines| && parse(lines[i]) == Some(record))
    decreases |lines|
  {
    if lines != [] {
      var init := lines[..|lines| - 1];
      KeptMembers(init, parse, term, first, second, record);
      if exists i :: 0 <= i < |lines| && parse(lines[i]) == Some(record) {
        var i :| 0 <= i < |lines| && parse(lines[i]) == Some(record);
        if i < |init| {
          assert parse(init[i]) == Some(record);
        }
      }
      if exists i :: 0 <= i < |init| && parse(init[i]) == Some(record) {
        var i :| 0 <= i < |init| && parse(init[i]) == Some(record);
        assert parse(lines[i]) == Some(record);
      }
    }
  }

  /** With an empty term every line that parses is reported, in order. */
  lemma {:induction false} KeptAllForEmptyTerm(lines: seq<string>, parse: string -> Option<Object>,
                                               first: string, second: string)
    requires forall i :: 0 <= i < |lines| ==> parse(lines[i]).Some?
    ensures |Kept(lines, parse, [], first, second)| == |lines|
    ensures forall i :: 0 <= i < |lines| ==>
      Some(Kept(lines, parse, [], first, second)[i]) == parse(lines[i])
    decreases |lines|
  {
    if lines != [] {
      var init := lines[..|lines| - 1];
      KeptAllForEmptyTerm(init, parse, first, second);
    }
  }

  /** One query's reports: nothing when the command failed, otherwise the
      kept records of its non-empty output lines in order. */
  method FilterOutput(exitCode: int, output: string, parse: string -> Option<Object>,
                      term: string, first: string, second: string) returns (found: seq<Object>)
    ensures found == if exitCode == 0
      then Kept(SplitSkipEmpty(output, "\n"), parse, term, first, second) else []
  {
    found := [];
    if exitCode == 0 {
      var lines := SplitSkipEmpty(output, "\n");
      var i := 0;
      while i < |lines|
        invariant 0 <= i <= |lines|
        invariant found == Kept(lines[..i], parse, term, first, second)
      {
        assert lines[..i + 1][..i] == lines[..i];
        var doc := parse(lines[i]);
        if doc.Some? {
          var record := doc.value;
          if term == [] || ContainsCI(GetString(record, first), term) ||
             ContainsCI(GetString(record, second), term) {
            found := found + [record];
          }
        }
        i := i + 1;
      }
      assert lines[..i] == lines;
    }
  }

  /** The search worker: for Docker, the containers of `docker ps -a`
      filtered on Names/Image, then the images of `docker images` filtered
      on Repository/Tag whatever the first command's exit code; for any
      other runtime nothing is reported. */
  method Search(containerType: string, term: string, parse: string -> Option<Object>,
                psExitCode: int, psOutput: string,
                imagesExitCode: int, imagesOutput: string)
    returns (containers: seq<Object>, images: seq<Object>)
    ensures containerType != "docker" ==> containers == [] && images == []
    ensures containerType == "docker" ==>
      && containers == (if psExitCode == 0
        then Kept(SplitSkipEmpty(psOutput, "\n"), parse, term, "Names", "Image") else [])
      && images == (if imagesExitCode == 0
        then Kept(SplitSkipEmpty(imagesOutput, "\n"), parse, term, "Repository", "Tag") else [])
  {
    containers, images := [], [];
    if containerType == "docker" {
      containers := FilterOutput(psExitCode, psOutput, parse, term, "Names", "Image");
      images := FilterOutput(imagesExitCode, imagesOutput, parse, term, "Repository", "Tag");
    }
  }

  // ---------------------------------------------------------------------
  // Durations

  /** The length in seconds of each unit a duration is shown in. */
  function UnitSeconds(k: nat): nat
    requires k < 4
  {
    [1, 60, 3600, 86400][k]
  }

  const DurationSuffixes: seq<string> := ["s", "m", "h", "d"]

  /** How long a container has been up, from the seconds elapsed since it
      started (the clock reading is a parameter). */
  function FormatDuration(seconds: int): string {
    if seconds < 60 then IntToString(seconds) + "s"
    else if seconds < 3600 then IntToString(seconds / 60) + "m"
    else if seconds < 86400 then IntToString(seconds / 3600) + "h"
    else IntToString(seconds / 86400) + "d"
  }

  /** The largest unit, up to days, that is not longer than the duration
      (seconds below one minute). */
  function DurationUnit(seconds: int, k: nat): (r: nat)
    requires k < 4
    ensures k <= r < 4
    decreases 3 - k
  {
    if k == 3 || seconds < UnitSeconds(k + 1) then k else DurationUnit(seconds, k + 1)
  }

  /** A non-negative duration is shown as the whole number q of its unit
      followed by the unit's letter, with q units <= duration < q + 1 units;
      q is at least 1 unless the unit is seconds, and fewer than fit in the
      next unit unless the unit is days. The number reads back as q. */
  lemma FormatDurationSpec(seconds: nat)
    ensures var k := DurationUnit(seconds, 0);
      var q := seconds / UnitSeconds(k);
      && FormatDuration(seconds) == NatToString(q) + DurationSuffixes[k]
      && ParseDigits(NatToString(q)) == q
      && q * UnitSeconds(k) <= seconds < (q + 1) * UnitSeconds(k)
      && (k > 0 ==> q >= 1)
      && (k < 3 ==> q * UnitSeconds(k) < UnitSeconds(k + 1))
  {
    var k := DurationUnit(seconds, 0);
    var d := UnitSeconds(k);
    var q := seconds / d;
    ParseNatToString(q);
    assert q * d <= seconds < (q + 1) * d;
    if seconds < 60 {
      assert k == 0 && d == 1;
    } else if seconds < 3600 {
      assert k == 1 && d == 60;
    } else if seconds < 86400 {
      assert k == 2 && d == 3600;
    } else {
      assert k == 3 && d == 86400;
    }
  }

  /** A start time in the future gives a negative count of seconds. */
  lemma FormatDurationNegative(seconds: int)
    requires seconds < 0
    ensures FormatDuration(seconds) == "-" + NatToString(-seconds) + "s"
  {
  }

  // ---------------------------------------------------------------------
  // Status rendering

  /** The statuses the container table distinguishes. */
  datatype StatusKind = Running | Stopped | Paused | Created | Unknown

  function KindOf(status: string): StatusKind {
    if status == "running" then Running
    else if status == "stopped" || status == "exited" then Stopped
    else if status == "paused" then Paused
    else if status == "created" then Created
    else Unknown
  }

  /** The colour of a status cell. */
  function StatusColor(status: string): string {
    if status == "running" then "#4CAF50"
    else if status == "stopped" || status == "exited" then "#FF5722"
    else if status == "paused" then "#FF9800"
    else if status == "created" then "#2196F3"
    else "#666666"
  }

  /** The icon of a status cell, as the source file's literals decode. */
  function ContainerIcon(status: string): string {
    if status == "running" then "\U{E2}\U{2013}\U{B6}"
    else if status == "stopped" || status == "exited" then "\U{E2}\U{B9}"
    else if status == "paused" then "\U{E2}\U{B8}"
    else if status == "created" then "\U{E2}\U{AD}\U{2DC}"
    else "?"
  }

  /** Two statuses get the same colour exactly when they are of the same
      kind: every kind has its own colour. */
  lemma StatusColorByKind(a: string, b: string)
    ensures StatusColor(a) == StatusColor(b) <==> KindOf(a) == KindOf(b)
  {
    assert "#4CAF50"[1] == '4' && "#FF5722"[1] == 'F' && "#2196F3"[1] == '2' && "#666666"[1] == '6';
    assert "#FF5722"[3] == '5' && "#FF9800"[3] == '9';
  }

  /** Two statuses get the same icon exactly when they are of the same
      kind. */
  lemma ContainerIconByKind(a: string, b: string)
    ensures ContainerIcon(a) == ContainerIcon(b) <==> KindOf(a) == KindOf(b)
  {
    assert "\U{E2}\U{B9}"[1] == '\U{B9}' && "\U{E2}\U{B8}"[1] == '\U{B8}';
  }

  /** The colour and the icon of a status always agree on its kind. */
  lemma ColorAndIconAgree(a: string, b: string)
    ensures StatusColor(a) == StatusColor(b) <==> ContainerIcon(a) == ContainerIcon(b)
  {
    StatusColorByKind(a, b);
    ContainerIconByKind(a, b);
  }

  /** Only "running" is shown green, and a status is shown grey exactly
      when it is none of the five known ones. */
  lemma StatusColorDefault(status: string)
    ensures StatusColor(status) == "#4CAF50" <==> status == "running"
    ensures StatusColor(status) == "#666666" <==>
      status !in ["running", "stopped", "exited", "paused", "created"]
  {
    StatusColorByKind(status, "running");
    StatusColorByKind(status, "");
  }

  // ---------------------------------------------------------------------
  // Runtime argument lists

  /** The choices of the "Create Container" dialog. */
  datatype CreateSettings = CreateSettings(
    interactive: bool, tty: bool, detach: bool, remove: bool,
    name: string, ports: string, volumes: string, command: string)

  function Flag(on: bool, flag: string): seq<string> {
    if on then [flag] else []
  }

  function Valued(value: string, option: string): seq<string> {
    if value != [] then [option, value] else []
  }

  function Single(value: string): seq<string> {
    if value != [] then [value] else []
  }

  /** The dialog's options: -i, -t, -d and --rm for the ticked boxes, then
      --name, -p and -v with their texts when these are not empty, then the
      command as one argument when it is not empty. */
  function CreateOptions(s: CreateSettings): seq<string> {
    Flag(s.interactive, "-i") + (Flag(s.tty, "-t") + (Flag(s.detach, "-d") +
    (Flag(s.remove, "--rm") + (Valued(s.name, "--name") + (Valued(s.ports, "-p") +
    (Valued(s.volumes, "-v") + Single(s.command)))))))
  }

  /** `<runtime> run <options> <image>`. */
  function CreateContainerArgs(imageName: string, options: seq<string>): (r: seq<string>)
    ensures |r| == |options| + 2 && r[0] == "run" && r[|r| - 1] == imageName
    ensures r[1..|r| - 1] == options
  {
    ["run"] + options + [imageName]
  }

  /** The option words the dialog itself produces. */
  const OptionWords: seq<string> := ["-i", "-t", "-d", "--rm", "--name", "-p", "-v"]

  /** Reading an option list back: a flag when it comes first, then the
      rest. */
  function ReadFlag(options: seq<string>, flag: string): (bool, seq<string>) {
    if options != [] && options[0] == flag then (true, options[1..]) else (false, options)
  }

  function ReadValued(options: seq<string>, option: string): (string, seq<string>) {
    if |options| >= 2 && options[0] == option then (options[1], options[2..]) else ([], options)
  }

  /** The settings an option list was built from, if it has the dialog's
      shape. */
  function ReadCreateOptions(options: seq<string>): Option<CreateSettings> {
    var (i, o1) := ReadFlag(options, "-i");
    var (t, o2) := ReadFlag(o1, "-t");
    var (d, o3) := ReadFlag(o2, "-d");
    var (rm, o4) := ReadFlag(o3, "--rm");
    var (name, o5) := ReadValued(o4, "--name");
    var (ports, o6) := ReadValued(o5, "-p");
    var (volumes, o7) := ReadValued(o6, "-v");
    if |o7| > 1 then None
    else Some(CreateSettings(i, t, d, rm, name, ports, volumes, if o7 == [] then [] else o7[0]))
  }

  /** The first word of an option list is not `w`. */
  predicate NotFirst(options: seq<string>, w: string) {
    options == [] || options[0] != w
  }

  lemma ReadFlagOf(on: bool, flag: string, rest: seq<string>)
    requires NotFirst(rest, flag)
    ensures ReadFlag(Flag(on, flag) + rest, flag) == (on, rest)
  {
    if on {
      assert (Flag(on, flag) + rest)[1..] == rest;
    } else {
      assert Flag(on, flag) + rest == rest;
    }
  }

  lemma ReadValuedOf(value: string, option: string, rest: seq<string>)
    requires NotFirst(rest, option)
    ensures ReadValued(Valued(value, option) + rest, option) == (value, rest)
  {
    if value != [] {
      assert (Valued(value, option) + rest)[2..] == rest;
    } else {
      assert Valued(value, option) + rest == rest;
    }
  }

  /** The words that can start the options after the --name step. */
  lemma TailHeads(s: CreateSettings)
    requires s.command !in OptionWords
    ensures var r := Valued(s.volumes, "-v") + Single(s.command);
      NotFirst(r, "-p") && NotFirst(r, "--name") && NotFirst(r, "--rm") &&
      NotFirst(r, "-d") && NotFirst(r, "-t") && NotFirst(r, "-i")
    ensures var r := Valued(s.ports, "-p") + (Valued(s.volumes, "-v") + Single(s.command));
      NotFirst(r, "--name") && NotFirst(r, "--rm") &&
      NotFirst(r, "-d") && NotFirst(r, "-t") && NotFirst(r, "-i")
    ensures var r := Valued(s.name, "--name") + (Valued(s.ports, "-p") +
      (Valued(s.volumes, "-v") + Single(s.command)));
      NotFirst(r, "--rm") && NotFirst(r, "-d") && NotFirst(r, "-t") && NotFirst(r, "-i")
  {
    assert s.command != "-i" && s.command != "-t" && s.command != "-d" && s.command != "--rm";
    assert s.command != "--name" && s.command != "-p" && s.command != "-v";
  }

  /** The dialog's option list reads back as the settings it was built
      from, provided the command is not itself one of the option words. */
  lemma CreateOptionsRoundTrip(s: CreateSettings)
    requires s.command !in OptionWords
    ensures ReadCreateOptions(CreateOptions(s)) == Some(s)
  {
    var r7 := Single(s.command);
    var r6 := Valued(s.volumes, "-v") + r7;
    var r5 := Valued(s.ports, "-p") + r6;
    var r4 := Valued(s.name, "--name") + r5;
    var r3 := Flag(s.remove, "--rm") + r4;
    var r2 := Flag(s.detach, "-d") + r3;
    var r1 := Flag(s.tty, "-t") + r2;
    TailHeads(s);
    assert NotFirst(r7, "-v") by {
      assert s.command != "-v";
    }
    assert NotFirst(r3, "-d") && NotFirst(r3, "-t") && NotFirst(r3, "-i");
    assert NotFirst(r2, "-t") && NotFirst(r2, "-i");
    assert NotFirst(r1, "-i");
    ReadFlagOf(s.interactive, "-i", r1);
    ReadFlagOf(s.tty, "-t", r2);
    ReadFlagOf(s.detach, "-d", r3);
    ReadFlagOf(s.remove, "--rm", r4);
    ReadValuedOf(s.name, "--name", r5);
    ReadValuedOf(s.ports, "-p", r6);
    ReadValuedOf(s.volumes, "-v", r7);
  }

  /** createContainer's arguments: `run` first and the image last, with
      the words between reading back as the dialog's settings. */
  lemma CreateArgsRoundTrip(s: CreateSettings, imageName: string)
    requires s.command !in OptionWords
    ensures var r := CreateContainerArgs(imageName, CreateOptions(s));
      && r[0] == "run" && r[|r| - 1] == imageName
      && ReadCreateOptions(r[1..|r| - 1]) == Some(s)
  {
    CreateOptionsRoundTrip(s);
  }

  /** The image reference `pull` is given: the name alone when no tag is
      chosen, otherwise `name:tag`. */
  function PullReference(imageName: string, tag: string): string {
    if tag == [] then imageName else imageName + ":" + tag
  }

  /** `<runtime> pull <reference>`. */
  function PullArgs(imageName: string, tag: string): (r: seq<string>)
    ensures |r| == 2 && r[0] == "pull" && r[1] == PullReference(imageName, tag)
  {
    ["pull", PullReference(imageName, tag)]
  }

  /** A pulled reference splits back at ':' into the name and the tag
      when neither contains ':'. */
  lemma PullReferenceSplits(imageName: string, tag: string)
    requires ':' !in imageName && ':' !in tag
    ensures Split(PullReference(imageName, tag), ":") ==
      if tag == [] then [imageName] else [imageName, tag]
  {
    if tag == [] {
      SplitJoin([imageName], ':');
      assert Join([imageName], ":") == imageName;
    } else {
      SplitJoin([imageName, tag], ':');
      assert Join([imageName, tag], ":") == imageName + ":" + tag;
    }
  }

  /** pullImageByName's arguments: `pull` and a reference that splits back
      into the image name and, when one was chosen, the tag. */
  lemma PullArgsNameTag(imageName: string, tag: string)
    requires ':' !in imageName && ':' !in tag
    ensures var r := PullArgs(imageName, tag);
      && r[0] == "pull"
      && Split(r[1], ":") == if tag == [] then [imageName] else [imageName, tag]
  {
    PullReferenceSplits(imageName, tag);
  }

  /** The reference `tag` is given for a new tag typed by the user: the
      text before the first ':' as repository, the second ':'-piece as tag
      or "latest" when there is none. An empty text tags nothing. */
  function TagReference(newTag: string): Option<string> {
    if newTag == [] then None
    else
      var parts := Split(newTag, ":");
      var repository := parts[0];
      var tag := if |parts| > 1 then parts[1] else "latest";
      Some(repository + ":" + tag)
  }

  /** `<runtime> tag <image id> <repository:tag>`, when the dialog was
      accepted (`ok`) with a tag typed. */
  function TagImageArgs(imageId: string, newTag: string, ok: bool): (r: Option<seq<string>>)
    ensures r.None? <==> !ok || newTag == []
    ensures r.Some? ==> r.value == ["tag", imageId, TagReference(newTag).value]
  {
    if !ok then None
    else match TagReference(newTag)
      case None => None
      case Some(reference) => Some(["tag", imageId, reference])
  }

  /** A `repository:tag` text is used as typed. */
  lemma TagReferenceKeeps(repository: string, tag: string)
    requires ':' !in repository && ':' !in tag
    ensures TagReference(repository + ":" + tag) == Some(repository + ":" + tag)
  {
    SplitJoin([repository, tag], ':');
    assert Join([repository, tag], ":") == repository + ":" + tag;
  }

  /** A text without ':' is tagged "latest". */
  lemma TagReferenceLatest(repository: string)
    requires repository != [] && ':' !in repository
    ensures TagReference(repository) == Some(repository + ":latest")
  {
    SplitJoin([repository], ':');
    assert Join([repository], ":") == repository;
    assert repository + ":" + "latest" == repository + ":latest";
  }

  /** A text with more than one ':' loses everything from the second ':'
      on: "registry:5000/app:v1" tags "registry:5000/app". */
  lemma TagReferenceDropsRest(repository: string, tag: string, rest: string)
    requires ':' !in repository && ':' !in tag
    ensures TagReference(repository + ":" + tag + ":" + rest) == Some(repository + ":" + tag)
  {
    var s := repository + ":" + tag + ":" + rest;
    assert s == repository + [':'] + (tag + [':'] + rest);
    SplitAtFirst(repository, ':', tag + [':'] + rest);
    SplitAtFirst(tag, ':', rest);
  }

  /** Tagging with the reference a pull used names the same image, with
      "latest" standing for no tag. */
  lemma PullThenTag(imageName: string, tag: string)
    requires imageName != [] && ':' !in imageName && ':' !in tag
    ensures TagReference(PullReference(imageName, tag)) ==
      Some(imageName + ":" + (if tag == [] then "latest" else tag))
  {
    if tag == [] {
      TagReferenceLatest(imageName);
    } else {
      TagReferenceKeeps(imageName, tag);
    }
  }
}
