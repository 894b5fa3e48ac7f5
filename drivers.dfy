/** The driver tab's data logic: the lsmod line parsers of
    the hardware scanner, the lsmod scan loops, the lists the scanner fills,
    the size formatting, the driver-package choice and the table search. */
module Drivers {
  import opened Text
  import opened Json

  // ---------------------------------------------------------------------
  // formatSize

  /** Powers of 1024: the byte size of each unit. */
  function Pow1024(k: nat): nat {
    if k == 0 then 1 else 1024 * Pow1024(k - 1)
  }

  const Units: seq<string> := ["B", "KB", "MB", "GB"]

  /** formatSize: bytes, kilobytes, megabytes or gigabytes, by integer
      division, with the thresholds 1024, 1024^2 and 1024^3. */
  function FormatSize(bytes: int): string {
    if bytes < 1024 then IntToString(bytes) + " B"
    else if bytes < 1024 * 1024 then IntToString(bytes / 1024) + " KB"
    else if bytes < 1024 * 1024 * 1024 then IntToString(bytes / (1024 * 1024)) + " MB"
    else IntToString(bytes / (1024 * 1024 * 1024)) + " GB"
  }

  /** The unit a size is shown in: the largest one, up to gigabytes, whose
      size does not exceed it (bytes below 1024). */
  function UnitIndex(bytes: int, k: nat): (r: nat)
    requires k <= 3
    ensures k <= r <= 3
    decreases 3 - k
  {
    if k == 3 || bytes < Pow1024(k + 1) then k else UnitIndex(bytes, k + 1)
  }

  /** A non-negative size is shown as the whole number q of its unit, with
      q units <= size < q + 1 units; q is below 1024 unless the unit is GB,
      and at least 1 unless the unit is B. The number reads back as q. */
  lemma FormatSizeSpec(bytes: nat)
    ensures var k := UnitIndex(bytes, 0);
      var q := bytes / Pow1024(k);
      && FormatSize(bytes) == NatToString(q) + " " + Units[k]
      && ParseDigits(NatToString(q)) == q
      && q * Pow1024(k) <= bytes < (q + 1) * Pow1024(k)
      && (k < 3 ==> q < 1024)
      && (k > 0 ==> q >= 1)
  {
    var k := UnitIndex(bytes, 0);
    var d := Pow1024(k);
    var q := bytes / d;
    SizeUnit(bytes);
    FormatSizeText(bytes, k, d);
    ParseNatToString(q);
    DivBounds(bytes, d);
  }

  /** The unit chosen for a size, with its byte count. */
  lemma SizeUnit(bytes: nat)
    ensures var k := UnitIndex(bytes, 0);
      && (k == 0 <==> bytes < 1024)
      && (k == 1 <==> 1024 <= bytes < 1024 * 1024)
      && (k == 2 <==> 1024 * 1024 <= bytes < 1024 * 1024 * 1024)
      && (k == 3 <==> 1024 * 1024 * 1024 <= bytes)
      && Pow1024(k) == [1, 1024, 1024 * 1024, 1024 * 1024 * 1024][k]
      && (k > 0 ==> bytes >= Pow1024(k))
      && (k < 3 ==> bytes < 1024 * Pow1024(k))
  {
    assert Pow1024(1) == 1024;
    assert Pow1024(2) == 1024 * 1024;
    assert Pow1024(3) == 1024 * 1024 * 1024;
  }

  /** The text of a non-negative size in its unit. */
  lemma FormatSizeText(bytes: nat, k: nat, d: nat)
    requires k == UnitIndex(bytes, 0) && d == Pow1024(k)
    requires (k == 0 <==> bytes < 1024) && (k == 1 <==> 1024 <= bytes < 1024 * 1024)
    requires (k == 2 <==> 1024 * 1024 <= bytes < 1024 * 1024 * 1024)
    requires d == [1, 1024, 1024 * 1024, 1024 * 1024 * 1024][k]
    ensures FormatSize(bytes) == NatToString(bytes / d) + " " + Units[k]
  {
    var unit := Units[k];
    assert unit == ["B", "KB", "MB", "GB"][k];
    SizeInUnit(bytes, d, unit);
  }

  lemma SizeInUnit(bytes: nat, d: nat, unit: string)
    requires bytes < 1024 ==> d == 1 && unit == "B"
    requires 1024 <= bytes < 1024 * 1024 ==> d == 1024 && unit == "KB"
    requires 1024 * 1024 <= bytes < 1024 * 1024 * 1024 ==> d == 1024 * 1024 && unit == "MB"
    requires 1024 * 1024 * 1024 <= bytes ==> d == 1024 * 1024 * 1024 && unit == "GB"
    ensures FormatSize(bytes) == NatToString(bytes / d) + " " + unit
  {
    assert IntToString(bytes / d) == NatToString(bytes / d);
    assert " " + unit == [' '] + unit;
  }

  lemma DivBounds(b: nat, d: nat)
    requires d > 0
    ensures (b / d) * d <= b < (b / d + 1) * d
    ensures b >= d ==> b / d >= 1
    ensures b < 1024 * d ==> b / d < 1024
  {
  }

  /** A negative size (not a real size) stays in bytes with its sign. */
  lemma FormatSizeNegative(bytes: int)
    requires bytes < 0
    ensures FormatSize(bytes) == "-" + NatToString(-bytes) + " B"
  {
  }

  // ---------------------------------------------------------------------
  // lsmod lines

  /** parseLsmodOutput: a module record from the white-space separated
      fields of one lsmod line, or an empty object with fewer than three. */
  function ParseLsmodOutput(line: string): Object {
    var parts := SplitWs(line);
    if |parts| >= 3 then
      map["name" := Str(parts[0]), "size" := Str(parts[1]), "used_count" := Str(parts[2]),
          "status" := Str("loaded"), "type" := Str("kernel_module")]
      + (if |parts| > 3 then map["used_by" := Str(parts[3])] else map[])
    else map[]
  }

  /** parseDriverInfo: the same fields, the third stored as "used_by". */
  function ParseDriverInfo(line: string): Object {
    var parts := SplitWs(line);
    if |parts| >= 3 then
      map["name" := Str(parts[0]), "size" := Str(parts[1]), "used_by" := Str(parts[2]),
          "status" := Str("loaded"), "type" := Str("kernel_driver")]
    else map[]
  }

  /** An lsmod line of single-space separated words parses back into its
      words: name, size and use count, and the user list only when a fourth
      word is present; fewer than three words give an empty object. */
  lemma LsmodOfWords(words: seq<string>)
    requires |words| >= 1
    requires forall k :: 0 <= k < |words| ==> IsWord(words[k])
    ensures var r := ParseLsmodOutput(Join(words, " "));
      && (|words| < 3 ==> r == map[])
      && (|words| >= 3 ==>
            && GetString(r, "name") == words[0]
            && GetString(r, "size") == words[1]
            && GetString(r, "used_count") == words[2]
            && GetString(r, "status") == "loaded"
            && GetString(r, "type") == "kernel_module"
            && ("used_by" in r <==> |words| > 3)
            && (|words| > 3 ==> GetString(r, "used_by") == words[3]))
  {
    FieldsOfWords(words);
    LsmodOfParts(Join(words, " "), words);
  }

  lemma LsmodOfParts(line: string, parts: seq<string>)
    requires SplitWs(line) == parts
    ensures var r := ParseLsmodOutput(line);
      && (|parts| < 3 ==> r == map[])
      && (|parts| >= 3 ==>
            && GetString(r, "name") == parts[0]
            && GetString(r, "size") == parts[1]
            && GetString(r, "used_count") == parts[2]
            && GetString(r, "status") == "loaded"
            && GetString(r, "type") == "kernel_module"
            && ("used_by" in r <==> |parts| > 3)
            && (|parts| > 3 ==> GetString(r, "used_by") == parts[3]))
  {
  }

  /** The same for parseDriverInfo, whose "used_by" is the third word. */
  lemma DriverInfoOfWords(words: seq<string>)
    requires |words| >= 1
    requires forall k :: 0 <= k < |words| ==> IsWord(words[k])
    ensures var r := ParseDriverInfo(Join(words, " "));
      && (|words| < 3 ==> r == map[])
      && (|words| >= 3 ==>
            && GetString(r, "name") == words[0]
            && GetString(r, "size") == words[1]
            && GetString(r, "used_by") == words[2]
            && GetString(r, "type") == "kernel_driver")
  {
    FieldsOfWords(words);
    DriverInfoOfParts(Join(words, " "), words);
  }

  lemma DriverInfoOfParts(line: string, parts: seq<string>)
    requires SplitWs(line) == parts
    ensures var r := ParseDriverInfo(line);
      && (|parts| < 3 ==> r == map[])
      && (|parts| >= 3 ==>
            && GetString(r, "name") == parts[0]
            && GetString(r, "size") == parts[1]
            && GetString(r, "used_by") == parts[2]
            && GetString(r, "type") == "kernel_driver")
  {
  }

  // ---------------------------------------------------------------------
  // lsmod scans

  /** The objects a scan emits for its lines: each line `keep` accepts is
      parsed, and the object is emitted when it is not empty. */
  function Found(lines: seq<string>, keep: string -> bool, parse: string -> Object): seq<Object> {
    if lines == [] then []
    else
      var line := lines[|lines| - 1];
      Found(lines[..|lines| - 1], keep, parse)
      + (if keep(line) && parse(line) != map[] then [parse(line)] else [])
  }

  /** An object is emitted exactly when some accepted line parses to it and
      it is not empty. */
  lemma {:induction false} FoundMembers(lines: seq<string>, keep: string -> bool, parse: string -> Object, o: Object)
    ensures o in Found(lines, keep, parse)
        <==> o != map[] && exists i :: 0 <= i < |lines| && keep(lines[i]) && parse(lines[i]) == o
    decreases |lines|
  {
    if lines != [] {
      var init := lines[..|lines| - 1];
      FoundMembers(init, keep, parse, o);
      if o in Found(init, keep, parse) {
        var i :| 0 <= i < |init| && keep(init[i]) && parse(init[i]) == o;
        assert lines[i] == init[i];
      }
      if o != map[] && exists i :: 0 <= i < |lines| && keep(lines[i]) && parse(lines[i]) == o {
        var i :| 0 <= i < |lines| && keep(lines[i]) && parse(lines[i]) == o;
        if i < |init| {
          assert init[i] == lines[i];
        }
      }
    }
  }

  lemma FoundSnoc(lines: seq<string>, i: nat, keep: string -> bool, parse: string -> Object)
    requires 1 <= i < |lines|
    ensures Found(lines[1..i + 1], keep, parse)
         == Found(lines[1..i], keep, parse)
            + (if keep(lines[i]) && parse(lines[i]) != map[] then [parse(lines[i])] else [])
  {
    assert lines[1..i + 1][..i - 1] == lines[1..i];
  }

  predicate NonEmptyLine(line: string) {
    line != []
  }

  datatype ScanOutcome = ScanFailed(message: string) | Scanned(found: seq<Object>)

  /** scanLoadedModules: on failure an error, otherwise the module records
      of the non-empty lines after the header line, in order. */
  method ScanLoadedModules(exitCode: int, output: string) returns (outcome: ScanOutcome)
    ensures exitCode != 0 ==> outcome == ScanFailed("Failed to run lsmod")
    ensures exitCode == 0 ==> outcome == Scanned(Found(Lines(output)[1..], NonEmptyLine, ParseLsmodOutput))
  {
    if exitCode != 0 {
      return ScanFailed("Failed to run lsmod");
    }
    var lines := Lines(output);
    var found: seq<Object> := [];
    var i := 1;
    while i < |lines|
      invariant 1 <= i <= |lines|
      invariant found == Found(lines[1..i], NonEmptyLine, ParseLsmodOutput)
    {
      FoundSnoc(lines, i, NonEmptyLine, ParseLsmodOutput);
      var line := lines[i];
      if line != [] {
        var moduleInfo := ParseLsmodOutput(line);
        if moduleInfo != map[] {
          found := found + [moduleInfo];
        }
      }
      i := i + 1;
    }
    assert lines[1..i] == lines[1..];
    return Scanned(found);
  }

  /** scanDrivers: the same loop with parseDriverInfo; a failed
      lsmod emits nothing. */
  method ScanDrivers(exitCode: int, output: string) returns (found: seq<Object>)
    ensures exitCode != 0 ==> found == []
    ensures exitCode == 0 ==> found == Found(Lines(output)[1..], NonEmptyLine, ParseDriverInfo)
  {
    found := [];
    if exitCode != 0 {
      return;
    }
    var lines := Lines(output);
    var i := 1;
    while i < |lines|
      invariant 1 <= i <= |lines|
      invariant found == Found(lines[1..i], NonEmptyLine, ParseDriverInfo)
    {
      FoundSnoc(lines, i, NonEmptyLine, ParseDriverInfo);
      var line := lines[i];
      if line != [] {
        var driverInfo := ParseDriverInfo(line);
        if driverInfo != map[] {
          found := found + [driverInfo];
        }
      }
      i := i + 1;
    }
    assert lines[1..i] == lines[1..];
  }

  /** The header line never contributes: the scan of a header followed by a
      body is the scan of the body's own lines. */
  lemma HeaderIgnored(header: string, body: string, parse: string -> Object)
    requires '\n' !in header
    ensures Found(Lines(header + "\n" + body)[1..], NonEmptyLine, parse) == Found(Lines(body), NonEmptyLine, parse)
  {
    SplitAtFirst(header, '\n', body);
    assert ([header] + Lines(body))[1..] == Lines(body);
  }

  /** Every module the scan emits is a loaded kernel module with a name. */
  lemma ScannedModulesLoaded(output: string, o: Object)
    requires o in Found(Lines(output)[1..], NonEmptyLine, ParseLsmodOutput)
    ensures GetString(o, "status") == "loaded" && GetString(o, "type") == "kernel_module" && "name" in o
  {
    FoundMembers(Lines(output)[1..], NonEmptyLine, ParseLsmodOutput, o);
  }

  // ---------------------------------------------------------------------
  // The lists the scanner fills

  /** The hardware, driver and module lists of the driver tab. */
  class DriverManager {
    /** m_hardware */
    var hardware: seq<Object>
    /** m_drivers */
    var drivers: seq<Object>
    /** m_modules */
    var modules: seq<Object>

    constructor ()
      ensures hardware == [] && drivers == [] && modules == []
    {
      hardware := [];
      drivers := [];
      modules := [];
    }

    /** onHardwareFound */
    method OnHardwareFound(hardwareInfo: Object)
      modifies this`hardware
      ensures hardware == old(hardware) + [hardwareInfo]
    {
      hardware := hardware + [hardwareInfo];
    }

    /** onDriverFound */
    method OnDriverFound(driverInfo: Object)
      modifies this`drivers
      ensures drivers == old(drivers) + [driverInfo]
    {
      drivers := drivers + [driverInfo];
    }

    /** onModuleFound */
    method OnModuleFound(moduleInfo: Object)
      modifies this`modules
      ensures modules == old(modules) + [moduleInfo]
    {
      modules := modules + [moduleInfo];
    }

    /** One moduleFound signal per emitted record, in emission order. */
    method ReceiveModules(found: seq<Object>)
      modifies this`modules
      ensures modules == old(modules) + found
    {
      var i := 0;
      while i < |found|
        invariant 0 <= i <= |found|
        invariant modules == old(modules) + found[..i]
      {
        OnModuleFound(found[i]);
        assert found[..i + 1] == found[..i] + [found[i]];
        i := i + 1;
      }
      assert found[..i] == found;
    }
  }

  // ---------------------------------------------------------------------
  // installDriver

  /** Which of the keywords of installDriver's rules a device name
      mentions. */
  datatype Mentions = Mentions(nvidia: bool, amd: bool, ati: bool, intel: bool, wireless: bool, wifi: bool, bluetooth: bool)

  /** The rule chain: the package of the first rule whose keyword is
      mentioned, generic hardware support when none is. */
  function PackageFor(m: Mentions): string {
    if m.nvidia then "akmod-nvidia"
    else if m.amd || m.ati then "mesa-dri-drivers"
    else if m.intel then "mesa-dri-drivers"
    else if m.wireless || m.wifi then "NetworkManager-wifi"
    else if m.bluetooth then "bluez"
    else "@hardware-support"
  }

  /** Each package is chosen exactly when its rule is the first that
      applies, and no package name contains a space. */
  lemma PackageForSpec(m: Mentions)
    ensures var p := PackageFor(m);
      && (p == "akmod-nvidia" <==> m.nvidia)
      && (p == "mesa-dri-drivers" <==> !m.nvidia && (m.amd || m.ati || m.intel))
      && (p == "NetworkManager-wifi" <==> !m.nvidia && !m.amd && !m.ati && !m.intel && (m.wireless || m.wifi))
      && (p == "bluez" <==> !m.nvidia && !m.amd && !m.ati && !m.intel && !m.wireless && !m.wifi && m.bluetooth)
      && (p == "@hardware-support" <==> !m.nvidia && !m.amd && !m.ati && !m.intel && !m.wireless && !m.wifi && !m.bluetooth)
      && ' ' !in p
  {
  }

  /** The mentions as installDriver tests them: case-insensitive substring
      matches. */
  function MentionsOf(deviceName: string): Mentions {
    Mentions(ContainsCI(deviceName, "NVIDIA"), ContainsCI(deviceName, "AMD"), ContainsCI(deviceName, "ATI"),
             ContainsCI(deviceName, "Intel"), ContainsCI(deviceName, "Wireless"), ContainsCI(deviceName, "Wi-Fi"),
             ContainsCI(deviceName, "Bluetooth"))
  }

  /** installDriver's package choice. */
  function DriverPackageFor(deviceName: string): string {
    PackageFor(MentionsOf(deviceName))
  }

  /** As written, "ATI" also matches inside a word ("Communications",
      "Corporation"), so any such name without NVIDIA in it gets the Mesa
      package, whatever else it names. */
  lemma AtiInsideWord(a: string, b: string)
    requires a != [] && IsLetter(a[|a| - 1])
    requires !ContainsCI(a + "ati" + b, "NVIDIA")
    ensures DriverPackageFor(a + "ati" + b) == "mesa-dri-drivers"
  {
    var s := a + "ati" + b;
    assert Lower("ATI") == "ati";
    LowerAppend(a, "ati" + b);
    LowerAppend("ati", b);
    assert Lower(s)[|a|..|a| + 3] == "ati";
    ContainsWitness(Lower(s), "ati", |a|);
  }

  predicate IsLetter(c: char) {
    'a' <= c <= 'z' || 'A' <= c <= 'Z'
  }

  /** `w` occurs in `s` at `i` with no letter on either side. */
  predicate WordAt(s: string, w: string, i: int) {
    && OccursAt(s, w, i)
    && (i == 0 || !IsLetter(s[i - 1]))
    && (i + |w| == |s| || !IsLetter(s[i + |w|]))
  }

  /** `w` occurs in `s` as a whole word, in any letter case. */
  predicate ContainsWordCI(s: string, w: string) {
    exists i :: 0 <= i <= |s| && WordAt(Lower(s), Lower(w), i)
  }

  /** The mentions with ATI matched as a whole word. */
  function CorrectedMentionsOf(deviceName: string): Mentions {
    MentionsOf(deviceName).(ati := ContainsWordCI(deviceName, "ATI"))
  }

  /** The package choice with the ATI rule matching the vendor name as a
      whole word. */
  function CorrectedDriverPackageFor(deviceName: string): string {
    PackageFor(CorrectedMentionsOf(deviceName))
  }

  /** The corrected choice differs from the written one only for names where
      "ati" occurs, none of them as a whole word: with no such occurrence, or
      with one as a whole word, both choose the same package. */
  lemma CorrectedAgrees(deviceName: string)
    requires ContainsCI(deviceName, "ATI") ==> ContainsWordCI(deviceName, "ATI")
    ensures CorrectedDriverPackageFor(deviceName) == DriverPackageFor(deviceName)
  {
    if ContainsWordCI(deviceName, "ATI") {
      var i :| 0 <= i <= |deviceName| && WordAt(Lower(deviceName), Lower("ATI"), i);
      ContainsWitness(Lower(deviceName), Lower("ATI"), i);
    }
    assert CorrectedMentionsOf(deviceName) == MentionsOf(deviceName);
  }

  /** With the correction, an "ati" inside a word no longer decides: a name
      whose only keyword is Bluetooth gets bluez. */
  lemma CorrectedBluetooth(deviceName: string)
    requires ContainsCI(deviceName, "Bluetooth")
    requires !ContainsCI(deviceName, "NVIDIA") && !ContainsCI(deviceName, "AMD") && !ContainsCI(deviceName, "Intel")
    requires !ContainsCI(deviceName, "Wireless") && !ContainsCI(deviceName, "Wi-Fi")
    requires !ContainsWordCI(deviceName, "ATI")
    ensures CorrectedDriverPackageFor(deviceName) == "bluez"
  {
  }

  /** The choice ignores letter case. */
  lemma DriverPackageIgnoresCase(deviceName: string)
    ensures DriverPackageFor(Lower(deviceName)) == DriverPackageFor(deviceName)
  {
    LowerIdempotent(deviceName);
    assert MentionsOf(Lower(deviceName)) == MentionsOf(deviceName);
  }

  /** So does the corrected choice. */
  lemma CorrectedIgnoresCase(deviceName: string)
    ensures CorrectedDriverPackageFor(Lower(deviceName)) == CorrectedDriverPackageFor(deviceName)
  {
    LowerIdempotent(deviceName);
    assert CorrectedMentionsOf(Lower(deviceName)) == CorrectedMentionsOf(deviceName);
  }

  /** installDriver: nothing without a selected row naming a device or
      without an executor; otherwise `sh -c "dnf install -y <package>"`. */
  function InstallDriverCommand(currentRow: int, nameItem: Option<string>, hasExecutor: bool): Option<(string, seq<string>)> {
    if currentRow < 0 || nameItem.None? || !hasExecutor then None
    else Some(("sh", ["-c", "dnf install -y " + DriverPackageFor(nameItem.value)]))
  }

  /** The shell line installs exactly the chosen package: split at spaces
      it is `dnf install -y <package>`. */
  lemma InstallDriverCommandSpec(currentRow: int, nameItem: Option<string>, hasExecutor: bool)
    ensures var c := InstallDriverCommand(currentRow, nameItem, hasExecutor);
      && (c.Some? <==> currentRow >= 0 && nameItem.Some? && hasExecutor)
      && (c.Some? ==> c.value.0 == "sh" && |c.value.1| == 2 && c.value.1[0] == "-c"
                      && Split(c.value.1[1], " ") == ["dnf", "install", "-y", DriverPackageFor(nameItem.value)])
  {
    if currentRow >= 0 && nameItem.Some? && hasExecutor {
      var pkg := DriverPackageFor(nameItem.value);
      PackageForSpec(MentionsOf(nameItem.value));
      DnfInstallLine(pkg);
    }
  }

  lemma DnfInstallLine(pkg: string)
    requires ' ' !in pkg
    ensures Split("dnf install -y " + pkg, " ") == ["dnf", "install", "-y", pkg]
  {
    var parts := ["dnf", "install", "-y", pkg];
    JoinCons("-y", [pkg], " ");
    JoinCons("install", ["-y", pkg], " ");
    JoinCons("dnf", ["install", "-y", pkg], " ");
    assert ["dnf"] + ["install", "-y", pkg] == parts;
    assert Join(parts, " ") == "dnf install -y " + pkg;
    SplitJoin(parts, ' ');
  }

  // ---------------------------------------------------------------------
  // searchHardware

  /** A table row: its cells, `None` where a cell has no item. */
  type Row = seq<Option<string>>

  /** Some cell's lower-cased text contains the (lower-cased) term. */
  predicate RowMatches(row: Row, searchTerm: string) {
    exists j :: 0 <= j < |row| && row[j].Some? && Contains(Lower(row[j].value), searchTerm)
  }

  /** The row-visibility loop: visible when the term is empty, otherwise as
      soon as one cell matches. */
  method RowVisible(row: Row, searchTerm: string) returns (visible: bool)
    ensures visible <==> searchTerm == [] || RowMatches(row, searchTerm)
  {
    visible := searchTerm == [];
    if !visible {
      var j := 0;
      while j < |row|
        invariant 0 <= j <= |row|
        invariant forall k :: 0 <= k < j ==> !(row[k].Some? && Contains(Lower(row[k].value), searchTerm))
      {
        if row[j].Some? && Contains(Lower(row[j].value), searchTerm) {
          visible := true;
          break;
        }
        j := j + 1;
      }
    }
  }

  /** One table: the hidden flag of each row. */
  method SearchTable(rows: seq<Row>, searchTerm: string) returns (hidden: seq<bool>)
    ensures |hidden| == |rows|
    ensures forall i :: 0 <= i < |rows| ==> (hidden[i] <==> searchTerm != [] && !RowMatches(rows[i], searchTerm))
  {
    hidden := [];
    var i := 0;
    while i < |rows|
      invariant 0 <= i <= |rows|
      invariant |hidden| == i
      invariant forall k :: 0 <= k < i ==> (hidden[k] <==> searchTerm != [] && !RowMatches(rows[k], searchTerm))
    {
      var visible := RowVisible(rows[i], searchTerm);
      hidden := hidden + [!visible];
      i := i + 1;
    }
  }

  /** The four tables and their filter names. */
  datatype Tables = Tables(hardware: seq<Row>, drivers: seq<Row>, modules: seq<Row>, firmware: seq<Row>)

  predicate Searched(filter: string, table: string) {
    filter == "All" || filter == table
  }

  /** searchHardware: the term is lower-cased once; each table the filter
      names (or all, for "All") gets new hidden flags, the others none. */
  method SearchHardware(searchText: string, filter: string, tables: Tables)
    returns (hardware: Option<seq<bool>>, drivers: Option<seq<bool>>, modules: Option<seq<bool>>, firmware: Option<seq<bool>>)
    ensures hardware.Some? <==> Searched(filter, "Hardware")
    ensures drivers.Some? <==> Searched(filter, "Drivers")
    ensures modules.Some? <==> Searched(filter, "Modules")
    ensures firmware.Some? <==> Searched(filter, "Firmware")
    ensures hardware.Some? ==> (|hardware.value| == |tables.hardware|
      && forall i :: 0 <= i < |tables.hardware| ==> (hardware.value[i] <==> !RowShown(tables.hardware[i], searchText)))
    ensures drivers.Some? ==> (|drivers.value| == |tables.drivers|
      && forall i :: 0 <= i < |tables.drivers| ==> (drivers.value[i] <==> !RowShown(tables.drivers[i], searchText)))
    ensures modules.Some? ==> (|modules.value| == |tables.modules|
      && forall i :: 0 <= i < |tables.modules| ==> (modules.value[i] <==> !RowShown(tables.modules[i], searchText)))
    ensures firmware.Some? ==> (|firmware.value| == |tables.firmware|
      && forall i :: 0 <= i < |tables.firmware| ==> (firmware.value[i] <==> !RowShown(tables.firmware[i], searchText)))
  {
    var searchTerm := Lower(searchText);
    hardware, drivers, modules, firmware := None, None, None, None;
    if Searched(filter, "Hardware") {
      var h := SearchTable(tables.hardware, searchTerm);
      hardware := Some(h);
    }
    if Searched(filter, "Drivers") {
      var h := SearchTable(tables.drivers, searchTerm);
      drivers := Some(h);
    }
    if Searched(filter, "Modules") {
      var h := SearchTable(tables.modules, searchTerm);
      modules := Some(h);
    }
    if Searched(filter, "Firmware") {
      var h := SearchTable(tables.firmware, searchTerm);
      firmware := Some(h);
    }
  }

  /** A row is shown for a search text when the text is empty or some cell
      contains it, ignoring letter case. */
  predicate RowShown(row: Row, searchText: string) {
    Lower(searchText) == [] || RowMatches(row, Lower(searchText))
  }

  /** Narrowing the search never shows more rows: a row shown for a text is
      shown for every prefix of it. */
  lemma RowShownPrefix(row: Row, t: string, u: string)
    requires RowShown(row, t + u)
    ensures RowShown(row, t)
  {
    LowerAppend(t, u);
    if Lower(t) != [] {
      var j :| 0 <= j < |row| && row[j].Some? && Contains(Lower(row[j].value), Lower(t + u));
      var x := Lower(row[j].value);
      var i :| 0 <= i <= |x| && OccursAt(x, Lower(t) + Lower(u), i);
      assert x[i..i + |Lower(t)|] == (Lower(t) + Lower(u))[..|Lower(t)|];
      ContainsWitness(x, Lower(t), i);
    }
  }
}
