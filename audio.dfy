/** The audio tab (src/audiomanager.cpp): the device-info parsers of the
    scanning worker for `pw-cli`, `pactl` and `aplay -l` output, the
    device rows read from `pactl list sinks`, the choice of audio system,
    and the scanning guard of the device table. */
module Audio {
  import opened Text
  import opened Json

  // ---------------------------------------------------------------------
  // Last match wins

  /** What the last line with something to extract yields; None when no
      line yields anything. */
  function LastFound<T>(lines: seq<string>, extract: string -> Option<T>): Option<T>
    decreases |lines|
  {
    if lines == [] then None
    else match extract(lines[|lines| - 1])
      case Some(v) => Some(v)
      case None => LastFound(lines[..|lines| - 1], extract)
  }

  /** LastFound gives v exactly when some line yields v and no later line
      yields anything, and None exactly when no line yields anything. */
  lemma {:induction false} LastFoundSpec<T>(lines: seq<string>, extract: string -> Option<T>, v: T)
    ensures LastFound(lines, extract) == Some(v) <==>
      exists i :: 0 <= i < |lines| && extract(lines[i]) == Some(v) &&
        forall j :: i < j < |lines| ==> extract(lines[j]).None?
    ensures LastFound(lines, extract).None? <==>
      forall i :: 0 <= i < |lines| ==> extract(lines[i]).None?
    decreases |lines|
  {
    if lines != [] {
      var n := |lines| - 1;
      var init := lines[..n];
      LastFoundSpec(init, extract, v);
      assert forall i :: 0 <= i < n ==> init[i] == lines[i];
      if extract(lines[n]).None? {
        if exists i :: 0 <= i < |lines| && extract(lines[i]) == Some(v) &&
             forall j :: i < j < |lines| ==> extract(lines[j]).None? {
          var i :| 0 <= i < |lines| && extract(lines[i]) == Some(v) &&
            forall j :: i < j < |lines| ==> extract(lines[j]).None?;
          assert i < n && extract(init[i]) == Some(v);
        }
      }
    }
  }

  /** One more line: it wins if it yields something. */
  lemma LastFoundStep<T>(lines: seq<string>, i: nat, extract: string -> Option<T>)
    requires i < |lines|
    ensures LastFound(lines[..i + 1], extract) ==
      if extract(lines[i]).Some? then extract(lines[i]) else LastFound(lines[..i], extract)
  {
    assert lines[..i + 1][..i] == lines[..i];
  }

  // ---------------------------------------------------------------------
  // Regular-expression pieces

  /** The end of the longest run of characters satisfying `keep` from i:
      a greedy `[...]*` at i. */
  function SpanEnd(s: string, i: nat, keep: char -> bool): (j: nat)
    requires i <= |s|
    ensures i <= j <= |s|
    decreases |s| - i
  {
    if i < |s| && keep(s[i]) then SpanEnd(s, i + 1, keep) else i
  }

  /** A run ends at the first character outside it. */
  lemma {:induction false} SpanEndIs(s: string, i: nat, j: nat, keep: char -> bool)
    requires i <= j <= |s|
    requires forall k :: i <= k < j ==> keep(s[k])
    requires j < |s| ==> !keep(s[j])
    ensures SpanEnd(s, i, keep) == j
    decreases j - i
  {
    if i < j {
      SpanEndIs(s, i + 1, j, keep);
    }
  }

  /** A run over the text w placed at i. */
  lemma SpanOver(s: string, i: nat, w: string, keep: char -> bool, j: nat)
    requires j == i + |w| <= |s| && s[i..j] == w
    requires forall k :: 0 <= k < |w| ==> keep(w[k])
    requires j < |s| ==> !keep(s[j])
    ensures SpanEnd(s, i, keep) == j
  {
    forall k | i <= k < j ensures keep(s[k]) {
      assert s[k] == w[k - i];
    }
    SpanEndIs(s, i, j, keep);
  }

  /** QRegularExpression::match: the match at the leftmost position, from p
      on, where the pattern matches. */
  function SearchFrom<T>(line: string, p: nat, at: (string, nat) -> Option<T>): (r: Option<T>)
    ensures r.Some? ==> exists q :: p <= q <= |line| && at(line, q) == r
    decreases |line| + 1 - p
  {
    if p > |line| then None
    else match at(line, p)
      case Some(m) => Some(m)
      case None => SearchFrom(line, p + 1, at)
  }

  /** The search stops at the first position where the pattern matches. */
  lemma {:induction false} SearchFinds<T>(line: string, p: nat, k: nat, at: (string, nat) -> Option<T>)
    requires p <= k <= |line| && at(line, k).Some?
    requires forall q :: p <= q < k ==> at(line, q).None?
    ensures SearchFrom(line, p, at) == at(line, k)
    decreases k - p
  {
    if p < k {
      SearchFinds(line, p + 1, k, at);
    }
  }

  predicate NotQuote(c: char) {
    c != '"'
  }

  predicate NotComma(c: char) {
    c != ','
  }

  // ---------------------------------------------------------------------
  // pw-cli

  /** `name:\s*"([^"]+)"` tried at position p: the quoted name. */
  function PipeWireNameAt(line: string, p: nat): Option<string> {
    if !OccursAt(line, "name:", p) then None
    else
      var q := SpanEnd(line, p + 5, IsRegexSpace);
      if q < |line| && line[q] == '"' then
        var e := SpanEnd(line, q + 1, NotQuote);
        if q + 1 < e < |line| then Some(line[q + 1..e]) else None
      else None
  }

  /** A line that mentions "Node" and "name" and whose pattern matches
      names a PipeWire node. */
  function PipeWireEntry(line: string): Option<string> {
    if Contains(line, "Node") && Contains(line, "name") then SearchFrom(line, 0, PipeWireNameAt)
    else None
  }

  function PipeWireDevice(name: string): Object {
    map["name" := Str(name), "type" := Str("PipeWire"), "system" := Str("pipewire"),
        "status" := Str("available")]
  }

  const DeviceKeys: set<string> := {"name", "type", "system", "status"}

  /** Setting the four fields one by one on an object with no other keys
      gives the device object. */
  lemma SetPipeWireFields(prior: Object, name: string)
    requires prior.Keys <= DeviceKeys
    ensures prior["name" := Str(name)]["type" := Str("PipeWire")]
      ["system" := Str("pipewire")]["status" := Str("available")] == PipeWireDevice(name)
    ensures PipeWireDevice(name).Keys == DeviceKeys
  {
  }

  /** The device `pw-cli list-objects` output describes: the fields of the
      last node line with a quoted name, or an empty object. */
  method ParsePipeWireInfo(output: string) returns (device: Object)
    ensures device == match LastFound(SplitSkipEmpty(output, "\n"), PipeWireEntry)
      case None => map[]
      case Some(name) => PipeWireDevice(name)
  {
    device := map[];
    var lines := SplitSkipEmpty(output, "\n");
    var i := 0;
    while i < |lines|
      invariant 0 <= i <= |lines|
      invariant device == match LastFound(lines[..i], PipeWireEntry)
        case None => map[]
        case Some(name) => PipeWireDevice(name)
      invariant device.Keys <= DeviceKeys
    {
      var line := lines[i];
      LastFoundStep(lines, i, PipeWireEntry);
      if Contains(line, "Node") && Contains(line, "name") {
        var found := SearchFrom(line, 0, PipeWireNameAt);
        assert found == PipeWireEntry(line);
        if found.Some? {
          SetPipeWireFields(device, found.value);
          device := device["name" := Str(found.value)]["type" := Str("PipeWire")]
            ["system" := Str("pipewire")]["status" := Str("available")];
          assert device == PipeWireDevice(found.value);
        }
      }
      i := i + 1;
    }
    assert lines[..i] == lines;
  }

  /** The pattern matches at p when the line has the name's shape there. */
  lemma PipeWireNameAtIs(line: string, p: nat, ws: string, name: string, q: nat, e: nat)
    requires q == p + 5 + |ws| && e == q + 1 + |name| && e < |line|
    requires OccursAt(line, "name:", p) && line[p + 5..q] == ws && line[q] == '"'
    requires line[q + 1..e] == name && line[e] == '"'
    requires forall k :: 0 <= k < |ws| ==> IsRegexSpace(ws[k])
    requires name != [] && '"' !in name
    ensures PipeWireNameAt(line, p) == Some(name)
  {
    SpanOver(line, p + 5, ws, IsRegexSpace, q);
    SpanOver(line, q + 1, name, NotQuote, e);
  }

  /** A node line of the form `... name: "<name>" ...` names <name>, when
      "name:" does not occur earlier on the line. */
  lemma PipeWireLine(line: string, pre: string, ws: string, name: string, post: string)
    requires line == pre + "name:" + ws + "\"" + name + "\"" + post
    requires forall k :: 0 <= k < |ws| ==> IsRegexSpace(ws[k])
    requires name != [] && '"' !in name
    requires Contains(line, "Node")
    requires forall q :: 0 <= q < |pre| ==> !OccursAt(line, "name:", q)
    ensures PipeWireEntry(line) == Some(name)
  {
    var p := |pre|;
    var q := p + 5 + |ws|;
    var e := q + 1 + |name|;
    assert line[p..p + 5] == "name:";
    assert line[p..p + 4] == "name";
    ContainsWitness(line, "name", p);
    assert line[p + 5..q] == ws;
    assert line[q] == '"';
    assert line[q + 1..e] == name;
    assert line[e] == '"';
    PipeWireNameAtIs(line, p, ws, name, q, e);
    SearchFinds(line, 0, p, PipeWireNameAt);
  }

  // ---------------------------------------------------------------------
  // pactl list sinks / sources

  /** A name line: the trimmed second ':'-piece, and whether the line is a
      tab-indented "Name:" line. */
  datatype PulseName = PulseName(name: string, tabbed: bool)

  /** Header lines are skipped; a line containing "Name:" names a device. */
  function PulseEntry(line: string): Option<PulseName> {
    if StartsWith(line, "Sink #") || StartsWith(line, "Source #") then None
    else if Contains(line, "Name:") then
      var parts := Split(line, ":");
      if |parts| > 1 then Some(PulseName(Trim(parts[1]), StartsWith(line, "\tName:"))) else None
    else None
  }

  /** The device object of a name line: an output when the line is
      tab-indented and the listing holds a sink, otherwise an input. */
  function PulseDevice(entry: PulseName, sinks: bool): Object {
    map["name" := Str(entry.name),
        "type" := Str(if entry.tabbed && sinks then "Output" else "Input"),
        "system" := Str("pulseaudio"), "status" := Str("available")]
  }

  /** Setting the four fields one by one on an object with no other keys
      gives the device object. */
  lemma SetPulseFields(prior: Object, entry: PulseName, sinks: bool)
    requires prior.Keys <= DeviceKeys
    ensures prior["name" := Str(entry.name)]
      ["type" := Str(if entry.tabbed && sinks then "Output" else "Input")]
      ["system" := Str("pulseaudio")]["status" := Str("available")] == PulseDevice(entry, sinks)
    ensures PulseDevice(entry, sinks).Keys == DeviceKeys
  {
  }

  /** The device `pactl list sinks|sources` output describes: the fields of
      its last name line, or an empty object when it has none. */
  method ParsePulseAudioInfo(output: string) returns (device: Object)
    ensures device == match LastFound(SplitSkipEmpty(output, "\n"), PulseEntry)
      case None => map[]
      case Some(entry) => PulseDevice(entry, Contains(output, "Sink #"))
  {
    device := map[];
    var lines := SplitSkipEmpty(output, "\n");
    var sinks := Contains(output, "Sink #");
    var i := 0;
    while i < |lines|
      invariant 0 <= i <= |lines|
      invariant device == match LastFound(lines[..i], PulseEntry)
        case None => map[]
        case Some(entry) => PulseDevice(entry, sinks)
      invariant device.Keys <= DeviceKeys
    {
      var line := lines[i];
      LastFoundStep(lines, i, PulseEntry);
      if StartsWith(line, "Sink #") || StartsWith(line, "Source #") {
      } else if Contains(line, "Name:") {
        var parts := Split(line, ":");
        if |parts| > 1 {
          var name := Trim(parts[1]);
          var tabbed := StartsWith(line, "\tName:");
          SetPulseFields(device, PulseName(name, tabbed), sinks);
          device := device["name" := Str(name)]
            ["type" := Str(if tabbed && sinks then "Output" else "Input")]
            ["system" := Str("pulseaudio")]["status" := Str("available")];
          assert device == PulseDevice(PulseName(name, tabbed), sinks);
        }
      }
      i := i + 1;
    }
    assert lines[..i] == lines;
  }

  /** The second ':'-piece of `key:value` followed by nothing or by
      further ':'-pieces is `value`. */
  lemma SecondPiece(line: string, key: string, value: string, tail: string)
    requires line == key + ":" + value + tail
    requires ':' !in key && ':' !in value
    requires tail == [] || tail[0] == ':'
    ensures |Split(line, ":")| > 1 && Split(line, ":")[1] == value
  {
    assert line == key + [':'] + (value + tail);
    SplitAtFirst(key, ':', value + tail);
    if tail == [] {
      assert value + tail == value;
      SplitJoin([value], ':');
      assert Join([value], ":") == value;
    } else {
      assert value + tail == value + [':'] + tail[1..];
      SplitAtFirst(value, ':', tail[1..]);
    }
  }

  /** The name is the trimmed text between the first and the second ':',
      not the text after the last one. */
  lemma PulseNameSecondPiece(line: string, key: string, value: string, tail: string)
    requires line == key + ":" + value + tail
    requires ':' !in key && ':' !in value
    requires tail == [] || tail[0] == ':'
    requires !StartsWith(line, "Sink #") && !StartsWith(line, "Source #")
    requires Contains(line, "Name:")
    ensures PulseEntry(line) == Some(PulseName(Trim(value), StartsWith(line, "\tName:")))
  {
    SecondPiece(line, key, value, tail);
  }

  // ---------------------------------------------------------------------
  // aplay -l / arecord -l

  /** The captures of `card (\d+): ([^,]+), device (\d+): ([^,]+)`. */
  datatype AlsaCard = AlsaCard(card: string, cardName: string, device: string, deviceName: string)

  /** The pattern tried at position p: each `\d+` and `[^,]+` takes the
      longest run, since the character that must follow is outside it. */
  function AlsaCardAt(line: string, p: nat): Option<AlsaCard> {
    if !OccursAt(line, "card ", p) then None else AlsaFromCard(line, p + 5)
  }

  /** `(\d+): ` from i on, then the card name. */
  function AlsaFromCard(line: string, i: nat): Option<AlsaCard>
    requires i <= |line|
  {
    var c := SpanEnd(line, i, IsDigit);
    if c == i || !OccursAt(line, ": ", c) then None
    else AlsaFromName(line, line[i..c], c + 2)
  }

  /** `([^,]+), device ` from i on, then the device number. */
  function AlsaFromName(line: string, card: string, i: nat): Option<AlsaCard>
    requires i <= |line|
  {
    var n := SpanEnd(line, i, NotComma);
    if n == i || !OccursAt(line, ", device ", n) then None
    else AlsaFromDevice(line, card, line[i..n], n + 9)
  }

  /** `(\d+): ` from i on, then the device name. */
  function AlsaFromDevice(line: string, card: string, cardName: string, i: nat): Option<AlsaCard>
    requires i <= |line|
  {
    var d := SpanEnd(line, i, IsDigit);
    if d == i || !OccursAt(line, ": ", d) then None
    else AlsaFromDeviceName(line, card, cardName, line[i..d], d + 2)
  }

  /** `([^,]+)` from i on. */
  function AlsaFromDeviceName(line: string, card: string, cardName: string, device: string, i: nat): Option<AlsaCard>
    requires i <= |line|
  {
    var m := SpanEnd(line, i, NotComma);
    if m == i then None else Some(AlsaCard(card, cardName, device, line[i..m]))
  }

  /** Only lines starting with "card " are tried. */
  function AlsaEntry(line: string): Option<AlsaCard> {
    if StartsWith(line, "card ") then SearchFrom(line, 0, AlsaCardAt) else None
  }

  /** QString::toInt on a captured number: its value when it fits an int,
      0 for a text that is not one. */
  function CapturedInt(s: string): int {
    if IsDigits(s) then ToInt32(s) else 0
  }

  /** The device object of a card line. */
  function AlsaDevice(m: AlsaCard): Object {
    map["name" := Str(m.cardName + " - " + m.deviceName),
        "card" := Int(CapturedInt(m.card)), "device" := Int(CapturedInt(m.device)),
        "type" := Str("ALSA"), "system" := Str("alsa"), "status" := Str("available")]
  }

  const AlsaKeys: set<string> := {"name", "card", "device", "type", "system", "status"}

  /** Setting the six fields one by one on an object with no other keys
      gives the device object. */
  lemma SetAlsaFields(prior: Object, m: AlsaCard)
    requires prior.Keys <= AlsaKeys
    ensures prior["name" := Str(m.cardName + " - " + m.deviceName)]
      ["card" := Int(CapturedInt(m.card))]["device" := Int(CapturedInt(m.device))]
      ["type" := Str("ALSA")]["system" := Str("alsa")]["status" := Str("available")] == AlsaDevice(m)
    ensures AlsaDevice(m).Keys == AlsaKeys
  {
  }

  /** The device `aplay -l` output describes: the fields of its last card
      line, or an empty object when it has none. */
  method ParseAlsaInfo(output: string) returns (device: Object)
    ensures device == match LastFound(SplitSkipEmpty(output, "\n"), AlsaEntry)
      case None => map[]
      case Some(m) => AlsaDevice(m)
  {
    device := map[];
    var lines := SplitSkipEmpty(output, "\n");
    var i := 0;
    while i < |lines|
      invariant 0 <= i <= |lines|
      invariant device == match LastFound(lines[..i], AlsaEntry)
        case None => map[]
        case Some(m) => AlsaDevice(m)
      invariant device.Keys <= AlsaKeys
    {
      var line := lines[i];
      LastFoundStep(lines, i, AlsaEntry);
      if StartsWith(line, "card ") {
        var found := SearchFrom(line, 0, AlsaCardAt);
        assert found == AlsaEntry(line);
        if found.Some? {
          var m := found.value;
          SetAlsaFields(device, m);
          device := device["name" := Str(m.cardName + " - " + m.deviceName)]
            ["card" := Int(CapturedInt(m.card))]["device" := Int(CapturedInt(m.device))]
            ["type" := Str("ALSA")]["system" := Str("alsa")]["status" := Str("available")];
          assert device == AlsaDevice(m);
        }
      }
      i := i + 1;
    }
    assert lines[..i] == lines;
  }

  /** The pattern matches at 0 when the line has the card line's shape at
      the given positions. */
  lemma AlsaCardAtStart(line: string, c: string, name: string, d: string, deviceName: string,
                        c1: nat, n1: nat, d1: nat, m1: nat)
    requires c1 == 5 + |c| && n1 == c1 + 2 + |name| && d1 == n1 + 9 + |d| && m1 == d1 + 2 + |deviceName|
    requires m1 <= |line|
    requires OccursAt(line, "card ", 0) && line[5..c1] == c && OccursAt(line, ": ", c1)
    requires line[c1 + 2..n1] == name && OccursAt(line, ", device ", n1)
    requires line[n1 + 9..d1] == d && OccursAt(line, ": ", d1) && line[d1 + 2..m1] == deviceName
    requires m1 < |line| ==> line[m1] == ','
    requires IsDigits(c) && IsDigits(d)
    requires name != [] && ',' !in name && deviceName != [] && ',' !in deviceName
    ensures AlsaCardAt(line, 0) == Some(AlsaCard(c, name, d, deviceName))
  {
    var r := AlsaCard(c, name, d, deviceName);
    AlsaDeviceNameAt(line, c, name, d, deviceName, d1 + 2, m1);
    AlsaDeviceAt(line, c, name, d, n1 + 9, d1, r);
    AlsaNameAt(line, c, name, c1 + 2, n1, r);
    AlsaCardNumberAt(line, c, 5, c1, r);
  }

  /** The stages of the pattern, each at the positions of its capture. */
  lemma AlsaDeviceNameAt(line: string, c: string, name: string, d: string, deviceName: string, i: nat, m1: nat)
    requires m1 == i + |deviceName| <= |line| && line[i..m1] == deviceName
    requires deviceName != [] && ',' !in deviceName
    requires m1 < |line| ==> line[m1] == ','
    ensures AlsaFromDeviceName(line, c, name, d, i) == Some(AlsaCard(c, name, d, deviceName))
  {
    SpanOver(line, i, deviceName, NotComma, m1);
  }

  lemma AlsaDeviceAt(line: string, c: string, name: string, d: string, i: nat, d1: nat, r: AlsaCard)
    requires d1 == i + |d| <= |line| && line[i..d1] == d && IsDigits(d)
    requires OccursAt(line, ": ", d1)
    requires AlsaFromDeviceName(line, c, name, d, d1 + 2) == Some(r)
    ensures AlsaFromDevice(line, c, name, i) == Some(r)
  {
    assert line[d1] == line[d1..d1 + 2][0] == ':';
    SpanOver(line, i, d, IsDigit, d1);
  }

  lemma AlsaNameAt(line: string, c: string, name: string, i: nat, n1: nat, r: AlsaCard)
    requires n1 == i + |name| <= |line| && line[i..n1] == name
    requires name != [] && ',' !in name
    requires OccursAt(line, ", device ", n1)
    requires AlsaFromDevice(line, c, name, n1 + 9) == Some(r)
    ensures AlsaFromName(line, c, i) == Some(r)
  {
    assert line[n1] == line[n1..n1 + 9][0] == ',';
    SpanOver(line, i, name, NotComma, n1);
  }

  lemma AlsaCardNumberAt(line: string, c: string, i: nat, c1: nat, r: AlsaCard)
    requires c1 == i + |c| <= |line| && line[i..c1] == c && IsDigits(c)
    requires OccursAt(line, ": ", c1)
    requires AlsaFromName(line, c, c1 + 2) == Some(r)
    ensures AlsaFromCard(line, i) == Some(r)
  {
    assert line[c1] == line[c1..c1 + 2][0] == ':';
    SpanOver(line, i, c, IsDigit, c1);
    var e := SpanEnd(line, i, IsDigit);
    assert e == c1 != i && OccursAt(line, ": ", e) && line[i..e] == c;
    assert AlsaFromCard(line, i) == AlsaFromName(line, c, c1 + 2);
  }

  /** A line `card <c>: <name>, device <d>: <device name>` yields its four
      parts, whatever follows from a further comma on. */
  lemma AlsaLine(line: string, c: string, name: string, d: string, deviceName: string, tail: string)
    requires line == "card " + c + ": " + name + ", device " + d + ": " + deviceName + tail
    requires IsDigits(c) && IsDigits(d)
    requires name != [] && ',' !in name && deviceName != [] && ',' !in deviceName
    requires tail == [] || tail[0] == ','
    ensures AlsaEntry(line) == Some(AlsaCard(c, name, d, deviceName))
  {
    var p1 := "card " + c;
    var p2 := p1 + ": ";
    var p3 := p2 + name;
    var p4 := p3 + ", device ";
    var p5 := p4 + d;
    var p6 := p5 + ": ";
    var p7 := p6 + deviceName;
    assert line == p7 + tail;
    assert line[..|p7|] == p7;
    PrefixPiece(line, p6, deviceName);
    PrefixPiece(line, p5, ": ");
    PrefixPiece(line, p4, d);
    PrefixPiece(line, p3, ", device ");
    PrefixPiece(line, p2, name);
    PrefixPiece(line, p1, ": ");
    PrefixPiece(line, "card ", c);
    assert line[..5] == "card ";
    assert OccursAt(line, "card ", 0);
    AlsaCardAtStart(line, c, name, d, deviceName, |p1|, |p3|, |p5|, |p7|);
  }

  /** A line that starts with `pre + piece` holds `piece` right after `pre`. */
  lemma PrefixPiece(line: string, pre: string, piece: string)
    requires |pre| + |piece| <= |line| && line[..|pre| + |piece|] == pre + piece
    ensures line[..|pre|] == pre && line[|pre|..|pre| + |piece|] == piece
    ensures OccursAt(line, piece, |pre|)
  {
    assert line[..|pre|] == line[..|pre| + |piece|][..|pre|];
    assert line[|pre|..|pre| + |piece|] == line[..|pre| + |piece|][|pre|..];
  }

  // ---------------------------------------------------------------------
  // Device rows from pactl list sinks

  /** A row of the device table (the volume, channel and sample-rate cells
      hold fixed placeholders). */
  datatype DeviceRow = DeviceRow(name: string, system: string, state: string, description: string)

  /** The running variables of the sink listing: rows emitted so far, and
      the current sink with its description and state. */
  datatype SinkState = SinkState(rows: seq<DeviceRow>, device: string, description: string, state: string)

  /** The rows once the current sink, if it has an id, is added. */
  function Flush(st: SinkState): seq<DeviceRow> {
    if st.device != [] then st.rows + [DeviceRow(st.device, "PulseAudio", st.state, st.description)]
    else st.rows
  }

  /** One line: a "Sink #" header closes the current sink and opens one
      named by the text after the six-character prefix; otherwise the line
      may set the description or else the state. */
  function SinkStep(st: SinkState, line: string): SinkState {
    if StartsWith(line, "Sink #") then SinkState(Flush(st), line[6..], [], [])
    else if Contains(line, "Description:") then st.(description := Trim(AfterLast(line, "Description:")))
    else if Contains(line, "State:") then st.(state := Trim(AfterLast(line, "State:")))
    else st
  }

  function SinkScan(st: SinkState, lines: seq<string>): SinkState
    decreases |lines|
  {
    if lines == [] then st else SinkStep(SinkScan(st, lines[..|lines| - 1]), lines[|lines| - 1])
  }

  const Initial: SinkState := SinkState([], [], [], [])

  /** The rows `pactl list sinks` output adds to the device table. */
  function SinkRows(lines: seq<string>): seq<DeviceRow> {
    Flush(SinkScan(Initial, lines))
  }

  /** The description a line sets, if any. */
  function DescriptionOf(line: string): Option<string> {
    if !StartsWith(line, "Sink #") && Contains(line, "Description:")
    then Some(Trim(AfterLast(line, "Description:"))) else None
  }

  /** The state a line sets, if any: a line with a description sets only
      that. */
  function StateOf(line: string): Option<string> {
    if !StartsWith(line, "Sink #") && !Contains(line, "Description:") && Contains(line, "State:")
    then Some(Trim(AfterLast(line, "State:"))) else None
  }

  function OrElse(o: Option<string>, d: string): string {
    match o
    case Some(v) => v
    case None => d
  }

  /** Scanning is a fold: scanning a + b scans b from where a ended. */
  lemma {:induction false} SinkScanAppend(st: SinkState, a: seq<string>, b: seq<string>)
    ensures SinkScan(st, a + b) == SinkScan(SinkScan(st, a), b)
    decreases |b|
  {
    if b == [] {
      assert a + b == a;
    } else {
      var n := |b| - 1;
      assert (a + b)[..|a + b| - 1] == a + b[..n];
      assert (a + b)[|a + b| - 1] == b[n];
      SinkScanAppend(st, a, b[..n]);
    }
  }

  /** Inside a sink's block, the last description and the last state win,
      and no row is emitted. */
  lemma {:induction false} SinkBlock(st: SinkState, body: seq<string>)
    requires forall k :: 0 <= k < |body| ==> !StartsWith(body[k], "Sink #")
    ensures SinkScan(st, body) == SinkState(st.rows, st.device,
      OrElse(LastFound(body, DescriptionOf), st.description),
      OrElse(LastFound(body, StateOf), st.state))
    decreases |body|
  {
    if body != [] {
      var n := |body| - 1;
      SinkBlock(st, body[..n]);
    }
  }

  /** A sink's block adds one row to those of the lines before it, holding
      the header's id and the block's last description and state; a block
      whose header has an empty id adds none. */
  lemma SinkRowsBlock(before: seq<string>, id: string, body: seq<string>)
    requires forall k :: 0 <= k < |body| ==> !StartsWith(body[k], "Sink #")
    ensures SinkRows(before + (["Sink #" + id] + body)) == SinkRows(before) +
      (if id == [] then []
       else [DeviceRow(id, "PulseAudio", OrElse(LastFound(body, StateOf), []),
                       OrElse(LastFound(body, DescriptionOf), []))])
  {
    var header := "Sink #" + id;
    assert StartsWith(header, "Sink #") && header[6..] == id;
    SinkScanAppend(Initial, before, [header] + body);
    var st := SinkScan(Initial, before);
    SinkScanAppend(st, [header], body);
    assert SinkScan(st, [header]) == SinkStep(SinkScan(st, []), header);
    SinkBlock(SinkState(Flush(st), id, [], []), body);
  }

  /** Lines before the first header add no row. */
  lemma SinkRowsNoHeader(lines: seq<string>)
    requires forall k :: 0 <= k < |lines| ==> !StartsWith(lines[k], "Sink #")
    ensures SinkRows(lines) == []
  {
    SinkBlock(Initial, lines);
  }

  /** A line of the pipe-wire listing that describes an audio node. */
  predicate IsAudioNode(line: string) {
    Contains(line, "Node") && Contains(line, "Audio")
  }

  /** The row of an audio node line: a generic name and state, described by
      the trimmed line. */
  function NodeRow(line: string): DeviceRow {
    DeviceRow("PipeWire Device", "PipeWire", "Unknown", Trim(line))
  }

  /** The rows of the pipe-wire listing: one per audio node line, in order. */
  function PipeWireRows(lines: seq<string>): seq<DeviceRow>
    decreases |lines|
  {
    if lines == [] then []
    else
      var line := lines[|lines| - 1];
      PipeWireRows(lines[..|lines| - 1]) + (if IsAudioNode(line) then [NodeRow(line)] else [])
  }

  /** A node row is listed exactly when some line mentions both "Node" and
      "Audio"; the row is described by that line, trimmed. */
  lemma {:induction false} PipeWireRowsMembers(lines: seq<string>, row: DeviceRow)
    ensures row in PipeWireRows(lines) <==>
      exists i :: 0 <= i < |lines| && IsAudioNode(lines[i]) && row == NodeRow(lines[i])
    decreases |lines|
  {
    if lines != [] {
      var init := lines[..|lines| - 1];
      PipeWireRowsMembers(init, row);
      if exists i :: 0 <= i < |lines| && IsAudioNode(lines[i]) && row == NodeRow(lines[i]) {
        var i :| 0 <= i < |lines| && IsAudioNode(lines[i]) && row == NodeRow(lines[i]);
        if i < |init| { assert init[i] == lines[i]; }
      }
      if row in PipeWireRows(init) {
        var i :| 0 <= i < |init| && IsAudioNode(init[i]) && row == NodeRow(init[i]);
        assert lines[i] == init[i];
      }
    }
  }

  /** The rows a refresh leaves in the table: the sinks' rows when the
      sink listing succeeded, then the nodes' rows when the node listing
      succeeded. */
  function ScannedRows(sinksListed: bool, sinkListing: string,
                       nodesListed: bool, nodeListing: string): seq<DeviceRow> {
    (if sinksListed then SinkRows(Split(sinkListing, "\n")) else []) +
    (if nodesListed then PipeWireRows(Split(nodeListing, "\n")) else [])
  }

  /** The device table's rows, and whether a device scan is under way. */
  class AudioManager {
    var rows: seq<DeviceRow>
    var scanning: bool
    var autoRefresh: bool

    constructor ()
      ensures rows == [] && !scanning && autoRefresh
    {
      rows := [];
      scanning := false;
      autoRefresh := true;
    }

    /** Starts a scan unless one is under way: the flag is raised and the
        table emptied; a call during a scan changes nothing. */
    method RefreshDevices() returns (started: bool)
      modifies this
      ensures started <==> !old(scanning)
      ensures started ==> scanning && rows == [] && autoRefresh == old(autoRefresh)
      ensures !started ==> unchanged(this)
    {
      if scanning {
        return false;
      }
      scanning := true;
      rows := [];
      started := true;
    }

    /** The refresh timer starts a scan only when auto-refresh is on and
        no scan is under way. */
    method OnRefreshTimer()
      modifies this
      ensures old(autoRefresh) && !old(scanning) ==> scanning && rows == []
      ensures !(old(autoRefresh) && !old(scanning)) ==> unchanged(this)
    {
      if autoRefresh && !scanning {
        var _ := RefreshDevices();
      }
    }

    /** Ends a scan. */
    method FinishDeviceScan()
      modifies this
      ensures !scanning && rows == old(rows) && autoRefresh == old(autoRefresh)
    {
      scanning := false;
    }

    /** Adds a row per sink of `pactl list sinks` output. */
    method ParsePulseAudioDevices(output: string)
      modifies this
      ensures rows == old(rows) + SinkRows(Split(output, "\n"))
      ensures scanning == old(scanning) && autoRefresh == old(autoRefresh)
    {
      var lines := Split(output, "\n");
      var currentDevice: string := [];
      var currentDescription: string := [];
      var currentState: string := [];
      ghost var emitted: seq<DeviceRow> := [];
      var i := 0;
      while i < |lines|
        invariant 0 <= i <= |lines|
        invariant SinkScan(Initial, lines[..i]) ==
          SinkState(emitted, currentDevice, currentDescription, currentState)
        invariant rows == old(rows) + emitted
        invariant scanning == old(scanning) && autoRefresh == old(autoRefresh)
      {
        var line := lines[i];
        assert lines[..i + 1][..i] == lines[..i];
        if StartsWith(line, "Sink #") {
          if currentDevice != [] {
            rows := rows + [DeviceRow(currentDevice, "PulseAudio", currentState, currentDescription)];
            emitted := emitted + [DeviceRow(currentDevice, "PulseAudio", currentState, currentDescription)];
          }
          currentDevice := line[6..];
          currentDescription := [];
          currentState := [];
        } else if Contains(line, "Description:") {
          currentDescription := Trim(AfterLast(line, "Description:"));
        } else if Contains(line, "State:") {
          currentState := Trim(AfterLast(line, "State:"));
        }
        i := i + 1;
      }
      assert lines[..i] == lines;
      if currentDevice != [] {
        rows := rows + [DeviceRow(currentDevice, "PulseAudio", currentState, currentDescription)];
      }
    }

    /** Adds a row per audio node line of `pw-cli list-objects` output. */
    method ParsePipeWireDevices(output: string)
      modifies this
      ensures rows == old(rows) + PipeWireRows(Split(output, "\n"))
      ensures scanning == old(scanning) && autoRefresh == old(autoRefresh)
    {
      var lines := Split(output, "\n");
      var i := 0;
      while i < |lines|
        invariant 0 <= i <= |lines|
        invariant rows == old(rows) + PipeWireRows(lines[..i])
        invariant scanning == old(scanning) && autoRefresh == old(autoRefresh)
      {
        var line := lines[i];
        assert lines[..i + 1][..i] == lines[..i];
        if Contains(line, "Node") && Contains(line, "Audio") {
          rows := rows + [DeviceRow("PipeWire Device", "PipeWire", "Unknown", Trim(line))];
        }
        i := i + 1;
      }
      assert lines[..i] == lines;
    }

    /** A whole refresh when its two listings complete in turn: PulseAudio
        sinks (when available and listed successfully), then PipeWire nodes
        (likewise), then the scan ends. During a scan nothing happens. */
    method ScanDevices(pulseAvailable: bool, pulseExitCode: int, sinkListing: string,
                       pipeWireAvailable: bool, pipeWireExitCode: int, nodeListing: string)
      modifies this
      ensures old(scanning) ==> unchanged(this)
      ensures !old(scanning) ==> !scanning && autoRefresh == old(autoRefresh)
      ensures !old(scanning) ==>
        rows == ScannedRows(pulseAvailable && pulseExitCode == 0, sinkListing,
                            pipeWireAvailable && pipeWireExitCode == 0, nodeListing)
    {
      var started := RefreshDevices();
      if !started {
        return;
      }
      ghost var sinkRows: seq<DeviceRow> := [];
      ghost var nodeRows: seq<DeviceRow> := [];
      if pulseAvailable && pulseExitCode == 0 {
        ParsePulseAudioDevices(sinkListing);
        sinkRows := SinkRows(Split(sinkListing, "\n"));
      }
      assert rows == sinkRows;
      if pipeWireAvailable && pipeWireExitCode == 0 {
        ParsePipeWireDevices(nodeListing);
        nodeRows := PipeWireRows(Split(nodeListing, "\n"));
      }
      assert rows == sinkRows + nodeRows;
      FinishDeviceScan();
    }
  }

  // ---------------------------------------------------------------------
  // Audio system choice

  /** The systems whose probes succeed, in the order pipewire, pulseaudio,
      alsa, jack. */
  function AvailableAudioSystems(pipeWire: bool, pulseAudio: bool, alsa: bool, jack: bool): seq<string> {
    (if pipeWire then ["pipewire"] else []) + (if pulseAudio then ["pulseaudio"] else []) +
    (if alsa then ["alsa"] else []) + (if jack then ["jack"] else [])
  }

  /** The first available system, or "none". */
  function AudioSystem(pipeWire: bool, pulseAudio: bool, alsa: bool, jack: bool): string {
    if pipeWire then "pipewire"
    else if pulseAudio then "pulseaudio"
    else if alsa then "alsa"
    else if jack then "jack"
    else "none"
  }

  /** The chosen system heads the list of available ones, and "none" is
      chosen exactly when that list is empty. */
  lemma AudioSystemIsFirstAvailable(pipeWire: bool, pulseAudio: bool, alsa: bool, jack: bool)
    ensures var systems := AvailableAudioSystems(pipeWire, pulseAudio, alsa, jack);
      AudioSystem(pipeWire, pulseAudio, alsa, jack) == if systems == [] then "none" else systems[0]
  {
  }

  /** A system is listed exactly when its probe succeeds, and the list has
      no repeats. */
  lemma AvailableAudioSystemsMembers(pipeWire: bool, pulseAudio: bool, alsa: bool, jack: bool)
    ensures var systems := AvailableAudioSystems(pipeWire, pulseAudio, alsa, jack);
      && ("pipewire" in systems <==> pipeWire)
      && ("pulseaudio" in systems <==> pulseAudio)
      && ("alsa" in systems <==> alsa)
      && ("jack" in systems <==> jack)
      && |systems| == (if pipeWire then 1 else 0) + (if pulseAudio then 1 else 0) +
                      (if alsa then 1 else 0) + (if jack then 1 else 0)
  {
  }
}
