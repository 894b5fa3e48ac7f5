/** The lsusb and lspci side of the hardware scanner: the regular-expression
    prefixes the two line parsers strip, the `[vendor:device]` tag of an
    lspci line, the two parsers themselves and the two scans that feed
    them. */
module Devices {
  import opened Text
  import opened Json
  import opened Drivers

  // ---------------------------------------------------------------------
  // Character classes and runs

  /** `[0-9a-f]`. */
  predicate IsHexLower(c: char) {
    ('0' <= c <= '9') || ('a' <= c <= 'f')
  }

  /** `[0-9a-f:.]`: the characters of a PCI address. */
  predicate IsPciAddressChar(c: char) {
    IsHexLower(c) || c == ':' || c == '.'
  }

  /** `[0-9a-f:]`: the characters of a USB `vendor:product` id. */
  predicate IsUsbIdChar(c: char) {
    IsHexLower(c) || c == ':'
  }

  /** The character classes the prefixes are made of. */
  datatype Class = Digit | HexLower | PciAddress | UsbId | Space

  predicate InClass(c: char, p: Class) {
    match p
    case Digit => IsDigit(c)
    case HexLower => IsHexLower(c)
    case PciAddress => IsPciAddressChar(c)
    case UsbId => IsUsbIdChar(c)
    case Space => IsRegexSpace(c)
  }

  /** The end of the maximal run of characters of class `p` from `i`. */
  function RunEnd(s: string, i: nat, p: Class): (j: nat)
    requires i <= |s|
    ensures i <= j <= |s|
    decreases |s| - i
  {
    if i < |s| && InClass(s[i], p) then RunEnd(s, i + 1, p) else i
  }

  /** A run is determined by where it starts: it ends at the first character
      outside the class. */
  lemma {:induction false} RunEndIs(s: string, i: nat, j: nat, p: Class)
    requires i <= j <= |s|
    requires forall k :: i <= k < j ==> InClass(s[k], p)
    requires j < |s| ==> !InClass(s[j], p)
    ensures RunEnd(s, i, p) == j
    decreases j - i
  {
    if i < j {
      RunEndIs(s, i + 1, j, p);
    }
  }

  // ---------------------------------------------------------------------
  // The prefixes the parsers remove

  /** One piece of an anchored prefix pattern: a literal text, or `[class]+`. */
  datatype Piece = Literal(text: string) | Run(cls: Class)

  /** A pattern: pieces one after the other. */
  datatype Pattern = End | Then(piece: Piece, next: Pattern)

  /** The end of the greedy match of `pattern` at `i`, if it matches. In the
      patterns below every run is followed by a literal or run that cannot
      start with a character of its class, so the greedy match is the only
      match a backtracking matcher can find. */
  function MatchAt(s: string, i: nat, pattern: Pattern): (r: Option<nat>)
    requires i <= |s|
    ensures r.Some? ==> i <= r.value <= |s|
    decreases pattern
  {
    match pattern
    case End => Some(i)
    case Then(Literal(t), next) =>
      if StartsWith(s[i..], t) then MatchAt(s, i + |t|, next) else None
    case Then(Run(p), next) =>
      var j := RunEnd(s, i, p);
      if j > i then MatchAt(s, j, next) else None
  }

  /** How much QString::remove takes off the front for an anchored pattern:
      the whole match, or nothing when it does not match. */
  function PrefixLength(s: string, pattern: Pattern): (n: nat)
    ensures n <= |s|
  {
    match MatchAt(s, 0, pattern)
    case None => 0
    case Some(n) => n
  }

  /** `^[0-9a-f:.]+\s+`: a PCI address and the white space after it. */
  const PciPattern: Pattern := Then(Run(PciAddress), Then(Run(Space), End))

  /** `^Bus \d+ Device \d+: ID [0-9a-f:]+\s+`: everything before the
      description of an lsusb line. */
  const UsbPattern: Pattern :=
    Then(Literal("Bus "), Then(Run(Digit), Then(Literal(" Device "), Then(Run(Digit), Then(Literal(": ID "),
    UsbIdPattern)))))

  /** `[0-9a-f:]+\s+`: the id of an lsusb line and the white space after it. */
  const UsbIdPattern: Pattern := Then(Run(UsbId), Then(Run(Space), End))

  function PciPrefix(s: string): (n: nat)
    ensures n <= |s|
  {
    PrefixLength(s, PciPattern)
  }

  function UsbPrefix(s: string): (n: nat)
    ensures n <= |s|
  {
    PrefixLength(s, UsbPattern)
  }

  // The lemmas below take the rest of the pattern as a parameter `next`:
  // stated on a pattern constant, a match would be unrolled piece by piece
  // by the solver.

  /** Matching a literal found at `i` continues after it. */
  lemma MatchLiteral(s: string, i: nat, t: string, after: string, next: Pattern, j: nat)
    requires i <= |s| && s[i..] == t + after && j == i + |t|
    ensures j <= |s| && s[j..] == after
    ensures MatchAt(s, i, Then(Literal(t), next)) == MatchAt(s, j, next)
  {
    assert s[j..] == s[i..][|t|..];
    assert s[i..][..|t|] == t;
  }

  /** Matching a run continues after the whole of it: `w` is all of class
      `p` and `after` does not start with a character of that class. */
  lemma MatchRun(s: string, i: nat, w: string, after: string, p: Class, next: Pattern, j: nat)
    requires i <= |s| && s[i..] == w + after && j == i + |w|
    requires w != [] && forall k :: 0 <= k < |w| ==> InClass(w[k], p)
    requires after != [] ==> !InClass(after[0], p)
    ensures j <= |s| && s[j..] == after
    ensures MatchAt(s, i, Then(Run(p), next)) == MatchAt(s, j, next)
  {
    assert s[j..] == s[i..][|w|..];
    forall k | i <= k < j ensures InClass(s[k], p) {
      assert s[k] == s[i..][k - i] == w[k - i];
    }
    if j < |s| {
      assert s[j] == s[i..][|w|] == after[0];
    }
    RunEndIs(s, i, j, p);
  }

  /** Two runs one after the other, of classes that do not overlap. */
  lemma MatchTwoRuns(s: string, i: nat, w1: string, p1: Class, w2: string, p2: Class, rest: string, next: Pattern, j: nat)
    requires i <= |s| && s[i..] == w1 + (w2 + rest) && j == i + |w1| + |w2|
    requires w1 != [] && forall k :: 0 <= k < |w1| ==> InClass(w1[k], p1)
    requires w2 != [] && forall k :: 0 <= k < |w2| ==> InClass(w2[k], p2)
    requires !InClass(w2[0], p1)
    requires rest != [] ==> !InClass(rest[0], p2)
    ensures j <= |s| && s[j..] == rest
    ensures MatchAt(s, i, Then(Run(p1), Then(Run(p2), next))) == MatchAt(s, j, next)
  {
    var j1 := i + |w1|;
    assert (w2 + rest)[0] == w2[0];
    MatchRun(s, i, w1, w2 + rest, p1, Then(Run(p2), next), j1);
    MatchRun(s, j1, w2, rest, p2, next, j);
    var m1 := MatchAt(s, j1, Then(Run(p2), next));
    assert MatchAt(s, i, Then(Run(p1), Then(Run(p2), next))) == m1;
    assert m1 == MatchAt(s, j, next);
  }

  /** A PCI address followed by white space is cut off as a whole, the white
      space included. */
  lemma PciPrefixOf(addr: string, ws: string, rest: string)
    requires addr != [] && forall k :: 0 <= k < |addr| ==> IsPciAddressChar(addr[k])
    requires ws != [] && forall k :: 0 <= k < |ws| ==> IsRegexSpace(ws[k])
    requires rest != [] ==> !IsRegexSpace(rest[0])
    ensures PciPrefix(addr + (ws + rest)) == |addr| + |ws|
  {
    var s := addr + (ws + rest);
    assert s[0..] == s;
    MatchTwoRuns(s, 0, addr, PciAddress, ws, Space, rest, End, |addr| + |ws|);
  }

  /** An lsusb line: `Bus <bus> Device <dev>: ID ` and the text after it. */
  function UsbText(bus: string, dev: string, tail: string): string {
    "Bus " + (bus + (" Device " + (dev + (": ID " + tail))))
  }

  /** `Bus <bus>` is matched up to the text after the bus number. */
  lemma UsbBusPart(s: string, bus: string, after: string, next: Pattern)
    requires IsDigits(bus) && s == "Bus " + (bus + after)
    requires after != [] ==> !IsDigit(after[0])
    ensures 4 + |bus| <= |s| && s[4 + |bus|..] == after
    ensures MatchAt(s, 0, Then(Literal("Bus "), Then(Run(Digit), next))) == MatchAt(s, 4 + |bus|, next)
  {
    assert s[0..] == s;
    MatchLiteral(s, 0, "Bus ", bus + after, Then(Run(Digit), next), 4);
    MatchRun(s, 4, bus, after, Digit, next, 4 + |bus|);
  }

  /** ` Device <dev>: ID ` is matched up to the id. */
  lemma UsbDevicePart(s: string, i: nat, dev: string, tail: string, next: Pattern, j: nat)
    requires IsDigits(dev) && i <= |s| && s[i..] == " Device " + (dev + (": ID " + tail))
    requires j == i + 13 + |dev|
    ensures j <= |s| && s[j..] == tail
    ensures MatchAt(s, i, Then(Literal(" Device "), Then(Run(Digit), Then(Literal(": ID "), next))))
         == MatchAt(s, j, next)
  {
    var a4 := ": ID " + tail;
    var k := i + 8 + |dev|;
    var afterDev := Then(Literal(": ID "), next);
    MatchLiteral(s, i, " Device ", dev + a4, Then(Run(Digit), afterDev), i + 8);
    assert a4[0] == ':';
    MatchRun(s, i + 8, dev, a4, Digit, afterDev, k);
    MatchLiteral(s, k, ": ID ", tail, next, j);
  }

  /** The bus and device numbers of an lsusb line are matched up to the id. */
  lemma UsbNumbers(s: string, bus: string, dev: string, tail: string, next: Pattern, j: nat)
    requires IsDigits(bus) && IsDigits(dev) && s == UsbText(bus, dev, tail)
    requires j == 17 + |bus| + |dev|
    ensures j <= |s| && s[j..] == tail
    ensures MatchAt(s, 0, Then(Literal("Bus "), Then(Run(Digit), Then(Literal(" Device "), Then(Run(Digit),
              Then(Literal(": ID "), next))))))
         == MatchAt(s, j, next)
  {
    var rest := Then(Literal(" Device "), Then(Run(Digit), Then(Literal(": ID "), next)));
    UsbBusPart(s, bus, " Device " + (dev + (": ID " + tail)), rest);
    UsbDevicePart(s, 4 + |bus|, dev, tail, next, j);
  }

  /** A bus number, a device number and an id followed by white space are
      cut off as a whole, the white space included. */
  lemma UsbPrefixOf(s: string, bus: string, dev: string, id: string, ws: string, rest: string)
    requires IsDigits(bus) && IsDigits(dev) && IsUsbId(id) && s == UsbText(bus, dev, id + (ws + rest))
    requires ws != [] && forall k :: 0 <= k < |ws| ==> IsRegexSpace(ws[k])
    requires rest != [] ==> !IsRegexSpace(rest[0])
    ensures UsbPrefix(s) == 17 + |bus| + |dev| + |id| + |ws|
    ensures s[UsbPrefix(s)..] == rest
  {
    var j := 17 + |bus| + |dev|;
    UsbNumbers(s, bus, dev, id + (ws + rest), UsbIdPattern, j);
    MatchTwoRuns(s, j, id, UsbId, ws, Space, rest, End, j + |id| + |ws|);
  }

  // ---------------------------------------------------------------------
  // The vendor tag of an lspci line

  /** `\[([0-9a-f]{4}):([0-9a-f]{4})\]` matches at index `i`. */
  predicate TagAt(s: string, i: int) {
    && 0 <= i && i + 11 <= |s|
    && s[i] == '[' && s[i + 5] == ':' && s[i + 10] == ']'
    && (forall k :: i + 1 <= k < i + 5 ==> IsHexLower(s[k]))
    && (forall k :: i + 6 <= k < i + 10 ==> IsHexLower(s[k]))
  }

  /** QRegularExpression::match: the leftmost tag at or after `from`. */
  function FirstTag(s: string, from: nat): (r: Option<nat>)
    requires from <= |s|
    ensures r.Some? ==> from <= r.value && TagAt(s, r.value)
    ensures r.Some? ==> forall j :: from <= j < r.value ==> !TagAt(s, j)
    ensures r.None? ==> forall j :: from <= j ==> !TagAt(s, j)
    decreases |s| - from
  {
    if from == |s| then None
    else if TagAt(s, from) then Some(from)
    else FirstTag(s, from + 1)
  }

  /** QString::remove(regex): every tag, leftmost first, none overlapping. */
  function RemoveTags(s: string): (r: string)
    ensures |r| <= |s|
    decreases |s|
  {
    if s == [] then []
    else if TagAt(s, 0) then RemoveTags(s[11..])
    else [s[0]] + RemoveTags(s[1..])
  }

  lemma TagAtShift(s: string, i: nat)
    requires s != []
    ensures TagAt(s[1..], i) <==> TagAt(s, i + 1)
  {
    var t := s[1..];
    if i + 11 <= |t| {
      assert t[i] == s[i + 1] && t[i + 5] == s[i + 6] && t[i + 10] == s[i + 11];
      assert forall k :: i + 1 <= k < i + 5 ==> t[k] == s[k + 1];
      assert forall k :: i + 6 <= k < i + 10 ==> t[k] == s[k + 1];
    }
  }

  /** A text without tags is left as it is. */
  lemma {:induction false} RemoveTagsNone(s: string)
    requires forall i :: 0 <= i < |s| ==> !TagAt(s, i)
    ensures RemoveTags(s) == s
    decreases |s|
  {
    if s != [] {
      forall i | 0 <= i < |s[1..]| ensures !TagAt(s[1..], i) {
        TagAtShift(s, i);
      }
      RemoveTagsNone(s[1..]);
    }
  }

  /** The text before the first tag is kept and the tag disappears; the
      first tag is where the ids are read from. */
  lemma {:induction false} RemoveFirstTag(a: string, t: string, b: string)
    requires |t| == 11 && TagAt(t, 0)
    requires forall i :: 0 <= i < |a| ==> !TagAt(a + t + b, i)
    ensures RemoveTags(a + t + b) == a + RemoveTags(b)
    ensures FirstTag(a + t + b, 0) == Some(|a|)
    decreases |a|
  {
    var s := a + t + b;
    assert TagAt(s, |a|) by {
      assert s[|a|..|a| + 11] == t;
    }
    if a == [] {
      assert s[11..] == b;
    } else {
      assert !TagAt(s, 0);
      assert s[1..] == a[1..] + t + b;
      forall i | 0 <= i < |a[1..]| ensures !TagAt(a[1..] + t + b, i) {
        TagAtShift(s, i);
      }
      RemoveFirstTag(a[1..], t, b);
    }
  }

  // ---------------------------------------------------------------------
  // The two line parsers

  /** parseLspciOutput: for a line of at least two space-separated fields,
      the first field as the address and the fields read from the text
      after the address and the white space after it. */
  function ParseLspciOutput(line: string): (r: Object)
    ensures r == map[] <==> |SplitSkipEmpty(line, " ")| < 2
  {
    var parts := SplitSkipEmpty(line, " ");
    if |parts| < 2 then map[] else PciFields(parts[0], line[PciPrefix(line)..])
  }

  /** The record of an lspci line: the ids of the first tag of the
      description, and the description with every tag removed when there is
      one, trimmed. */
  function PciFields(address: string, description: string): (r: Object)
    ensures GetString(r, "bus_id") == address
    ensures GetString(r, "type") == "pci" && GetString(r, "status") == "detected"
  {
    var first := FirstTag(description, 0);
    var text := if first.Some? then RemoveTags(description) else description;
    var fields := PciBase(address, Trim(text));
    match first
    case None => fields
    case Some(i) =>
      fields["vendor_id" := Str(description[i + 1..i + 5])]["device_id" := Str(description[i + 6..i + 10])]
  }

  /** The fields every lspci record has. */
  function PciBase(address: string, description: string): (r: Object)
    ensures GetString(r, "description") == description
  {
    map["bus_id" := Str(address), "type" := Str("pci"),
        "description" := Str(description), "status" := Str("detected")]
  }

  /** Two updates of a map at two different keys, read back. */
  lemma UpdatedTwice(m: Object, k1: string, v1: Value, k2: string, v2: Value, k: string)
    requires k1 != k2 && k != k1 && k != k2
    ensures m[k1 := v1][k2 := v2][k1] == v1 && m[k1 := v1][k2 := v2][k2] == v2
    ensures k in m ==> k in m[k1 := v1][k2 := v2] && m[k1 := v1][k2 := v2][k] == m[k]
  {
  }

  /** parseLsusbOutput: for a line of at least six space-separated fields,
      the fields read from them and the trimmed description after the id. */
  function ParseLsusbOutput(line: string): (r: Object)
    ensures r == map[] <==> |SplitSkipEmpty(line, " ")| < 6
    ensures r != map[] ==> GetString(r, "type") == "usb" && GetString(r, "status") == "detected"
    ensures r != map[] ==> "bus" in r && "device" in r && "description" in r
  {
    var parts := SplitSkipEmpty(line, " ");
    if |parts| < 6 then map[] else UsbFields(parts, Trim(line[UsbPrefix(line)..]))
  }

  /** The record of the fields of an lsusb line: the bus, the device number
      without its trailing character, and the vendor and product halves of
      the id when it has a colon. */
  function UsbFields(parts: seq<string>, description: string): (r: Object)
    requires |parts| >= 6 && parts[3] != []
    ensures GetString(r, "type") == "usb" && GetString(r, "status") == "detected"
    ensures "bus" in r && "device" in r && "description" in r
  {
    var idPart := parts[5];
    var ids :=
      if ':' in idPart then
        SplitAtColon(idPart);
        var pieces := Split(idPart, ":");
        map["vendor_id" := Str(pieces[0]), "product_id" := Str(pieces[1])]
      else map[];
    map["bus" := Str(parts[1]), "device" := Str(parts[3][..|parts[3]| - 1]), "type" := Str("usb")] + ids
      + map["description" := Str(description), "status" := Str("detected")]
  }

  /** A string with a colon splits into at least two pieces. */
  lemma SplitAtColon(s: string)
    requires ':' in s
    ensures |Split(s, ":")| >= 2
  {
    var i :| 0 <= i < |s| && s[i] == ':';
    var k := FirstColon(s, i);
    assert s == s[..k] + [':'] + s[k + 1..];
    SplitAtFirst(s[..k], ':', s[k + 1..]);
  }

  /** The first colon at or before a given one. */
  lemma FirstColon(s: string, i: nat) returns (k: nat)
    requires i < |s| && s[i] == ':'
    ensures k <= i && s[k] == ':' && ':' !in s[..k]
  {
    k := i;
    while exists j :: 0 <= j < k && s[j] == ':'
      invariant k <= i && s[k] == ':'
      decreases k
    {
      var j :| 0 <= j < k && s[j] == ':';
      k := j;
    }
  }

  // ---------------------------------------------------------------------
  // Well-formed lines parse back into their parts

  /** A non-empty word without white space of any kind. */
  predicate IsToken(w: string) {
    w != [] && forall j :: 0 <= j < |w| ==> !IsSpace(w[j])
  }

  /** A non-empty run of lower-case hexadecimal digits. */
  predicate IsHexWord(w: string) {
    w != [] && forall j :: 0 <= j < |w| ==> IsHexLower(w[j])
  }

  /** A non-empty run of the characters of a USB id. */
  predicate IsUsbId(id: string) {
    id != [] && forall k :: 0 <= k < |id| ==> IsUsbIdChar(id[k])
  }

  /** At least one token. */
  predicate AreTokens(words: seq<string>) {
    words != [] && forall k :: 0 <= k < |words| ==> IsToken(words[k])
  }

  /** `line` is the lsusb line of a bus and a device number, an id and the
      words of a description. */
  predicate IsUsbLineOf(line: string, bus: string, dev: string, id: string, words: seq<string>) {
    && IsDigits(bus) && IsDigits(dev) && IsUsbId(id) && AreTokens(words)
    && line == UsbText(bus, dev, id + " " + Join(words, " "))
  }

  /** Tokens joined by single spaces start and end with a token character. */
  lemma JoinedTokens(words: seq<string>)
    requires AreTokens(words)
    ensures var d := Join(words, " "); d != [] && !IsSpace(d[0]) && Trim(d) == d
    ensures forall k :: 0 <= k < |words| ==> ' ' !in words[k]
  {
    JoinedEnds(words, Join(words, " "));
    TokensSpaceless(words);
  }

  /** The first and last characters of joined tokens are token characters. */
  lemma JoinedEnds(words: seq<string>, d: string)
    requires AreTokens(words) && d == Join(words, " ")
    ensures d != [] && !IsSpace(d[0]) && Trim(d) == d
  {
    JoinPrefix(words, " ");
    var f := words[0];
    assert IsToken(f);
    assert d[0] == f[0];
    JoinSuffix(words, " ");
    var l := words[|words| - 1];
    assert IsToken(l);
    assert d[|d| - 1] == l[|l| - 1];
    TrimNoop(d);
  }

  /** No token holds a space. */
  lemma TokensSpaceless(words: seq<string>)
    requires AreTokens(words)
    ensures forall k :: 0 <= k < |words| ==> ' ' !in words[k]
  {
    forall k | 0 <= k < |words| ensures ' ' !in words[k] {
      assert IsToken(words[k]) && IsSpace(' ');
    }
  }

  /** Splitting at spaces cuts off a first word without spaces. */
  lemma SplitOff(w: string, rest: string)
    requires ' ' !in w
    ensures Split(w + " " + rest, " ") == [w] + Split(rest, " ")
  {
    SplitAtFirst(w, ' ', rest);
  }

  /** Splitting at spaces cuts off a literal word and its space. */
  lemma SplitOffLiteral(w: string, lit: string, rest: string)
    requires lit == w + " " && ' ' !in w
    ensures Split(lit + rest, " ") == [w] + Split(rest, " ")
  {
    assert lit + rest == w + " " + rest;
    SplitOff(w, rest);
  }

  lemma SplitOffBus(bus: string, r: string)
    requires ' ' !in bus
    ensures Split(bus + (" Device " + r), " ") == [bus] + Split("Device " + r, " ")
  {
    assert bus + (" Device " + r) == bus + " " + ("Device " + r);
    SplitOff(bus, "Device " + r);
  }

  lemma SplitOffDevice(dev: string, r: string)
    requires ' ' !in dev
    ensures Split(dev + (": ID " + r), " ") == [dev + ":"] + Split("ID " + r, " ")
  {
    assert dev + (": ID " + r) == (dev + ":") + " " + ("ID " + r);
    assert ' ' !in dev + ":";
    SplitOff(dev + ":", "ID " + r);
  }

  lemma NestedFields<T>(a: T, b: T, c: T, d: T, e: T, f: T, rest: seq<T>)
    ensures [a] + ([b] + ([c] + ([d] + ([e] + ([f] + rest))))) == [a, b, c, d, e, f] + rest
  {
  }

  lemma LsusbLiterals()
    ensures "Bus " == "Bus" + " " && ' ' !in "Bus"
    ensures "Device " == "Device" + " " && ' ' !in "Device"
    ensures "ID " == "ID" + " " && ' ' !in "ID"
  {
  }

  /** The numbers and the id of an lsusb line hold no space. */
  lemma UsbFieldsSpaceFree(bus: string, dev: string, id: string)
    requires IsDigits(bus) && IsDigits(dev) && IsUsbId(id)
    ensures ' ' !in bus && ' ' !in dev && ' ' !in id
  {
    assert !IsDigit(' ') && !IsUsbIdChar(' ');
  }

  /** The space-separated fields of an lsusb line. */
  lemma LsusbFields(line: string, bus: string, dev: string, id: string, words: seq<string>)
    requires IsUsbLineOf(line, bus, dev, id, words)
    ensures Split(line, " ") == ["Bus", bus, "Device", dev + ":", "ID", id] + words
  {
    var tail := id + " " + Join(words, " ");
    var r2 := dev + (": ID " + tail);
    var r1 := bus + (" Device " + r2);
    UsbFieldsSpaceFree(bus, dev, id);
    JoinedTokens(words);
    LsusbLiterals();
    SplitJoin(words, ' ');
    SplitOff(id, Join(words, " "));
    SplitOffLiteral("ID", "ID ", tail);
    SplitOffDevice(dev, tail);
    SplitOffLiteral("Device", "Device ", r2);
    SplitOffBus(bus, r2);
    SplitOffLiteral("Bus", "Bus ", r1);
    NestedFields("Bus", bus, "Device", dev + ":", "ID", id, words);
  }

  /** No field of an lsusb line is empty. */
  lemma LsusbFieldsNonEmpty(line: string, bus: string, dev: string, id: string, words: seq<string>)
    requires IsUsbLineOf(line, bus, dev, id, words)
    ensures SplitSkipEmpty(line, " ") == ["Bus", bus, "Device", dev + ":", "ID", id] + words
  {
    LsusbFields(line, bus, dev, id, words);
    NonEmptyKeeps(words);
    var p5 := [id] + words;
    var p4 := ["ID"] + p5;
    var p3 := [dev + ":"] + p4;
    var p2 := ["Device"] + p3;
    var p1 := [bus] + p2;
    NonEmptyCons(id, words);
    NonEmptyCons("ID", p5);
    NonEmptyCons(dev + ":", p4);
    NonEmptyCons("Device", p3);
    NonEmptyCons(bus, p2);
    NonEmptyCons("Bus", p1);
    NestedFields("Bus", bus, "Device", dev + ":", "ID", id, words);
  }

  lemma NonEmptyCons(a: string, rest: seq<string>)
    requires a != []
    ensures NonEmpty([a] + rest) == [a] + NonEmpty(rest)
  {
    assert ([a] + rest)[1..] == rest;
  }

  /** An lsusb line `Bus <bus> Device <dev>: ID <vid>:<pid> <words>` parses
      back into its parts: the bus, the device number, both halves of the
      id and the description after it. */
  lemma LsusbOfLine(line: string, bus: string, dev: string, vid: string, pid: string, words: seq<string>)
    requires IsDigits(bus) && IsDigits(dev) && IsHexWord(vid) && IsHexWord(pid) && AreTokens(words)
    requires line == UsbText(bus, dev, vid + ":" + pid + " " + Join(words, " "))
    ensures ParseLsusbOutput(line) == UsbRecord(bus, dev, vid, pid, Join(words, " "))
  {
    var id := vid + ":" + pid;
    LsusbIdParts(id, vid, pid);
    assert IsUsbLineOf(line, bus, dev, id, words);
    LsusbFieldsNonEmpty(line, bus, dev, id, words);
    UsbDescription(line, bus, dev, id, words);
    LsusbOfFields(line, bus, dev, id, words, vid, pid);
  }

  /** The id `<vid>:<pid>` splits into its two halves. */
  lemma LsusbIdParts(id: string, vid: string, pid: string)
    requires IsHexWord(vid) && IsHexWord(pid) && id == vid + ":" + pid
    ensures IsUsbId(id) && ':' in id && Split(id, ":") == [vid, pid]
  {
    assert forall k :: 0 <= k < |id| ==> IsUsbIdChar(id[k]);
    assert id[|vid|] == ':';
    assert ':' !in vid && ':' !in pid;
    SplitAtFirst(vid, ':', pid);
    SplitJoin([pid], ':');
  }

  /** What the parser keeps of an lsusb line as its description: the words
      after the id. */
  lemma UsbDescription(line: string, bus: string, dev: string, id: string, words: seq<string>)
    requires IsUsbLineOf(line, bus, dev, id, words)
    ensures Trim(line[UsbPrefix(line)..]) == Join(words, " ")
  {
    var desc := Join(words, " ");
    JoinedTokens(words);
    assert !IsRegexSpace(desc[0]);
    assert id + " " + desc == id + (" " + desc);
    UsbPrefixOf(line, bus, dev, id, " ", desc);
    assert line[UsbPrefix(line)..] == desc;
  }

  /** The record of an lsusb line, from its fields, its id halves and its
      description. */
  function UsbRecord(bus: string, device: string, vid: string, pid: string, description: string): (r: Object)
    ensures GetString(r, "bus") == bus && GetString(r, "device") == device
    ensures GetString(r, "vendor_id") == vid && GetString(r, "product_id") == pid
    ensures GetString(r, "description") == description
    ensures GetString(r, "type") == "usb" && GetString(r, "status") == "detected"
  {
    map["bus" := Str(bus), "device" := Str(device), "type" := Str("usb")]
    + map["vendor_id" := Str(vid), "product_id" := Str(pid)]
    + map["description" := Str(description), "status" := Str("detected")]
  }

  lemma LsusbOfFields(line: string, bus: string, dev: string, id: string, words: seq<string>, vid: string, pid: string)
    requires SplitSkipEmpty(line, " ") == ["Bus", bus, "Device", dev + ":", "ID", id] + words
    requires ':' in id && Split(id, ":") == [vid, pid]
    ensures ParseLsusbOutput(line) == UsbRecord(bus, dev, vid, pid, Trim(line[UsbPrefix(line)..]))
  {
    var fields := ["Bus", bus, "Device", dev + ":", "ID", id] + words;
    assert fields[1] == bus && fields[5] == id;
    assert fields[3][..|fields[3]| - 1] == dev;
  }

  /** A description whose first tag `t` follows the text `a`: the ids
      inside `t`, and the description without `t` and without the tags
      after it. */
  lemma PciFieldsTagged(address: string, d: string, a: string, t: string, b: string)
    requires |t| == 11 && TagAt(t, 0) && d == a + t + b
    requires forall i :: 0 <= i < |a| ==> !TagAt(d, i)
    ensures GetString(PciFields(address, d), "vendor_id") == t[1..5]
    ensures GetString(PciFields(address, d), "device_id") == t[6..10]
    ensures GetString(PciFields(address, d), "description") == Trim(a + RemoveTags(b))
  {
    RemoveFirstTag(a, t, b);
    var vendor, device := Str(d[|a| + 1..|a| + 5]), Str(d[|a| + 6..|a| + 10]);
    assert "vendor_id" != "device_id";
    assert "description" != "device_id" && "description" != "vendor_id";
    UpdatedTwice(PciBase(address, Trim(a + RemoveTags(b))), "vendor_id", vendor, "device_id", device, "description");
    assert d[|a| + 1..|a| + 5] == t[1..5];
    assert d[|a| + 6..|a| + 10] == t[6..10];
  }

  /** A description without a tag: no ids, and the description trimmed. */
  lemma PciFieldsUntagged(address: string, d: string)
    requires forall i :: 0 <= i < |d| ==> !TagAt(d, i)
    ensures var r := PciFields(address, d);
      && "vendor_id" !in r && "device_id" !in r
      && GetString(r, "description") == Trim(d)
  {
  }

  /** An lspci line `<address> <text>`: the address and the fields of the
      text. */
  lemma LspciOfLine(line: string, addr: string, d: string)
    requires addr != [] && forall k :: 0 <= k < |addr| ==> IsPciAddressChar(addr[k])
    requires d != [] && !IsSpace(d[0])
    requires line == addr + " " + d
    ensures ParseLspciOutput(line) == PciFields(addr, d)
  {
    LspciPrefix(line, addr, d);
  }

  /** The first field of `<address> <text>` is the address, there is a
      second one, and the prefix the parser removes ends at the text. */
  lemma LspciPrefix(line: string, addr: string, d: string)
    requires addr != [] && forall k :: 0 <= k < |addr| ==> IsPciAddressChar(addr[k])
    requires d != [] && !IsSpace(d[0])
    requires line == addr + " " + d
    ensures |SplitSkipEmpty(line, " ")| >= 2 && SplitSkipEmpty(line, " ")[0] == addr
    ensures PciPrefix(line) == |addr| + 1 && line[PciPrefix(line)..] == d
  {
    LspciFields(line, addr, d);
    assert !IsRegexSpace(d[0]);
    assert line == addr + (" " + d);
    PciPrefixOf(addr, " ", d);
  }

  /** The fields of `<address> <text>` start with the address and a word of
      the text. */
  lemma LspciFields(line: string, addr: string, d: string)
    requires addr != [] && forall k :: 0 <= k < |addr| ==> IsPciAddressChar(addr[k])
    requires d != [] && !IsSpace(d[0])
    requires line == addr + " " + d
    ensures |SplitSkipEmpty(line, " ")| >= 2 && SplitSkipEmpty(line, " ")[0] == addr
  {
    assert ' ' !in addr by {
      assert !IsPciAddressChar(' ');
    }
    assert line == addr + [' '] + d;
    SplitAtFirst(addr, ' ', d);
    assert d[0] != ' ';
    SplitHeadNonEmpty(d, ' ');
    var rest := Split(d, " ");
    assert Split(line, " ") == [addr] + rest;
    assert ([addr] + rest)[1..] == rest;
    assert NonEmpty(rest) == [rest[0]] + NonEmpty(rest[1..]);
    assert SplitSkipEmpty(line, " ") == [addr] + NonEmpty(rest);
  }

  // ---------------------------------------------------------------------
  // The lsusb scan

  /** The lines the lsusb scan parses. */
  predicate IsUsbLine(line: string) {
    StartsWith(line, "Bus ")
  }

  /** Found, one line further. */
  lemma FoundStep(lines: seq<string>, i: nat, keep: string -> bool, parse: string -> Object)
    requires i < |lines|
    ensures Found(lines[..i + 1], keep, parse)
         == Found(lines[..i], keep, parse)
            + (if keep(lines[i]) && parse(lines[i]) != map[] then [parse(lines[i])] else [])
  {
    assert lines[..i + 1][..i] == lines[..i];
  }

  /** scanUSBDevices: on failure an error, otherwise the records of the
      lines starting with `Bus ` that parse, in order. */
  method ScanUsbDevices(exitCode: int, output: string) returns (outcome: ScanOutcome)
    ensures exitCode != 0 ==> outcome == ScanFailed("Failed to run lsusb")
    ensures exitCode == 0 ==> outcome == Scanned(Found(Lines(output), IsUsbLine, ParseLsusbOutput))
  {
    if exitCode != 0 {
      return ScanFailed("Failed to run lsusb");
    }
    var lines := Lines(output);
    var found: seq<Object> := [];
    var i := 0;
    while i < |lines|
      invariant i <= |lines|
      invariant found == Found(lines[..i], IsUsbLine, ParseLsusbOutput)
    {
      FoundStep(lines, i, IsUsbLine, ParseLsusbOutput);
      var line := lines[i];
      if StartsWith(line, "Bus ") {
        var device := ParseLsusbOutput(line);
        if device != map[] {
          found := found + [device];
        }
      }
      i := i + 1;
    }
    assert lines[..i] == lines;
    return Scanned(found);
  }

  /** Every device the lsusb scan emits is a detected USB device with a bus,
      a device number and a description. */
  lemma ScannedUsbDevices(output: string, o: Object)
    requires o in Found(Lines(output), IsUsbLine, ParseLsusbOutput)
    ensures GetString(o, "type") == "usb" && GetString(o, "status") == "detected"
    ensures "bus" in o && "device" in o && "description" in o
  {
    FoundMembers(Lines(output), IsUsbLine, ParseLsusbOutput, o);
  }

  /** A well-formed lsusb line anywhere in the output is emitted with its
      fields. */
  lemma UsbLineScanned(lines: seq<string>, i: nat, bus: string, dev: string, vid: string, pid: string, words: seq<string>)
    requires IsDigits(bus) && IsDigits(dev) && IsHexWord(vid) && IsHexWord(pid) && AreTokens(words)
    requires i < |lines| && lines[i] == UsbText(bus, dev, vid + ":" + pid + " " + Join(words, " "))
    ensures UsbRecord(bus, dev, vid, pid, Join(words, " ")) in Found(lines, IsUsbLine, ParseLsusbOutput)
  {
    UsbLineKept(lines[i], bus, dev, vid, pid, words);
    FoundAt(lines, i, IsUsbLine, ParseLsusbOutput);
  }

  /** A well-formed lsusb line is one the scan parses, and it parses to its
      fields. */
  lemma UsbLineKept(line: string, bus: string, dev: string, vid: string, pid: string, words: seq<string>)
    requires IsDigits(bus) && IsDigits(dev) && IsHexWord(vid) && IsHexWord(pid) && AreTokens(words)
    requires line == UsbText(bus, dev, vid + ":" + pid + " " + Join(words, " "))
    ensures IsUsbLine(line) && ParseLsusbOutput(line) == UsbRecord(bus, dev, vid, pid, Join(words, " "))
  {
    LsusbOfLine(line, bus, dev, vid, pid, words);
    assert line[..4] == "Bus ";
  }

  /** A kept line that parses to a non-empty object is emitted. */
  lemma FoundAt(lines: seq<string>, i: nat, keep: string -> bool, parse: string -> Object)
    requires i < |lines| && keep(lines[i]) && parse(lines[i]) != map[]
    ensures parse(lines[i]) in Found(lines, keep, parse)
  {
    FoundMembers(lines, keep, parse, parse(lines[i]));
  }

  // ---------------------------------------------------------------------
  // The lspci scan

  /** What the lspci scan holds between lines: the devices emitted so far and
      the device being read. */
  datatype PciState = PciState(found: seq<Object>, current: Object)

  /** The current device is emitted when it is not empty. */
  function Emit(found: seq<Object>, current: Object): (r: seq<Object>)
    ensures current == map[] ==> r == found
    ensures current != map[] ==> r == found + [current]
  {
    found + (if current != map[] then [current] else [])
  }

  /** One line of `lspci -nnv`: a line that is not empty and not indented
      starts a new device, emitting the previous one; an indented line adds
      the kernel driver (and marks the device loaded) or the kernel modules
      to the current device; other lines are skipped. */
  function PciStep(st: PciState, line: string): PciState {
    if !StartsWith(line, "\t") && line != [] then
      PciState(Emit(st.found, st.current), ParseLspciOutput(line))
    else if StartsWith(line, "\t") then
      if Contains(line, "Kernel driver in use:") then
        PciState(st.found, st.current["driver" := Str(Trim(AfterLast(line, ":")))]["status" := Str("loaded")])
      else if Contains(line, "Kernel modules:") then
        PciState(st.found, st.current["modules" := Str(Trim(AfterLast(line, ":")))])
      else st
    else st
  }

  /** The state after the given lines. */
  function PciScan(lines: seq<string>): PciState {
    if lines == [] then PciState([], map[])
    else PciStep(PciScan(lines[..|lines| - 1]), lines[|lines| - 1])
  }

  /** What the lspci scan emits for its lines: the devices found, and the
      last device when it is not empty. */
  function PciDevices(lines: seq<string>): seq<Object> {
    var st := PciScan(lines);
    Emit(st.found, st.current)
  }

  /** scanPCIDevices: on failure an error, otherwise the devices read from
      the output of `lspci -nnv`, in order. */
  method ScanPciDevices(exitCode: int, output: string) returns (outcome: ScanOutcome)
    ensures exitCode != 0 ==> outcome == ScanFailed("Failed to run lspci")
    ensures exitCode == 0 ==> outcome == Scanned(PciDevices(Lines(output)))
  {
    if exitCode != 0 {
      return ScanFailed("Failed to run lspci");
    }
    var lines := Lines(output);
    var found: seq<Object> := [];
    var currentDevice: Object := map[];
    var i := 0;
    while i < |lines|
      invariant i <= |lines|
      invariant PciState(found, currentDevice) == PciScan(lines[..i])
    {
      assert lines[..i + 1][..i] == lines[..i];
      var line := lines[i];
      if !StartsWith(line, "\t") && line != [] {
        if currentDevice != map[] {
          found := found + [currentDevice];
        }
        currentDevice := ParseLspciOutput(line);
      } else if StartsWith(line, "\t") {
        if Contains(line, "Kernel driver in use:") {
          var driver := Trim(AfterLast(line, ":"));
          currentDevice := currentDevice["driver" := Str(driver)];
          currentDevice := currentDevice["status" := Str("loaded")];
        } else if Contains(line, "Kernel modules:") {
          var modules := Trim(AfterLast(line, ":"));
          currentDevice := currentDevice["modules" := Str(modules)];
        }
      }
      i := i + 1;
    }
    assert lines[..i] == lines;
    if currentDevice != map[] {
      found := found + [currentDevice];
    }
    return Scanned(found);
  }

  /** Without indented lines the lspci scan is the line-by-line scan: each
      non-empty line that parses is one device. */
  lemma {:induction false} PciScanPlain(lines: seq<string>)
    requires forall k :: 0 <= k < |lines| ==> !StartsWith(lines[k], "\t")
    ensures PciDevices(lines) == Found(lines, NonEmptyLine, ParseLspciOutput)
    decreases |lines|
  {
    if lines != [] {
      var init := lines[..|lines| - 1];
      assert forall k :: 0 <= k < |init| ==> init[k] == lines[k];
      PciScanPlain(init);
    }
  }

  /** The kernel-driver line of the current device: the driver is the text
      after the colon, trimmed, and the device is marked loaded. */
  lemma PciDriverLine(st: PciState, x: string)
    requires ':' !in x
    ensures PciStep(st, "\tKernel driver in use:" + x)
         == PciState(st.found, st.current["driver" := Str(Trim(x))]["status" := Str("loaded")])
  {
    var line := "\tKernel driver in use:" + x;
    PciLiterals();
    assert line == "\t" + "Kernel driver in use:" + x;
    assert line[..1] == "\t";
    ContainsInfix("\t", "Kernel driver in use:", x);
    assert line == "\tKernel driver in use" + [':'] + x;
    AfterLastAfterSep("\tKernel driver in use", ':', x);
  }

  lemma PciLiterals()
    ensures "\tKernel driver in use:" == "\t" + "Kernel driver in use:"
    ensures "\tKernel driver in use:" == "\tKernel driver in use" + [':']
  {
  }

  /** A device line followed by its kernel-driver line: the device is
      emitted with that driver and as loaded. */
  lemma PciDeviceWithDriver(lines: seq<string>, device: string, x: string, all: seq<string>)
    requires device != [] && !StartsWith(device, "\t") && ':' !in x
    requires ParseLspciOutput(device) != map[]
    requires all == lines + [device, "\tKernel driver in use:" + x]
    ensures PciDevices(all)
         == PciDevices(lines) + [ParseLspciOutput(device)["driver" := Str(Trim(x))]["status" := Str("loaded")]]
  {
    assert all[..|all| - 1] == lines + [device];
    assert (lines + [device])[..|lines|] == lines;
    var st := PciStep(PciScan(lines), device);
    assert PciScan(lines + [device]) == st;
    assert st == PciState(PciDevices(lines), ParseLspciOutput(device));
    PciDriverLine(st, x);
  }

  /** A kernel-driver line before any device line is not attached to a
      device: the scan emits an object holding only the driver and the
      loaded status. */
  lemma PciDriverWithoutDevice(x: string)
    requires ':' !in x
    ensures PciDevices(["\tKernel driver in use:" + x])
         == [map["driver" := Str(Trim(x)), "status" := Str("loaded")]]
  {
    var lines := ["\tKernel driver in use:" + x];
    assert lines[..0] == [];
    assert PciScan([]) == PciState([], map[]);
    PciDriverLine(PciState([], map[]), x);
    var device := map["driver" := Str(Trim(x)), "status" := Str("loaded")];
    assert PciScan(lines) == PciState([], device);
    assert "driver" in device;
    assert Emit([], device) == [device];
  }
}
