/** The Qt string operations that the parsers of the system-manager tabs rely
    on (QString::split, trimmed, startsWith, contains, lastIndexOf, toLower,
    number rendering and QString::toInt), stated over seq<char>. */
module Text {

  datatype Option<T> = None | Some(value: T)

  /** QChar::isSpace: ASCII white space, NEL, NO-BREAK SPACE, the Unicode
      space separators and the line/paragraph separators. */
  predicate IsSpace(c: char) {
    || c == ' ' || c == '\t' || c == '\n' || c == '\r' || c == '\U{000B}' || c == '\U{000C}'
    || c == '\U{0085}' || c == '\U{00A0}' || c == '\U{1680}'
    || ('\U{2000}' <= c <= '\U{200A}')
    || c == '\U{2028}' || c == '\U{2029}' || c == '\U{202F}' || c == '\U{205F}' || c == '\U{3000}'
  }

  /** The class `\s` of a QRegularExpression (no Unicode-properties option):
      ASCII white space only. */
  predicate IsRegexSpace(c: char) {
    c == ' ' || c == '\t' || c == '\n' || c == '\r' || c == '\U{000B}' || c == '\U{000C}'
  }

  /** The class `\d` of a QRegularExpression: ASCII digits. */
  predicate IsDigit(c: char) {
    '0' <= c <= '9'
  }

  predicate IsDigits(s: string) {
    |s| > 0 && forall i :: 0 <= i < |s| ==> IsDigit(s[i])
  }

  // ---------------------------------------------------------------------
  // Prefixes, occurrences, containment

  /** QString::startsWith (case sensitive). */
  predicate StartsWith(s: string, prefix: string) {
    |prefix| <= |s| && s[..|prefix|] == prefix
  }

  /** `pat` occurs in `s` starting at index `i`. */
  predicate OccursAt(s: string, pat: string, i: int) {
    0 <= i && i + |pat| <= |s| && s[i..i + |pat|] == pat
  }

  /** QString::indexOf(pat, from): the leftmost occurrence at or after `from`. */
  function IndexOfFrom(s: string, pat: string, from: nat): (r: Option<nat>)
    requires from <= |s|
    ensures r.Some? ==> from <= r.value && OccursAt(s, pat, r.value)
    ensures r.Some? ==> forall j :: from <= j < r.value ==> !OccursAt(s, pat, j)
    ensures r.None? ==> forall j :: from <= j ==> !OccursAt(s, pat, j)
    decreases |s| - from
  {
    if from + |pat| > |s| then None
    else if s[from..from + |pat|] == pat then Some(from)
    else IndexOfFrom(s, pat, from + 1)
  }

  function IndexOf(s: string, pat: string): (r: Option<nat>)
    ensures r.Some? ==> OccursAt(s, pat, r.value)
    ensures r.Some? ==> forall j :: 0 <= j < r.value ==> !OccursAt(s, pat, j)
    ensures r.None? ==> forall j :: 0 <= j ==> !OccursAt(s, pat, j)
  {
    IndexOfFrom(s, pat, 0)
  }

  /** QString::contains (case sensitive): `pat` occurs somewhere in `s`. */
  predicate Contains(s: string, pat: string) {
    exists i :: 0 <= i <= |s| && OccursAt(s, pat, i)
  }

  lemma ContainsWitness(s: string, pat: string, i: int)
    requires OccursAt(s, pat, i)
    ensures Contains(s, pat)
  {
  }

  /** `contains` holds exactly when `indexOf` finds an occurrence. */
  lemma ContainsIndexOf(s: string, pat: string)
    ensures Contains(s, pat) <==> IndexOf(s, pat).Some?
  {
    if IndexOf(s, pat).Some? {
      ContainsWitness(s, pat, IndexOf(s, pat).value);
    }
  }

  lemma ContainsInfix(a: string, pat: string, b: string)
    ensures Contains(a + pat + b, pat)
  {
    assert (a + pat + b)[|a|..|a| + |pat|] == pat;
    ContainsWitness(a + pat + b, pat, |a|);
  }

  /** A single character `c` occurs in `s` exactly when it is an element of `s`. */
  lemma ContainsChar(s: string, c: char)
    ensures Contains(s, [c]) <==> c in s
  {
    if c in s {
      var i :| 0 <= i < |s| && s[i] == c;
      assert s[i..i + 1] == [c];
      ContainsWitness(s, [c], i);
    }
    if Contains(s, [c]) {
      var i :| 0 <= i <= |s| && OccursAt(s, [c], i);
      assert s[i..i + 1] == [c];
      assert s[i] == c;
    }
  }

  // ---------------------------------------------------------------------
  // Case folding

  /** QString::toLower restricted to ASCII letters. */
  function LowerChar(c: char): char {
    if 'A' <= c <= 'Z' then (c as int + 32) as char else c
  }

  function Lower(s: string): (r: string)
    ensures |r| == |s|
    ensures forall i :: 0 <= i < |s| ==> r[i] == LowerChar(s[i])
  {
    seq(|s|, i requires 0 <= i < |s| => LowerChar(s[i]))
  }

  /** QString::contains(pat, Qt::CaseInsensitive), with ASCII case folding. */
  lemma LowerAppend(a: string, b: string)
    ensures Lower(a + b) == Lower(a) + Lower(b)
  {
    assert forall i :: 0 <= i < |a + b| ==> Lower(a + b)[i] == (Lower(a) + Lower(b))[i];
  }

  lemma LowerIdempotent(s: string)
    ensures Lower(Lower(s)) == Lower(s)
  {
    assert forall i :: 0 <= i < |s| ==> Lower(Lower(s))[i] == Lower(s)[i];
  }

  predicate ContainsCI(s: string, pat: string) {
    Contains(Lower(s), Lower(pat))
  }

  // ---------------------------------------------------------------------
  // Trimming

  function TrimStart(s: string): string
  {
    if s != [] && IsSpace(s[0]) then TrimStart(s[1..]) else s
  }

  function TrimEnd(s: string): string
  {
    if s != [] && IsSpace(s[|s| - 1]) then TrimEnd(s[..|s| - 1]) else s
  }

  /** QString::trimmed: white space removed from both ends. */
  function Trim(s: string): string {
    TrimEnd(TrimStart(s))
  }

  /** TrimStart removes exactly the leading white space. */
  lemma {:induction false} TrimStartSpec(s: string)
    ensures var r := TrimStart(s);
      && |r| <= |s| && r == s[|s| - |r|..]
      && (r != [] ==> !IsSpace(r[0]))
      && (forall i :: 0 <= i < |s| - |r| ==> IsSpace(s[i]))
    decreases |s|
  {
    if s != [] && IsSpace(s[0]) {
      TrimStartSpec(s[1..]);
      var r := TrimStart(s);
      forall i | 1 <= i < |s| - |r| ensures IsSpace(s[i]) {
        assert s[i] == s[1..][i - 1];
      }
    }
  }

  /** TrimEnd removes exactly the trailing white space. */
  lemma {:induction false} TrimEndSpec(s: string)
    ensures var r := TrimEnd(s);
      && |r| <= |s| && r == s[..|r|]
      && (r != [] ==> !IsSpace(r[|r| - 1]))
      && (forall i :: |r| <= i < |s| ==> IsSpace(s[i]))
    decreases |s|
  {
    if s != [] && IsSpace(s[|s| - 1]) {
      TrimEndSpec(s[..|s| - 1]);
      var r := TrimEnd(s);
      forall i | |r| <= i < |s| - 1 ensures IsSpace(s[i]) {
        assert s[i] == s[..|s| - 1][i];
      }
    }
  }

  /** A trimmed string is an infix of the original with no white space at
      either end, and only white space was removed. */
  lemma TrimSpec(s: string)
    ensures var r := Trim(s);
      && (r != [] ==> !IsSpace(r[0]) && !IsSpace(r[|r| - 1]))
      && (exists k :: OccursAt(s, r, k)
            && (forall i :: 0 <= i < k ==> IsSpace(s[i]))
            && (forall i :: k + |r| <= i < |s| ==> IsSpace(s[i])))
  {
    var t := TrimStart(s);
    TrimStartSpec(s);
    TrimEndSpec(t);
    TrimmedInfix(s, t, TrimEnd(t));
  }

  /** The two trimming steps combined, on plain strings. */
  lemma TrimmedInfix(s: string, t: string, r: string)
    requires |t| <= |s| && t == s[|s| - |t|..]
    requires forall i :: 0 <= i < |s| - |t| ==> IsSpace(s[i])
    requires t != [] ==> !IsSpace(t[0])
    requires |r| <= |t| && r == t[..|r|]
    requires forall i :: |r| <= i < |t| ==> IsSpace(t[i])
    requires r != [] ==> !IsSpace(r[|r| - 1])
    ensures r != [] ==> !IsSpace(r[0]) && !IsSpace(r[|r| - 1])
    ensures exists k :: (OccursAt(s, r, k)
                         && (forall i :: 0 <= i < k ==> IsSpace(s[i]))
                         && (forall i :: k + |r| <= i < |s| ==> IsSpace(s[i])))
  {
    var k := |s| - |t|;
    assert s[k..k + |r|] == r;
    assert OccursAt(s, r, k);
    forall i | k + |r| <= i < |s| ensures IsSpace(s[i]) {
      assert s[i] == t[i - k];
    }
    if r != [] {
      assert r[0] == t[0];
    }
  }

  /** A string with no white space at its ends is its own trimmed form. */
  lemma TrimNoop(s: string)
    requires s != [] ==> !IsSpace(s[0]) && !IsSpace(s[|s| - 1])
    ensures Trim(s) == s
  {
  }

  lemma {:induction false} TrimIdempotent(s: string)
    ensures Trim(Trim(s)) == Trim(s)
  {
    TrimSpec(s);
    TrimNoop(Trim(s));
  }

  // ---------------------------------------------------------------------
  // Splitting and joining

  /** QString::split(sep) (Qt::KeepEmptyParts) for a non-empty separator:
      the pieces between the leftmost non-overlapping occurrences of `sep`. */
  function Split(s: string, sep: string): (r: seq<string>)
    requires sep != []
    ensures |r| >= 1
    decreases |s|
  {
    match IndexOf(s, sep)
    case None => [s]
    case Some(i) => [s[..i]] + Split(s[i + |sep|..], sep)
  }

  /** QStringList::join(sep). */
  function Join(parts: seq<string>, sep: string): string
  {
    if parts == [] then []
    else if |parts| == 1 then parts[0]
    else parts[0] + sep + Join(parts[1..], sep)
  }

  lemma JoinCons(head: string, tail: seq<string>, sep: string)
    requires |tail| >= 1
    ensures Join([head] + tail, sep) == head + sep + Join(tail, sep)
  {
    assert ([head] + tail)[1..] == tail;
  }

  /** Splitting and joining back with the same separator gives the input. */
  lemma {:induction false} JoinSplit(s: string, sep: string)
    requires sep != []
    ensures Join(Split(s, sep), sep) == s
    decreases |s|
  {
    match IndexOf(s, sep)
    case None =>
      assert Split(s, sep) == [s];
    case Some(i) =>
      var rest := s[i + |sep|..];
      assert Split(s, sep) == [s[..i]] + Split(rest, sep);
      JoinSplit(rest, sep);
      JoinCons(s[..i], Split(rest, sep), sep);
      assert s[i..i + |sep|] == sep;
      assert s == s[..i] + sep + rest;
  }

  /** No piece of a split contains the separator. */
  lemma {:induction false} SplitPiecesFree(s: string, sep: string)
    requires sep != []
    ensures forall k :: 0 <= k < |Split(s, sep)| ==> !Contains(Split(s, sep)[k], sep)
    decreases |s|
  {
    match IndexOf(s, sep)
    case None =>
    case Some(i) =>
      SplitPiecesFree(s[i + |sep|..], sep);
      var head := s[..i];
      if Contains(head, sep) {
        var j :| 0 <= j <= |head| && OccursAt(head, sep, j);
        assert s[j..j + |sep|] == head[j..j + |sep|];
        assert OccursAt(s, sep, j);
      }
  }

  /** Splitting at a character that does not occur in the first piece cuts
      that piece off first. */
  lemma SplitAtFirst(a: string, c: char, b: string)
    requires c !in a
    ensures Split(a + [c] + b, [c]) == [a] + Split(b, [c])
  {
    var s := a + [c] + b;
    assert OccursAt(s, [c], |a|);
    forall j | 0 <= j < |a| ensures !OccursAt(s, [c], j) {
      assert s[j] == a[j];
    }
    assert IndexOf(s, [c]) == Some(|a|);
    assert s[..|a|] == a;
    assert s[|a| + 1..] == b;
  }

  /** Joining pieces that do not contain the one-character separator and
      splitting again gives back the pieces. */
  lemma {:induction false} SplitJoin(parts: seq<string>, c: char)
    requires |parts| >= 1
    requires forall k :: 0 <= k < |parts| ==> c !in parts[k]
    ensures Split(Join(parts, [c]), [c]) == parts
    decreases |parts|
  {
    var s := Join(parts, [c]);
    var p := parts[0];
    ContainsChar(p, c);
    if |parts| == 1 {
      ContainsChar(s, c);
      assert IndexOf(s, [c]).None?;
    } else {
      var rest := Join(parts[1..], [c]);
      assert s == p + [c] + rest;
      assert OccursAt(s, [c], |p|);
      forall j | 0 <= j < |p| ensures !OccursAt(s, [c], j) {
        assert s[j] == p[j];
      }
      assert IndexOf(s, [c]) == Some(|p|);
      assert s[..|p|] == p;
      assert s[|p| + 1..] == rest;
      SplitJoin(parts[1..], c);
    }
  }

  /** The pieces of a split that are not empty (Qt::SkipEmptyParts). */
  function NonEmpty(parts: seq<string>): (r: seq<string>)
    ensures |r| <= |parts|
    ensures forall k :: 0 <= k < |r| ==> r[k] != [] && r[k] in parts
  {
    if parts == [] then []
    else if parts[0] == [] then NonEmpty(parts[1..])
    else [parts[0]] + NonEmpty(parts[1..])
  }

  /** QString::split(sep, Qt::SkipEmptyParts). */
  function SplitSkipEmpty(s: string, sep: string): seq<string>
    requires sep != []
  {
    NonEmpty(Split(s, sep))
  }

  /** Lines of a text: QString::split('\n'). */
  function Lines(s: string): seq<string> {
    Split(s, "\n")
  }

  /** `split(":").last()`: the text after the last occurrence of `sep`, or
      the whole string when `sep` does not occur. */
  function AfterLast(s: string, sep: string): (r: string)
    requires sep != []
  {
    var parts := Split(s, sep);
    parts[|parts| - 1]
  }

  /** AfterLast is a suffix of its input that does not contain the separator. */
  lemma AfterLastSpec(s: string, sep: string)
    requires sep != []
    ensures var r := AfterLast(s, sep);
      |r| <= |s| && s[|s| - |r|..] == r && !Contains(r, sep)
  {
    SplitPiecesFree(s, sep);
    AfterLastSuffix(s, sep);
  }

  lemma {:induction false} AfterLastSuffix(s: string, sep: string)
    requires sep != []
    ensures var r := AfterLast(s, sep); |r| <= |s| && s[|s| - |r|..] == r
    decreases |s|
  {
    match IndexOf(s, sep)
    case None =>
    case Some(i) =>
      var rest := s[i + |sep|..];
      AfterLastSuffix(rest, sep);
      assert AfterLast(s, sep) == AfterLast(rest, sep);
  }

  /** The text after a separator character is what `split(c).last()`
      gives when that text holds no further separator. */
  lemma {:induction false} AfterLastAfterSep(a: string, c: char, b: string)
    requires c !in b
    ensures AfterLast(a + [c] + b, [c]) == b
    decreases |a|
  {
    var s := a + [c] + b;
    assert OccursAt(s, [c], |a|);
    var i := IndexOf(s, [c]).value;
    var rest := s[i + 1..];
    assert Split(s, [c]) == [s[..i]] + Split(rest, [c]);
    if i == |a| {
      assert rest == b;
      forall j ensures !OccursAt(b, [c], j) {
        if 0 <= j && j + 1 <= |b| {
          assert b[j..j + 1] == [b[j]];
        }
      }
      assert IndexOf(b, [c]) == None;
    } else {
      assert rest == a[i + 1..] + [c] + b;
      AfterLastAfterSep(a[i + 1..], c, b);
    }
  }

  /** QString::split(QRegularExpression("\\s+")): the pieces between maximal
      runs of white space, keeping an empty piece before leading and after
      trailing white space. */
  function SplitWs(s: string): (r: seq<string>)
    ensures |r| >= 1
    decreases |s|
  {
    match FirstRegexSpace(s, 0)
    case None => [s]
    case Some(i) =>
      var j := EndOfSpaceRun(s, i);
      [s[..i]] + SplitWs(s[j..])
  }

  /** Index of the first regex white-space character at or after `from`. */
  function FirstRegexSpace(s: string, from: nat): (r: Option<nat>)
    requires from <= |s|
    ensures r.Some? ==> from <= r.value < |s| && IsRegexSpace(s[r.value])
    ensures r.Some? ==> forall j :: from <= j < r.value ==> !IsRegexSpace(s[j])
    ensures r.None? ==> forall j :: from <= j < |s| ==> !IsRegexSpace(s[j])
    decreases |s| - from
  {
    if from == |s| then None
    else if IsRegexSpace(s[from]) then Some(from)
    else FirstRegexSpace(s, from + 1)
  }

  /** The end of the maximal run of regex white space starting at `i`. */
  function EndOfSpaceRun(s: string, i: nat): (j: nat)
    requires i <= |s|
    ensures i <= j <= |s|
    ensures forall k :: i <= k < j ==> IsRegexSpace(s[k])
    ensures j < |s| ==> !IsRegexSpace(s[j])
    decreases |s| - i
  {
    if i < |s| && IsRegexSpace(s[i]) then EndOfSpaceRun(s, i + 1) else i
  }

  /** No piece of a white-space split contains white space. */
  lemma {:induction false} SplitWsPiecesFree(s: string)
    ensures forall k, j :: 0 <= k < |SplitWs(s)| && 0 <= j < |SplitWs(s)[k]| ==> !IsRegexSpace(SplitWs(s)[k][j])
    decreases |s|
  {
    match FirstRegexSpace(s, 0)
    case None =>
    case Some(i) =>
      SplitWsPiecesFree(s[EndOfSpaceRun(s, i)..]);
  }

  /** QString::split(QRegularExpression("\\s+"), Qt::SkipEmptyParts). */
  function Fields(s: string): seq<string> {
    NonEmpty(SplitWs(s))
  }

  /** A non-empty word without white space. */
  predicate IsWord(w: string) {
    w != [] && forall j :: 0 <= j < |w| ==> !IsRegexSpace(w[j])
  }

  lemma JoinPrefix(parts: seq<string>, sep: string)
    requires |parts| >= 1
    ensures |parts[0]| <= |Join(parts, sep)| && Join(parts, sep)[..|parts[0]|] == parts[0]
  {
  }

  /** The last piece of a join ends it. */
  lemma {:induction false} JoinSuffix(parts: seq<string>, sep: string)
    requires |parts| >= 1
    ensures var j := Join(parts, sep); var l := parts[|parts| - 1];
      |l| <= |j| && j[|j| - |l|..] == l
    decreases |parts|
  {
    if |parts| > 1 {
      JoinSuffix(parts[1..], sep);
    }
  }

  /** The first piece of a split of a string that does not start with the
      separator is not empty. */
  lemma SplitHeadNonEmpty(s: string, c: char)
    requires s != [] && s[0] != c
    ensures Split(s, [c])[0] != []
  {
    assert !OccursAt(s, [c], 0);
  }

  lemma NonEmptyKeeps(parts: seq<string>)
    requires forall k :: 0 <= k < |parts| ==> parts[k] != []
    ensures NonEmpty(parts) == parts
  {
  }

  /** Words joined by single spaces split back into the same words, with or
      without skipping empty pieces. */
  lemma {:induction false} FieldsOfWords(words: seq<string>)
    requires |words| >= 1
    requires forall k :: 0 <= k < |words| ==> IsWord(words[k])
    ensures SplitWs(Join(words, " ")) == words
    ensures Fields(Join(words, " ")) == words
    decreases |words|
  {
    var s := Join(words, " ");
    var w := words[0];
    if |words| == 1 {
      assert s == w;
      assert forall j :: 0 <= j < |s| ==> !IsRegexSpace(s[j]);
    } else {
      var rest := Join(words[1..], " ");
      assert s == w + " " + rest;
      JoinPrefix(words[1..], " ");
      assert rest[0] == words[1][0];
      assert s[|w|] == ' ';
      assert forall j :: 0 <= j < |w| ==> s[j] == w[j];
      assert forall j :: 0 <= j < |w| ==> !IsRegexSpace(s[j]);
      assert IsRegexSpace(s[|w|]);
      assert FirstRegexSpace(s, 0) == Some(|w|);
      var e := EndOfSpaceRun(s, |w|);
      assert s[|w| + 1] == rest[0];
      assert !IsRegexSpace(s[|w| + 1]);
      assert e == |w| + 1;
      assert s[..|w|] == w;
      assert s[e..] == rest;
      FieldsOfWords(words[1..]);
      assert SplitWs(s) == [w] + SplitWs(rest);
    }
    NonEmptyKeeps(words);
  }

  // ---------------------------------------------------------------------
  // Decimal numbers

  function DigitChar(d: nat): char
    requires d < 10
  {
    ('0' as int + d) as char
  }

  /** QString::number / QString::arg for a non-negative integer. */
  function NatToString(n: nat): (r: string)
    ensures IsDigits(r)
    ensures |r| > 1 ==> r[0] != '0'
    decreases n
  {
    if n < 10 then [DigitChar(n)] else NatToString(n / 10) + [DigitChar(n % 10)]
  }

  /** QString::number / QString::arg for any integer. */
  function IntToString(i: int): string {
    if i < 0 then "-" + NatToString(-i) else NatToString(i)
  }

  /** The value of a string of decimal digits. */
  function ParseDigits(s: string): nat
    requires forall i :: 0 <= i < |s| ==> IsDigit(s[i])
    decreases |s|
  {
    if s == [] then 0
    else ParseDigits(s[..|s| - 1]) * 10 + DigitValue(s[|s| - 1])
  }

  function DigitValue(c: char): nat
    requires IsDigit(c)
  {
    c as int - '0' as int
  }

  /** Rendering a number and reading it back gives the number. */
  lemma {:induction false} ParseNatToString(n: nat)
    ensures ParseDigits(NatToString(n)) == n
    decreases n
  {
    if n >= 10 {
      ParseNatToString(n / 10);
      var s := NatToString(n);
      assert s[..|s| - 1] == NatToString(n / 10);
    }
  }

  /** Decimal rendering is injective. */
  lemma NatToStringInjective(m: nat, n: nat)
    requires NatToString(m) == NatToString(n)
    ensures m == n
  {
    ParseNatToString(m);
    ParseNatToString(n);
  }

  /** QString::toInt on a string of ASCII digits: its value when it fits a
      32-bit int, otherwise 0 (conversion failure). */
  function ToInt32(s: string): (r: int)
    requires IsDigits(s)
    ensures 0 <= r <= 0x7FFF_FFFF
    ensures r == ParseDigits(s) || (r == 0 && ParseDigits(s) > 0x7FFF_FFFF)
  {
    var v := ParseDigits(s);
    if v <= 0x7FFF_FFFF then v else 0
  }

  // ---------------------------------------------------------------------
  // Key order of a QMap<QString, T>

  /** Lexicographic order on strings by character value. */
  predicate StrLess(a: string, b: string)
    decreases |a|
  {
    if a == [] then b != []
    else if b == [] then false
    else if a[0] < b[0] then true
    else a[0] == b[0] && StrLess(a[1..], b[1..])
  }

  lemma {:induction false} StrLessIrreflexive(a: string)
    ensures !StrLess(a, a)
    decreases |a|
  {
    if a != [] {
      StrLessIrreflexive(a[1..]);
    }
  }

  lemma {:induction false} StrLessTransitive(a: string, b: string, c: string)
    requires StrLess(a, b) && StrLess(b, c)
    ensures StrLess(a, c)
    decreases |a|
  {
    if a != [] && b != [] && c != [] && a[0] == b[0] == c[0] {
      StrLessTransitive(a[1..], b[1..], c[1..]);
    }
  }

  lemma {:induction false} StrLessTotal(a: string, b: string)
    requires a != b
    ensures StrLess(a, b) || StrLess(b, a)
    decreases |a|
  {
    if a != [] && b != [] && a[0] == b[0] {
      assert a == [a[0]] + a[1..] && b == [b[0]] + b[1..];
      StrLessTotal(a[1..], b[1..]);
    }
  }

  /** `k` is below every other key of `ks`. */
  predicate IsMinKey(ks: set<string>, k: string) {
    k in ks && forall x :: x in ks && x != k ==> StrLess(k, x)
  }

  lemma StrLessAsymmetric()
    ensures forall a, b :: !(StrLess(a, b) && StrLess(b, a))
  {
    forall a, b | StrLess(a, b) && StrLess(b, a) ensures false {
      StrLessTransitive(a, b, a);
      StrLessIrreflexive(a);
    }
  }

  /** The smallest key of a non-empty key set. */
  function MinKey(ks: set<string>): (k: string)
    requires ks != {}
    ensures IsMinKey(ks, k)
  {
    var _ := ExistsMinKey(ks);
    StrLessAsymmetric();
    var k :| IsMinKey(ks, k);
    k
  }

  /** A minimum exists, found by removing keys one at a time. */
  ghost function ExistsMinKey(ks: set<string>): (k: string)
    requires ks != {}
    ensures IsMinKey(ks, k)
    decreases |ks|
  {
    var x :| x in ks;
    if ks == {x} then x
    else
      var m := ExistsMinKey(ks - {x});
      if StrLess(x, m) then
        BelowMinimum(ks - {x}, m, x);
        x
      else
        StrLessTotal(x, m);
        m
  }

  lemma BelowMinimum(ks: set<string>, m: string, x: string)
    requires m in ks && forall y :: y in ks && y != m ==> StrLess(m, y)
    requires StrLess(x, m)
    ensures forall y :: y in ks ==> StrLess(x, y)
  {
    forall y | y in ks && y != m ensures StrLess(x, y) {
      StrLessTransitive(x, m, y);
    }
  }

  /** The keys of a key set in ascending order. */
  function SortedKeys(ks: set<string>): (r: seq<string>)
    ensures |r| == |ks|
    ensures forall k :: k in ks <==> k in r
    ensures forall i, j :: 0 <= i < j < |r| ==> StrLess(r[i], r[j])
    decreases |ks|
  {
    if ks == {} then []
    else
      var k := MinKey(ks);
      var rest := SortedKeys(ks - {k});
      [k] + rest
  }

  /** QMap::values(): the values in ascending key order. */
  function ValuesByKey<V>(m: map<string, V>): (r: seq<V>)
    ensures |r| == |m|
    ensures forall i :: 0 <= i < |r| ==> r[i] == m[SortedKeys(m.Keys)[i]]
  {
    var ks := SortedKeys(m.Keys);
    seq(|ks|, i requires 0 <= i < |ks| => m[ks[i]])
  }
}
