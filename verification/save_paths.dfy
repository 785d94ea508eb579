/**
 * MainWindow.CreateSavePath: the image file's path under the user's profile,
 * named after the time and the prompt. The prompt is sanitised by two regular
 * expression replacements and a trim; the time is formatted "yyyyMMddHHmmss";
 * the pieces are joined with Path.Combine on Windows.
 */
module SavePaths {

  // ---------------------------------------------------------------------------
  // Characters

  predicate IsAsciiAlnum(c: char) {
    'a' <= c <= 'z' || 'A' <= c <= 'Z' || '0' <= c <= '9'
  }

  /** The characters a sanitised name is made of: [A-Za-z0-9_]. */
  predicate IsNameChar(c: char) {
    IsAsciiAlnum(c) || c == '_'
  }

  predicate AllNameChars(s: string) {
    forall i :: 0 <= i < |s| ==> IsNameChar(s[i])
  }

  predicate NoDoubleUnderscore(s: string) {
    forall i :: 0 < i < |s| ==> !(s[i - 1] == '_' && s[i] == '_')
  }

  /** A sanitised name: only [A-Za-z0-9_], no "__", no '_' at either end. */
  predicate Clean(s: string) {
    AllNameChars(s) && NoDoubleUnderscore(s) && (|s| == 0 || (s[0] != '_' && s[|s| - 1] != '_'))
  }

  /** The ASCII letters and digits of `s`, in order. */
  function Alnums(s: string): string {
    if |s| == 0 then ""
    else (if IsAsciiAlnum(s[0]) then [s[0]] else "") + Alnums(s[1..])
  }

  /** `s` with every '_' removed. */
  function WithoutUnderscores(s: string): string {
    if |s| == 0 then ""
    else (if s[0] != '_' then [s[0]] else "") + WithoutUnderscores(s[1..])
  }

  // ---------------------------------------------------------------------------
  // Regex.Replace(name, "[^a-zA-Z0-9]+", "_")

  /** The length of the longest run of non-alphanumeric characters at the front. */
  function NonAlnumRun(s: string): (n: nat)
    ensures n <= |s|
    ensures n == |s| || IsAsciiAlnum(s[n])
    ensures forall i :: 0 <= i < n ==> !IsAsciiAlnum(s[i])
  {
    if |s| > 0 && !IsAsciiAlnum(s[0]) then 1 + NonAlnumRun(s[1..]) else 0
  }

  function DropLeadingNonAlnum(s: string): string {
    s[NonAlnumRun(s)..]
  }

  /** Each maximal run of characters outside [a-zA-Z0-9] becomes a single '_'. */
  function ReplaceNonAlnumRuns(s: string): (r: string)
    ensures AllNameChars(r) && NoDoubleUnderscore(r)
    ensures |s| == 0 <==> |r| == 0
    ensures |s| > 0 ==> (r[0] == '_' <==> !IsAsciiAlnum(s[0]))
    decreases |s|
  {
    if |s| == 0 then ""
    else if IsAsciiAlnum(s[0]) then [s[0]] + ReplaceNonAlnumRuns(s[1..])
    else "_" + ReplaceNonAlnumRuns(DropLeadingNonAlnum(s))
  }

  lemma {:induction false} AlnumsSkipsDropped(s: string)
    ensures Alnums(DropLeadingNonAlnum(s)) == Alnums(s)
  {
    if |s| > 0 && !IsAsciiAlnum(s[0]) {
      AlnumsSkipsDropped(s[1..]);
      assert s[1..][NonAlnumRun(s[1..])..] == s[NonAlnumRun(s)..];
    }
  }

  /** The replacement keeps every letter and digit, in order, and adds only '_'. */
  lemma {:induction false} ReplaceKeepsAlnums(s: string)
    ensures WithoutUnderscores(ReplaceNonAlnumRuns(s)) == Alnums(s)
    decreases |s|
  {
    if |s| > 0 {
      var r := ReplaceNonAlnumRuns(s);
      if IsAsciiAlnum(s[0]) {
        ReplaceKeepsAlnums(s[1..]);
        assert r[1..] == ReplaceNonAlnumRuns(s[1..]);
      } else {
        var rest := DropLeadingNonAlnum(s);
        ReplaceKeepsAlnums(rest);
        AlnumsSkipsDropped(s);
        assert r[1..] == ReplaceNonAlnumRuns(rest);
      }
    }
  }

  /** On text that is already [A-Za-z0-9_] without "__", the replacement changes nothing. */
  lemma {:induction false} ReplaceFixesNames(s: string)
    requires AllNameChars(s) && NoDoubleUnderscore(s)
    ensures ReplaceNonAlnumRuns(s) == s
  {
    if |s| > 0 {
      assert AllNameChars(s[1..]) && NoDoubleUnderscore(s[1..]) by {
        assert forall i :: 0 <= i < |s| - 1 ==> s[1..][i] == s[i + 1];
      }
      ReplaceFixesNames(s[1..]);
      if !IsAsciiAlnum(s[0]) {
        assert s[0] == '_';
        assert |s| == 1 || IsAsciiAlnum(s[1]) by {
          if |s| > 1 {
            assert IsNameChar(s[1]) && s[1] != '_';
          }
        }
        assert DropLeadingNonAlnum(s) == s[1..];
      }
      assert s == [s[0]] + s[1..];
    }
  }

  // ---------------------------------------------------------------------------
  // Regex.Replace(name, "_+", "_")

  /** The number of '_' at the front. */
  function LeadingUnderscores(s: string): (n: nat)
    ensures n <= |s|
    ensures n == |s| || s[n] != '_'
    ensures forall i :: 0 <= i < n ==> s[i] == '_'
  {
    if |s| > 0 && s[0] == '_' then 1 + LeadingUnderscores(s[1..]) else 0
  }

  /** The number of '_' at the end. */
  function TrailingUnderscores(s: string): (n: nat)
    ensures n <= |s|
    ensures n == |s| || s[|s| - 1 - n] != '_'
    ensures forall i :: |s| - n <= i < |s| ==> s[i] == '_'
  {
    if |s| > 0 && s[|s| - 1] == '_' then 1 + TrailingUnderscores(s[..|s| - 1]) else 0
  }

  function DropLeadingUnderscores(s: string): string {
    s[LeadingUnderscores(s)..]
  }

  /** Each run of '_' becomes a single '_'; nothing else changes. */
  function CollapseUnderscores(s: string): (r: string)
    ensures NoDoubleUnderscore(r)
    ensures |s| == 0 <==> |r| == 0
    ensures |s| > 0 ==> r[0] == s[0]
    ensures AllNameChars(s) ==> AllNameChars(r)
    decreases |s|
  {
    if |s| == 0 then ""
    else if s[0] == '_' then "_" + CollapseUnderscores(DropLeadingUnderscores(s))
    else
      assert AllNameChars(s) ==> AllNameChars(s[1..]) by {
        assert forall i :: 0 <= i < |s| - 1 ==> s[1..][i] == s[i + 1];
      }
      [s[0]] + CollapseUnderscores(s[1..])
  }

  /** Collapsing removes only underscores. */
  lemma {:induction false} CollapseKeepsOthers(s: string)
    ensures WithoutUnderscores(CollapseUnderscores(s)) == WithoutUnderscores(s)
    decreases |s|
  {
    if |s| > 0 {
      var r := CollapseUnderscores(s);
      if s[0] == '_' {
        var rest := DropLeadingUnderscores(s);
        CollapseKeepsOthers(rest);
        DroppedUnderscores(s);
        assert r[1..] == CollapseUnderscores(rest);
      } else {
        CollapseKeepsOthers(s[1..]);
        assert r[1..] == CollapseUnderscores(s[1..]);
      }
    }
  }

  lemma {:induction false} DroppedUnderscores(s: string)
    ensures WithoutUnderscores(DropLeadingUnderscores(s)) == WithoutUnderscores(s)
  {
    if |s| > 0 && s[0] == '_' {
      DroppedUnderscores(s[1..]);
      assert s[1..][LeadingUnderscores(s[1..])..] == s[LeadingUnderscores(s)..];
    }
  }

  /** Text without "__" is left alone; in particular the second replacement never changes the first one's output. */
  lemma {:induction false} CollapseFixesSingles(s: string)
    requires NoDoubleUnderscore(s)
    ensures CollapseUnderscores(s) == s
  {
    if |s| > 0 {
      assert NoDoubleUnderscore(s[1..]) by {
        assert forall i :: 0 <= i < |s| - 1 ==> s[1..][i] == s[i + 1];
      }
      CollapseFixesSingles(s[1..]);
      if s[0] == '_' {
        assert DropLeadingUnderscores(s) == s[1..];
      }
      assert s == [s[0]] + s[1..];
    }
  }

  lemma {:induction false} CollapseAfterReplace(s: string)
    ensures CollapseUnderscores(ReplaceNonAlnumRuns(s)) == ReplaceNonAlnumRuns(s)
  {
    CollapseFixesSingles(ReplaceNonAlnumRuns(s));
  }

  // ---------------------------------------------------------------------------
  // name.Trim('_')

  /** Removes every '_' at either end and nothing else. */
  function Trim(s: string): (r: string)
    ensures |r| == 0 || (r[0] != '_' && r[|r| - 1] != '_')
  {
    var rest := s[LeadingUnderscores(s)..];
    rest[..|rest| - TrailingUnderscores(rest)]
  }

  lemma {:induction false} WithoutUnderscoresAppend(a: string, b: string)
    ensures WithoutUnderscores(a + b) == WithoutUnderscores(a) + WithoutUnderscores(b)
  {
    if |a| > 0 {
      WithoutUnderscoresAppend(a[1..], b);
      assert (a + b)[1..] == a[1..] + b;
    } else {
      assert a + b == b;
    }
  }

  lemma {:induction false} AllUnderscores(s: string)
    requires forall i :: 0 <= i < |s| ==> s[i] == '_'
    ensures WithoutUnderscores(s) == ""
  {
    if |s| > 0 {
      AllUnderscores(s[1..]);
    }
  }

  /** Trimming removes only underscores, keeps the characters allowed and introduces no "__". */
  lemma {:induction false} TrimKeeps(s: string)
    ensures WithoutUnderscores(Trim(s)) == WithoutUnderscores(s)
    ensures AllNameChars(s) ==> AllNameChars(Trim(s))
    ensures NoDoubleUnderscore(s) ==> NoDoubleUnderscore(Trim(s))
  {
    TrimRemovesUnderscores(s);
    var a := LeadingUnderscores(s);
    var r := Trim(s);
    assert forall i :: 0 <= i < |r| ==> r[i] == s[a + i];
  }

  lemma {:induction false} TrimRemovesUnderscores(s: string)
    ensures WithoutUnderscores(Trim(s)) == WithoutUnderscores(s)
  {
    var a := LeadingUnderscores(s);
    var rest := s[a..];
    var r := Trim(s);
    var tail := rest[|r|..];
    assert s == s[..a] + r + tail;
    WithoutUnderscoresAppend(s[..a] + r, tail);
    WithoutUnderscoresAppend(s[..a], r);
    AllUnderscores(s[..a]);
    AllUnderscores(tail);
  }

  lemma {:induction false} TrimFixesClean(s: string)
    requires |s| == 0 || (s[0] != '_' && s[|s| - 1] != '_')
    ensures Trim(s) == s
  {
    assert LeadingUnderscores(s) == 0;
    assert s[0..] == s;
  }

  // ---------------------------------------------------------------------------
  // The sanitised prompt

  /** The three rewrites of CreateSavePath, in order. */
  function Sanitize(prompt: string): (r: string)
    ensures Clean(r)
    ensures WithoutUnderscores(r) == Alnums(prompt)
  {
    var replaced := ReplaceNonAlnumRuns(prompt);
    var collapsed := CollapseUnderscores(replaced);
    ReplaceKeepsAlnums(prompt);
    CollapseKeepsOthers(replaced);
    TrimKeeps(collapsed);
    Trim(collapsed)
  }

  /** A clean name sanitises to itself. */
  lemma {:induction false} SanitizeFixesClean(s: string)
    requires Clean(s)
    ensures Sanitize(s) == s
  {
    ReplaceFixesNames(s);
    CollapseFixesSingles(s);
    TrimFixesClean(s);
  }

  lemma {:induction false} SanitizeIdempotent(prompt: string)
    ensures Sanitize(Sanitize(prompt)) == Sanitize(prompt)
  {
    SanitizeFixesClean(Sanitize(prompt));
  }

  lemma {:induction false} ReplaceKeepsAlnum(c: char, rest: string)
    requires IsAsciiAlnum(c)
    ensures ReplaceNonAlnumRuns([c] + rest) == [c] + ReplaceNonAlnumRuns(rest)
  {
    assert ([c] + rest)[1..] == rest;
  }

  lemma {:induction false} ReplaceRun(run: string, rest: string)
    requires |run| > 0 && forall i :: 0 <= i < |run| ==> !IsAsciiAlnum(run[i])
    requires |rest| == 0 || IsAsciiAlnum(rest[0])
    ensures ReplaceNonAlnumRuns(run + rest) == "_" + ReplaceNonAlnumRuns(rest)
  {
    var s := run + rest;
    assert forall i :: 0 <= i < |run| ==> s[i] == run[i];
    assert |rest| > 0 ==> s[|run|] == rest[0];
    assert NonAlnumRun(s) == |run|;
    assert s[|run|..] == rest;
  }

  predicate AllAlnum(w: string) {
    forall i :: 0 <= i < |w| ==> IsAsciiAlnum(w[i])
  }

  predicate AllNonAlnum(w: string) {
    forall i :: 0 <= i < |w| ==> !IsAsciiAlnum(w[i])
  }

  lemma {:induction false} ReplaceKeepsWord(w: string, rest: string)
    requires AllAlnum(w)
    ensures ReplaceNonAlnumRuns(w + rest) == w + ReplaceNonAlnumRuns(rest)
  {
    if |w| > 0 {
      assert AllAlnum(w[1..]) by {
        assert forall i :: 0 <= i < |w| - 1 ==> w[1..][i] == w[i + 1];
      }
      ReplaceKeepsWord(w[1..], rest);
      assert w + rest == [w[0]] + (w[1..] + rest);
      ReplaceKeepsAlnum(w[0], w[1..] + rest);
      assert w == [w[0]] + w[1..];
    } else {
      assert w + rest == rest;
    }
  }

  lemma {:induction false} ReplaceWordRun(w: string, r: string, rest: string)
    requires AllAlnum(w) && |r| > 0 && AllNonAlnum(r)
    requires |rest| == 0 || IsAsciiAlnum(rest[0])
    ensures ReplaceNonAlnumRuns(w + r + rest) == w + "_" + ReplaceNonAlnumRuns(rest)
  {
    ReplaceRun(r, rest);
    ReplaceKeepsWord(w, r + rest);
    assert w + r + rest == w + (r + rest);
  }

  lemma {:induction false} TrimTrailing(out: string)
    requires |out| > 0 && out[0] != '_' && out[|out| - 1] != '_'
    ensures Trim(out + "_") == out
  {
    var t := out + "_";
    assert LeadingUnderscores(t) == 0;
    assert t[0..] == t;
    assert t[..|out|] == out;
    assert TrailingUnderscores(out) == 0;
    assert TrailingUnderscores(t) == 1;
  }

  /**
   * Three words separated and followed by punctuation or blanks come out joined
   * by single underscores, with the trailing one trimmed.
   */
  lemma {:induction false} SanitizeWords(w1: string, r1: string, w2: string, r2: string, w3: string, r3: string)
    requires |w1| > 0 && |w2| > 0 && |w3| > 0 && AllAlnum(w1) && AllAlnum(w2) && AllAlnum(w3)
    requires |r1| > 0 && |r2| > 0 && |r3| > 0 && AllNonAlnum(r1) && AllNonAlnum(r2) && AllNonAlnum(r3)
    ensures Sanitize(w1 + r1 + w2 + r2 + w3 + r3) == w1 + "_" + w2 + "_" + w3
  {
    var third := w3 + r3;
    var second := w2 + r2 + third;
    var input := w1 + r1 + second;
    assert input == w1 + r1 + w2 + r2 + w3 + r3;
    ReplaceWordRun(w3, r3, "");
    assert w3 + r3 + "" == third;
    ReplaceWordRun(w2, r2, third);
    ReplaceWordRun(w1, r1, second);
    var out := w1 + "_" + w2 + "_" + w3;
    assert ReplaceNonAlnumRuns(input) == out + "_";
    CollapseAfterReplace(input);
    assert out[0] == w1[0] && out[|out| - 1] == w3[|w3| - 1];
    TrimTrailing(out);
  }

  /** The documented example: "a cat! / dog?" is saved as "a_cat_dog". */
  lemma {:induction false} SanitizeExample()
    ensures Sanitize("a cat! / dog?") == "a_cat_dog"
  {
    SanitizeWords("a", " ", "cat", "! / ", "dog", "?");
    assert "a" + " " + "cat" + "! / " + "dog" + "?" == "a cat! / dog?";
    assert "a" + "_" + "cat" + "_" + "dog" == "a_cat_dog";
  }

  // ---------------------------------------------------------------------------
  // DateTime.Now.ToString("yyyyMMddHHmmss")

  datatype DateTime = DateTime(year: nat, month: nat, day: nat, hour: nat, minute: nat, second: nat)

  predicate ValidDateTime(t: DateTime) {
    1 <= t.year <= 9999 && 1 <= t.month <= 12 && 1 <= t.day <= 31 &&
    t.hour < 24 && t.minute < 60 && t.second < 60
  }

  predicate IsDigit(c: char) {
    '0' <= c <= '9'
  }

  function Pow10(n: nat): (r: nat)
    ensures r >= 1
  {
    if n == 0 then 1 else 10 * Pow10(n - 1)
  }

  /** The last `width` decimal digits of n, zero-padded. */
  function Digits(n: nat, width: nat): (r: string)
    ensures |r| == width
    ensures forall i :: 0 <= i < |r| ==> IsDigit(r[i])
  {
    if width == 0 then ""
    else Digits(n / 10, width - 1) + [('0' as int + n % 10) as char]
  }

  /** The number a string of decimal digits spells. */
  function DigitsValue(s: string): nat
    requires forall i :: 0 <= i < |s| ==> IsDigit(s[i])
  {
    if |s| == 0 then 0
    else
      assert IsDigit(s[|s| - 1]);
      10 * DigitsValue(s[..|s| - 1]) + (s[|s| - 1] as int - '0' as int)
  }

  /** Padding is exact: a number below 10^width reads back from its digits. */
  lemma {:induction false} DigitsRoundTrip(n: nat, width: nat)
    requires n < Pow10(width)
    ensures DigitsValue(Digits(n, width)) == n
  {
    if width > 0 {
      var r := Digits(n, width);
      assert r[..|r| - 1] == Digits(n / 10, width - 1);
      DigitsRoundTrip(n / 10, width - 1);
    }
  }

  function FormatTimestamp(t: DateTime): (r: string)
    requires ValidDateTime(t)
    ensures |r| == 14
    ensures forall i :: 0 <= i < |r| ==> IsDigit(r[i])
  {
    Digits(t.year, 4) + Digits(t.month, 2) + Digits(t.day, 2) +
    Digits(t.hour, 2) + Digits(t.minute, 2) + Digits(t.second, 2)
  }

  function ParseTimestamp(s: string): DateTime
    requires |s| == 14 && forall i :: 0 <= i < |s| ==> IsDigit(s[i])
  {
    DateTime(DigitsValue(s[0..4]), DigitsValue(s[4..6]), DigitsValue(s[6..8]),
             DigitsValue(s[8..10]), DigitsValue(s[10..12]), DigitsValue(s[12..14]))
  }

  /** The timestamp names the moment uniquely: it reads back to the same date and time. */
  lemma {:induction false} TimestampRoundTrip(t: DateTime)
    requires ValidDateTime(t)
    ensures ParseTimestamp(FormatTimestamp(t)) == t
  {
    var s := FormatTimestamp(t);
    assert Pow10(4) == 10000 && Pow10(2) == 100;
    DigitsRoundTrip(t.year, 4);
    DigitsRoundTrip(t.month, 2);
    DigitsRoundTrip(t.day, 2);
    DigitsRoundTrip(t.hour, 2);
    DigitsRoundTrip(t.minute, 2);
    DigitsRoundTrip(t.second, 2);
    assert s[0..4] == Digits(t.year, 4);
    assert s[4..6] == Digits(t.month, 2);
    assert s[6..8] == Digits(t.day, 2);
    assert s[8..10] == Digits(t.hour, 2);
    assert s[10..12] == Digits(t.minute, 2);
    assert s[12..14] == Digits(t.second, 2);
  }

  // ---------------------------------------------------------------------------
  // The file name and Path.Combine

  const EXTENSION: string := ".png"

  /**
   * $"{timestamp}-{sanitizedPromptName}.png": the name splits back into the
   * timestamp, the sanitised prompt and the extension.
   */
  function FileName(timestamp: string, prompt: string): (name: string)
    ensures |name| == |timestamp| + |Sanitize(prompt)| + 5
    ensures name[..|timestamp|] == timestamp && name[|timestamp|] == '-'
    ensures name[|timestamp| + 1..|name| - 4] == Sanitize(prompt) && name[|name| - 4..] == EXTENSION
  {
    timestamp + "-" + Sanitize(prompt) + EXTENSION
  }

  predicate IsSeparator(c: char) {
    c == '\\' || c == '/'
  }

  /**
   * With a digits-only timestamp the name uses only [A-Za-z0-9_.-], holds no path
   * separator, and its one '.' starts the extension.
   */
  lemma {:induction false} FileNameSafe(timestamp: string, prompt: string)
    requires forall i :: 0 <= i < |timestamp| ==> IsDigit(timestamp[i])
    ensures var name := FileName(timestamp, prompt);
      (forall i :: 0 <= i < |name| ==> IsNameChar(name[i]) || name[i] == '-' || name[i] == '.') &&
      (forall i :: 0 <= i < |name| ==> !IsSeparator(name[i])) &&
      (forall i :: 0 <= i < |name| ==> (name[i] == '.' <==> i == |name| - 4))
  {
    var name := FileName(timestamp, prompt);
    var clean := Sanitize(prompt);
    forall i | 0 <= i < |name|
      ensures IsNameChar(name[i]) || name[i] == '-' || name[i] == '.'
      ensures name[i] == '.' <==> i == |name| - 4
    {
      if i < |timestamp| {
        assert name[i] == timestamp[i];
      } else if |timestamp| < i < |name| - 4 {
        assert name[i] == clean[i - |timestamp| - 1];
      } else if i >= |name| - 4 {
        assert name[i] == EXTENSION[i - (|name| - 4)];
      }
    }
  }

  /** Path.IsPathRooted on Windows: a leading separator or a drive letter and ':'. */
  predicate IsRooted(path: string) {
    (|path| > 0 && IsSeparator(path[0])) ||
    (|path| >= 2 && path[1] == ':' && ('a' <= path[0] <= 'z' || 'A' <= path[0] <= 'Z'))
  }

  /** Path.Combine(first, second) with '\\' as the directory separator. */
  function Combine(first: string, second: string): (r: string)
    ensures |second| == 0 ==> r == first
    ensures |second| > 0 && (IsRooted(second) || |first| == 0) ==> r == second
    ensures |second| > 0 && !IsRooted(second) && |first| > 0 ==>
      |first| + |second| <= |r| <= |first| + |second| + 1 &&
      r[..|first|] == first && r[|r| - |second|..] == second &&
      (IsSeparator(first[|first| - 1]) || IsSeparator(r[|first|]))
    ensures |second| > 0 && !IsRooted(second) && |first| > 0 ==>
      (|r| == |first| + |second| + 1 <==> !IsSeparator(first[|first| - 1]) && !IsSeparator(second[0])) &&
      (|r| == |first| + |second| + 1 ==> r[|first|] == '\\')
  {
    if |second| == 0 then first
    else if |first| == 0 || IsRooted(second) then second
    else if IsSeparator(first[|first| - 1]) || IsSeparator(second[0]) then first + second
    else first + "\\" + second
  }

  const APP_FOLDER: string := "prompt-generator"
  const IMAGES_FOLDER: string := "images"

  /** Path.Combine(homeDirectory, "prompt-generator", "images"). */
  function ImagesDirectory(home: string): string {
    Combine(Combine(home, APP_FOLDER), IMAGES_FOLDER)
  }

  /** CreateSavePath, with the profile folder and the clock passed in. */
  function SavePath(home: string, now: DateTime, prompt: string): (r: string)
    requires ValidDateTime(now)
    ensures var name := FileName(FormatTimestamp(now), prompt);
      |name| <= |r| && r[|r| - |name|..] == name
  {
    Combine(ImagesDirectory(home), FileName(FormatTimestamp(now), prompt))
  }

  /** The images folder ends in "images", so the file name is joined with one '\\'. */
  lemma {:induction false} SavePathLayout(home: string, now: DateTime, prompt: string)
    requires ValidDateTime(now)
    ensures var dir := ImagesDirectory(home);
      var name := FileName(FormatTimestamp(now), prompt);
      |dir| >= |IMAGES_FOLDER| && dir[|dir| - |IMAGES_FOLDER|..] == IMAGES_FOLDER &&
      SavePath(home, now, prompt) == dir + "\\" + name
  {
    var stamp := FormatTimestamp(now);
    var name := FileName(stamp, prompt);
    ImagesDirectoryEnds(home);
    var dir := ImagesDirectory(home);
    assert IsDigit(name[0]) && IsDigit(name[1]) by {
      assert name[0] == stamp[0] && name[1] == stamp[1];
    }
    JoinWithSeparator(dir, name);
  }

  lemma {:induction false} ImagesDirectoryEnds(home: string)
    ensures var dir := ImagesDirectory(home);
      |dir| >= |IMAGES_FOLDER| && dir[|dir| - |IMAGES_FOLDER|..] == IMAGES_FOLDER && !IsSeparator(dir[|dir| - 1])
  {
    var parent := Combine(home, APP_FOLDER);
    assert !IsRooted(APP_FOLDER) && !IsRooted(IMAGES_FOLDER);
    assert |parent| > 0;
    var dir := ImagesDirectory(home);
    assert dir[|dir| - 1] == 's';
  }

  /** Neither side has a separator where they meet, so Path.Combine inserts one '\\'. */
  lemma {:induction false} JoinWithSeparator(dir: string, name: string)
    requires |dir| > 0 && !IsSeparator(dir[|dir| - 1])
    requires |name| >= 2 && IsDigit(name[0]) && IsDigit(name[1])
    ensures Combine(dir, name) == dir + "\\" + name
  {
    assert !IsRooted(name) && !IsSeparator(name[0]);
  }
}
