/** The filename classifiers and the job-identifier shapes of ar3.java.

    Every regular expression of the source is anchored (`re.match` with `^...$`) and
    is written here as a predicate over character positions: a split point that the
    regex engine would find by backtracking becomes an existentially chosen index.
    Only ASCII character classes are modelled. */
module Classifier {
  import opened Text

  predicate IsUpperLetter(c: char) { 'A' <= c <= 'Z' }
  predicate IsDigit(c: char) { '0' <= c <= '9' }
  predicate IsUpperAlnum(c: char) { IsUpperLetter(c) || IsDigit(c) }
  /** `str.isalnum` on ASCII. */
  predicate IsAsciiAlnum(c: char) { IsUpperAlnum(c) || 'a' <= c <= 'z' }

  /** The bracketed character classes of the source's regular expressions. */
  datatype CharClass =
    | Letters          // [A-Z]
    | Digits           // [0-9]
    | Alnum            // [A-Z0-9]
    | AlnumAmp         // [A-Z0-9&]
    | AlnumDot         // [A-Z0-9.]
    | DatasetTail      // [A-Z0-9.()+-]
    | Generation       // [+\-0-9]
    | NameChars        // [A-Z0-9&.()+-], every character an accepted name may use

  predicate InClass(c: char, cls: CharClass) {
    match cls
    case Letters => IsUpperLetter(c)
    case Digits => IsDigit(c)
    case Alnum => IsUpperAlnum(c)
    case AlnumAmp => IsUpperAlnum(c) || c == '&'
    case AlnumDot => IsUpperAlnum(c) || c == '.'
    case DatasetTail => IsUpperAlnum(c) || c == '.' || c == '(' || c == ')' || c == '+' || c == '-'
    case Generation => IsDigit(c) || c == '+' || c == '-'
    case NameChars => IsUpperAlnum(c) || c == '&' || c == '.' || c == '(' || c == ')' || c == '+' || c == '-'
  }

  /** Every position in [lo, hi) of `u` is in class `cls`. */
  predicate Span(u: string, lo: int, hi: int, cls: CharClass) {
    0 <= lo <= hi <= |u| && forall m :: lo <= m < hi ==> InClass(u[m], cls)
  }

  // ---------------------------------------------------------------------------
  // is_valid_filename (ar3.java:133-166)
  // ---------------------------------------------------------------------------

  /** Labels of the source report that are never filenames; compared whole. */
  const StrictDenylist: seq<string> := [
    "total", "expected", "accessed", "source", "start-end", "seconds",
    "y/n/?", "y", "n", "convert required", "file path", "file name",
    "file type", "program name", "utilities used", "mapped_to",
    "description", "comments", "job steps", "execution time"
  ]

  /** Only these two entries are also refused when they occur inside a text. */
  predicate IsDenied(t: string) {
    var l := Lower(t);
    l in StrictDenylist || Contains(l, "mapped_to") || Contains(l, "convert required")
  }

  /** The gate before the shape patterns: a dot, or the `&&` or `R1-` prefix. */
  predicate PassesDotGate(t: string) {
    '.' in t || "&&" <= t || "R1-" <= t
  }

  /** `^[A-Z0-9&]+\.[A-Z0-9.()+-]+$`, split at the dot after the head. */
  predicate DatasetSplit(u: string, k: int) {
    0 < k < |u| - 1 && u[k] == '.' && Span(u, 0, k, AlnumAmp) && Span(u, k + 1, |u|, DatasetTail)
  }
  predicate MatchesDatasetName(u: string) { exists k :: 0 <= k < |u| && DatasetSplit(u, k) }

  /** `^&&[A-Z0-9]+$`. */
  predicate MatchesTempName(u: string) {
    |u| >= 3 && u[0] == '&' && u[1] == '&' && Span(u, 2, |u|, Alnum)
  }

  /** `^R1-\.[A-Z0-9.]+$`. */
  predicate MatchesBackupName(u: string) {
    |u| >= 5 && u[..4] == "R1-." && Span(u, 4, |u|, AlnumDot)
  }

  /** `^[A-Z]+\.[A-Z0-9.()+-]+$`. */
  predicate PrefixedSplit(u: string, k: int) {
    0 < k < |u| - 1 && u[k] == '.' && Span(u, 0, k, Letters) && Span(u, k + 1, |u|, DatasetTail)
  }
  predicate MatchesPrefixedName(u: string) { exists k :: 0 <= k < |u| && PrefixedSplit(u, k) }

  /** What every accepted text looks like once stripped and upper-cased. */
  predicate HasFilenameShape(u: string) {
    Span(u, 0, |u|, NameChars) && ('.' in u || MatchesTempName(u))
  }

  /** The strict classifier: trimmed length 3..80, not a report label, a dot or a
      dataset prefix, then one of four anchored shapes over the upper-cased text. */
  function IsValidFilename(text: string): (ok: bool)
    ensures ok ==> 3 <= |Strip(text)| <= 80
    ensures ok ==> !IsDenied(Strip(text))
  {
    var t := Strip(text);
    if |t| < 3 || |t| > 80 then false
    else if IsDenied(t) then false
    else if !PassesDotGate(t) then false
    else
      var u := Upper(t);
      MatchesDatasetName(u) || MatchesTempName(u) || MatchesBackupName(u) || MatchesPrefixedName(u)
  }

  /** The classifier gives a text the same answer as its stripped form. */
  lemma ClassifierIgnoresSurroundingSpace(text: string)
    ensures IsValidFilename(Strip(text)) == IsValidFilename(text)
  {
    StripIdempotent(text);
  }

  /** The fourth pattern adds nothing to the first: every prefixed name is a
      dataset name. */
  lemma PrefixedNameIsDatasetName(u: string)
    requires MatchesPrefixedName(u)
    ensures MatchesDatasetName(u)
  {
    var k :| 0 <= k < |u| && PrefixedSplit(u, k);
    assert DatasetSplit(u, k);
  }

  /** Every accepted text, stripped and upper-cased, uses only `A-Z 0-9 & . ( ) + -`
      and either contains a dot or is `&&` followed by letters and digits. */
  lemma AcceptedTextShape(text: string)
    requires IsValidFilename(text)
    ensures HasFilenameShape(Upper(Strip(text)))
  {
    var u := Upper(Strip(text));
    if MatchesDatasetName(u) {
      var k :| 0 <= k < |u| && DatasetSplit(u, k);
      assert u[k] == '.';
    } else if MatchesBackupName(u) {
      assert u[3] == '.';
      assert forall m :: 0 <= m < 4 ==> u[m] == "R1-."[m];
    } else if MatchesPrefixedName(u) {
      var k :| 0 <= k < |u| && PrefixedSplit(u, k);
      assert u[k] == '.';
    }
  }

  /** No label contains a dot. */
  lemma NoLabelHasDot(l: string)
    requires l in StrictDenylist
    ensures '.' !in l
  {
  }

  /** A text with a dot and without `_` or space is not denied. */
  lemma DottedTextNotDenied(t: string)
    requires '.' in t && '_' !in t && ' ' !in t
    ensures !IsDenied(t)
  {
    CaseKeepsNonLetter(t, '.');
    if Lower(t) in StrictDenylist {
      NoLabelHasDot(Lower(t));
    }
    CaseKeepsNonLetter(t, '_');
    CaseKeepsNonLetter(t, ' ');
    AbsentCharRulesOut(Lower(t), "mapped_to", '_');
    AbsentCharRulesOut(Lower(t), "convert required", ' ');
  }

  /** Every label starts with a lower-case letter. */
  lemma LabelsStartWithLetter(l: string)
    requires l in StrictDenylist
    ensures |l| > 0 && 'a' <= l[0] <= 'z'
  {
  }

  /** A text starting with `&` is not denied. */
  lemma AmpersandTextNotDenied(t: string)
    requires |t| > 0 && t[0] == '&' && '_' !in t && ' ' !in t
    ensures !IsDenied(t)
  {
    assert Lower(t)[0] == '&';
    if Lower(t) in StrictDenylist {
      LabelsStartWithLetter(Lower(t));
    }
    CaseKeepsNonLetter(t, '_');
    CaseKeepsNonLetter(t, ' ');
    AbsentCharRulesOut(Lower(t), "mapped_to", '_');
    AbsentCharRulesOut(Lower(t), "convert required", ' ');
  }

  /** A text of upper-case letters, digits and the class symbols is its own upper case. */
  lemma UpperOfSpan(t: string, cls: CharClass)
    requires Span(t, 0, |t|, cls)
    ensures Upper(t) == t
  {
    forall m | 0 <= m < |t| ensures UpperChar(t[m]) == t[m] {
      assert InClass(t[m], cls);
    }
  }

  /** A text neither starting nor ending with whitespace is its own stripped form. */
  lemma StrippedText(t: string)
    requires |t| > 0 && !IsSpace(t[0]) && !IsSpace(t[|t| - 1])
    ensures Strip(t) == t
  {
    TrimStartOfUntrimmed(t);
  }

  /** Every text of at most 80 characters split by a dot into an `[A-Z0-9&]+` head
      and a `[A-Z0-9.()+-]+` tail is accepted. */
  lemma AcceptsPlainName(t: string, k: nat)
    requires |t| <= 80 && DatasetSplit(t, k)
    ensures IsValidFilename(t)
  {
    assert InClass(t[0], AlnumAmp) && InClass(t[|t| - 1], DatasetTail);
    StrippedText(t);
    assert Span(t, 0, |t|, NameChars) by {
      forall m | 0 <= m < |t| ensures InClass(t[m], NameChars) {
        if m < k {
          assert InClass(t[m], AlnumAmp);
        } else if m > k {
          assert InClass(t[m], DatasetTail);
        }
      }
    }
    UpperOfSpan(t, NameChars);
    assert '_' !in t && ' ' !in t by {
      forall m | 0 <= m < |t| ensures t[m] != '_' && t[m] != ' ' {
        assert InClass(t[m], NameChars);
      }
    }
    assert t[k] == '.';
    DottedTextNotDenied(t);
  }

  /** A temporary name `&&` + `[A-Z0-9]+` of at most 80 characters is accepted. */
  lemma AcceptsTempName(t: string)
    requires |t| <= 80 && MatchesTempName(t)
    ensures IsValidFilename(t)
  {
    assert InClass(t[|t| - 1], Alnum);
    StrippedText(t);
    assert Span(t, 0, |t|, NameChars) by {
      forall m | 0 <= m < |t| ensures InClass(t[m], NameChars) {
        if m >= 2 {
          assert InClass(t[m], Alnum);
        }
      }
    }
    UpperOfSpan(t, NameChars);
    assert '_' !in t && ' ' !in t by {
      forall m | 0 <= m < |t| ensures t[m] != '_' && t[m] != ' ' {
        assert InClass(t[m], NameChars);
      }
    }
    AmpersandTextNotDenied(t);
    assert "&&" <= t;
  }

  /** The shapes of four names the extractor is meant to accept: two dataset names,
      one with a generation suffix, and a temporary `&&` name. */
  lemma ExampleDatasetShape(a: string)
    requires a == "CAS.PROD.ACCTSTAT.DISK"
    ensures |a| <= 80 && DatasetSplit(a, 3)
  {
  }

  lemma ExampleGenerationShape(b: string)
    requires b == "ISC.PROD.CAS.SYS.TOTALS(+1)"
    ensures |b| <= 80 && DatasetSplit(b, 3)
  {
  }

  lemma ExampleShortShape(d: string)
    requires d == "SYS1.PROCLIB"
    ensures |d| <= 80 && DatasetSplit(d, 4)
  {
  }

  lemma ExampleTempShape(c: string)
    requires c == "&&GOSET"
    ensures |c| <= 80 && MatchesTempName(c)
  {
  }

  /** The four names are accepted. */
  lemma ExampleAcceptedNames(a: string, b: string, c: string, d: string)
    requires a == "CAS.PROD.ACCTSTAT.DISK" && b == "ISC.PROD.CAS.SYS.TOTALS(+1)" && c == "&&GOSET"
    requires d == "SYS1.PROCLIB"
    ensures IsValidFilename(a) && IsValidFilename(b) && IsValidFilename(c) && IsValidFilename(d)
  {
    ExampleShortShape(d);
    AcceptsPlainName(d, 4);
    ExampleDatasetShape(a);
    AcceptsPlainName(a, 3);
    ExampleGenerationShape(b);
    AcceptsPlainName(b, 3);
    ExampleTempShape(c);
    AcceptsTempName(c);
  }

  /** A label, a too-short text and a marker are refused; the marker `Y/N/?` is
      refused by the denylist although it has no dot. */
  lemma ExampleRefusedTexts(total: string, ab: string, yn: string)
    requires total == "Total" && ab == "ab" && yn == "Y/N/?"
    ensures !IsValidFilename(total) && !IsValidFilename(ab) && !IsValidFilename(yn)
    ensures IsDenied(Strip(yn)) && !PassesDotGate(Strip(yn))
  {
    assert TrimStart(total) == total;
    assert Strip(total) == total;
    assert Lower(total) == StrictDenylist[0] by {
      assert |Lower(total)| == 5;
      assert Lower(total)[0] == 't' && Lower(total)[1] == 'o' && Lower(total)[2] == 't';
      assert Lower(total)[3] == 'a' && Lower(total)[4] == 'l';
    }
    assert TrimStart(ab) == ab;
    assert Strip(ab) == ab;
    assert TrimStart(yn) == yn;
    assert Strip(yn) == yn;
    assert Lower(yn) == StrictDenylist[6] by {
      assert |Lower(yn)| == 5;
      assert Lower(yn)[0] == 'y' && Lower(yn)[1] == '/' && Lower(yn)[2] == 'n';
      assert Lower(yn)[3] == '/' && Lower(yn)[4] == '?';
    }
    assert '.' !in yn;
  }

  // ---------------------------------------------------------------------------
  // is_likely_filename (ar3.java:793-832), the looser variant
  // ---------------------------------------------------------------------------

  /** The looser variant's labels: no "description", "comments", "job steps" or
      "execution time", and only `mapped_to` is refused as a substring. */
  const LooseDenylist: seq<string> := [
    "total", "expected", "accessed", "source", "start-end", "seconds",
    "y/n/?", "y", "n", "convert required", "file path", "file name",
    "file type", "program name", "utilities used", "mapped_to"
  ]

  predicate IsLooseDenied(t: string) {
    var l := Lower(t);
    l in LooseDenylist || Contains(l, "mapped_to")
  }

  /** `^[A-Z0-9]+\.[A-Z0-9]+\.[A-Z0-9.]+$`. */
  predicate ThreePartSplit(u: string, i: int, j: int) {
    0 < i && i + 1 < j < |u| - 1 && u[i] == '.' && u[j] == '.'
    && Span(u, 0, i, Alnum) && Span(u, i + 1, j, Alnum) && Span(u, j + 1, |u|, AlnumDot)
  }
  predicate MatchesThreePart(u: string) { exists i, j :: 0 <= i < |u| && 0 <= j < |u| && ThreePartSplit(u, i, j) }

  /** `^[A-Z0-9&]+\.[A-Z0-9.]*$`. */
  predicate SimpleSplit(u: string, k: int) {
    0 < k < |u| && u[k] == '.' && Span(u, 0, k, AlnumAmp) && Span(u, k + 1, |u|, AlnumDot)
  }
  predicate MatchesSimpleName(u: string) { exists k :: 0 <= k < |u| && SimpleSplit(u, k) }

  /** `^[A-Z0-9]+\.[A-Z0-9]+\.[A-Z0-9]+\([+\-0-9]+\)$`. */
  predicate GenerationSplit(u: string, i: int, j: int, k: int) {
    0 < i && i + 1 < j && j + 1 < k && k + 2 < |u|
    && u[i] == '.' && u[j] == '.' && u[k] == '(' && u[|u| - 1] == ')'
    && Span(u, 0, i, Alnum) && Span(u, i + 1, j, Alnum) && Span(u, j + 1, k, Alnum)
    && Span(u, k + 1, |u| - 1, Generation)
  }
  predicate MatchesGeneration(u: string) { exists i, j, k :: 0 <= i < |u| && 0 <= j < |u| && 0 <= k < |u| && GenerationSplit(u, i, j, k) }

  /** `^[A-Z][0-9]+-\.[A-Z0-9.]+$`. */
  predicate LetterDigitsSplit(u: string, k: int) {
    2 <= k && k + 2 < |u| && IsUpperLetter(u[0]) && Span(u, 1, k, Digits)
    && u[k] == '-' && u[k + 1] == '.' && Span(u, k + 2, |u|, AlnumDot)
  }
  predicate MatchesLetterDigitsDash(u: string) { exists k :: 0 <= k < |u| && LetterDigitsSplit(u, k) }

  /** `^[A-Z]{2,}\.[A-Z0-9.]+$`. */
  predicate LetterPrefixSplit(u: string, k: int) {
    2 <= k && k + 1 < |u| && u[k] == '.' && Span(u, 0, k, Letters) && Span(u, k + 1, |u|, AlnumDot)
  }
  predicate MatchesLetterPrefix(u: string) { exists k :: 0 <= k < |u| && LetterPrefixSplit(u, k) }

  /** Python's `s.split('.')`. */
  function SplitDots(s: string): (parts: seq<string>)
    ensures |parts| >= 1
    decreases |s|
  {
    if |s| == 0 then [""]
    else
      var rest := SplitDots(s[1..]);
      if s[0] == '.' then [""] + rest else [[s[0]] + rest[0]] + rest[1..]
  }

  /** The parts joined back with `.` between them, Python's `'.'.join(parts)`. */
  function JoinDots(parts: seq<string>): string
    requires |parts| >= 1
    decreases |parts|
  {
    if |parts| == 1 then parts[0] else parts[0] + "." + JoinDots(parts[1..])
  }

  /** No part holds a dot. */
  lemma {:induction false} SplitDotsHaveNoDot(s: string)
    ensures forall p :: p in SplitDots(s) ==> '.' !in p
    decreases |s|
  {
    if |s| > 0 {
      var rest := SplitDots(s[1..]);
      SplitDotsHaveNoDot(s[1..]);
      if s[0] != '.' {
        assert rest[0] in rest;
        forall p | p in SplitDots(s) ensures '.' !in p {
          if p != [s[0]] + rest[0] {
            assert p in rest[1..];
          }
        }
      }
    }
  }

  /** Joining the parts with `.` gives the text back. */
  lemma {:induction false} SplitDotsJoin(s: string)
    ensures JoinDots(SplitDots(s)) == s
    decreases |s|
  {
    if |s| > 0 {
      var rest := SplitDots(s[1..]);
      SplitDotsJoin(s[1..]);
      if s[0] == '.' {
        assert SplitDots(s)[1..] == rest;
      } else if |rest| > 1 {
        assert SplitDots(s)[1..] == rest[1..];
        assert JoinDots(rest) == rest[0] + "." + JoinDots(rest[1..]);
      }
      assert s == [s[0]] + s[1..];
    }
  }

  /** A text with a dot splits into at least two parts. */
  lemma {:induction false} SplitDotsAtDot(s: string)
    requires '.' in s
    ensures |SplitDots(s)| >= 2
    decreases |s|
  {
    if s[0] != '.' {
      SplitDotsAtDot(s[1..]);
    }
  }

  /** `p.replace(c, '')` for each character `c` of `drop`. */
  function RemoveChars(p: string, drop: string): (r: string)
    ensures forall c :: c in r <==> c in p && c !in drop
    decreases |p|
  {
    if |p| == 0 then []
    else if p[0] in drop then RemoveChars(p[1..], drop)
    else [p[0]] + RemoveChars(p[1..], drop)
  }

  /** `str.isalnum` on ASCII: non-empty and only letters and digits. */
  predicate IsAlnum(s: string) {
    |s| > 0 && forall c :: c in s ==> IsAsciiAlnum(c)
  }

  /** The last-resort check of the looser classifier, on the stripped text (not
      upper-cased): every non-empty dot-separated part, with `()+-01` removed, is
      alphanumeric. Empty parts are skipped. */
  predicate DotPartsLookAlnum(t: string) {
    var parts := SplitDots(t);
    '.' in t && |parts| >= 2 && forall p :: p in parts && p != [] ==> IsAlnum(RemoveChars(p, "()+-01"))
  }

  function IsLikelyFilename(text: string): (ok: bool)
    ensures ok ==> 3 <= |Strip(text)| <= 80
    ensures ok ==> !IsLooseDenied(Strip(text))
  {
    var t := Strip(text);
    if |t| < 3 || |t| > 80 then false
    else if IsLooseDenied(t) then false
    else
      var u := Upper(t);
      if MatchesThreePart(u) || MatchesSimpleName(u) || MatchesTempName(u)
         || MatchesGeneration(u) || MatchesLetterDigitsDash(u) || MatchesLetterPrefix(u)
      then true
      else DotPartsLookAlnum(t)
  }

  /** The last-resort check alone is enough for the looser classifier. */
  lemma LastResortSuffices(text: string)
    requires 3 <= |Strip(text)| <= 80 && !IsLooseDenied(Strip(text))
    requires DotPartsLookAlnum(Strip(text))
    ensures IsLikelyFilename(text)
  {
  }

  lemma {:induction false} SplitDotsOfDots(t: string)
    requires forall i :: 0 <= i < |t| ==> t[i] == '.'
    ensures forall p :: p in SplitDots(t) ==> p == []
    decreases |t|
  {
    if |t| > 0 {
      SplitDotsOfDots(t[1..]);
    }
  }

  /** A text made only of dots (three to eighty of them) passes the looser
      classifier: its parts are all empty, so the last-resort check has nothing
      to refuse. */
  lemma LooseAcceptsDotsOnly(t: string)
    requires 3 <= |t| <= 80
    requires forall i :: 0 <= i < |t| ==> t[i] == '.'
    ensures IsLikelyFilename(t)
  {
    DotsAreStripped(t);
    DotsAreNotDenied(t);
    SplitDotsOfDots(t);
    assert t[0] == '.';
    LastResortSuffices(t);
  }

  lemma DotsAreStripped(t: string)
    requires |t| > 0 && forall i :: 0 <= i < |t| ==> t[i] == '.'
    ensures Strip(t) == t
  {
    assert TrimStart(t) == t;
  }

  lemma DotsAreNotDenied(t: string)
    requires |t| > 0 && forall i :: 0 <= i < |t| ==> t[i] == '.'
    ensures !IsLooseDenied(t)
  {
    assert Lower(t) == t;
    assert '_' !in t;
    AbsentCharRulesOut(t, "mapped_to", '_');
    forall i | 0 <= i < |LooseDenylist| ensures LooseDenylist[i] != t {
      assert LooseDenylist[i][0] != '.';
    }
  }

  // ---------------------------------------------------------------------------
  // Job identifiers (ar3.java:188 and, for the mapping layout, ar3.java:42)
  // ---------------------------------------------------------------------------

  /** `[A-Z]{n,}[0-9]{3,4}` split between the letters and the digits at `k`. */
  predicate LettersDigitsSplit(s: string, n: nat, k: int) {
    n <= k && 3 <= |s| - k <= 4 && Span(s, 0, k, Letters) && Span(s, k, |s|, Digits)
  }

  /** `^[A-Z]{4,}[0-9]{3,4}$|^[A-Z]{6,}[A-Z]*$`, case-sensitive, on the stripped cell. */
  predicate IsJobIdShape(s: string) {
    (exists k :: 0 <= k <= |s| && LettersDigitsSplit(s, 4, k)) || (|s| >= 6 && Span(s, 0, |s|, Letters))
  }

  /** `^[A-Z]{3,}[0-9]{3,4}$`, the mapping layout's job-identifier pattern. */
  predicate IsMappingJobIdShape(s: string) {
    exists k :: 0 <= k <= |s| && LettersDigitsSplit(s, 3, k)
  }

  /** Both job-identifier shapes are at least six characters long. */
  lemma JobIdShapesAreLong(s: string)
    ensures IsJobIdShape(s) ==> |s| >= 7 || (|s| >= 6 && Span(s, 0, |s|, Letters))
    ensures IsMappingJobIdShape(s) ==> |s| >= 6
  {
  }
}
