/**
 * The French license plate handler: normalisation of a raw plate value and
 * validation against the two French plate formats, the current one (since
 * 2009, `AB-123-CD`) and the former one (1950 to 2009, `2928 TW 74`).
 *
 * Line numbers in the comments below refer to FrenchLicensePlateHandler.java.
 */
module FrenchLicensePlateHandler {
  import opened JavaText

  /** A separator as the former format's `[\s\-]` accepts it. */
  predicate IsSeparator(c: char) {
    IsWhitespace(c) || c == '-'
  }

  /** `[A-Z0-9]` */
  predicate IsAlnum(c: char) {
    IsUpper(c) || IsDigit(c)
  }

  // ---------------------------------------------------------------------------
  // Rewriting steps of normalize
  // ---------------------------------------------------------------------------

  /** The two character classes that normalize collapses: the operands of `\s+` and `\-+`. */
  datatype RunClass = Whitespace | Hyphen

  predicate InRun(c: char, k: RunClass) {
    match k
    case Whitespace => IsWhitespace(c)
    case Hyphen => c == '-'
  }

  /**
   * `replaceAll("\\s+", "-")` for `k == Whitespace`, `replaceAll("\\-+", "-")`
   * for `k == Hyphen`: every maximal run of class `k` becomes one `-`. A member
   * of the class that another member follows is dropped; the last member of a
   * run becomes the `-`.
   */
  function ReplaceRuns(s: string, k: RunClass): (r: string)
    ensures |r| <= |s|
    ensures s != [] ==> r != [] && r[0] == (if InRun(s[0], k) then '-' else s[0])
    ensures s != [] ==> r[|r| - 1] == (if InRun(s[|s| - 1], k) then '-' else s[|s| - 1])
  {
    if s == [] then []
    else if InRun(s[0], k) && |s| > 1 && InRun(s[1], k) then ReplaceRuns(s[1..], k)
    else [if InRun(s[0], k) then '-' else s[0]] + ReplaceRuns(s[1..], k)
  }

  /** `replaceAll("\\-", " ")`: every `-` becomes a space. */
  function HyphensToSpaces(s: string): string {
    seq(|s|, i requires 0 <= i < |s| => if s[i] == '-' then ' ' else s[i])
  }

  /**
   * The value as line 51 leaves it: whitespace runs and hyphen runs collapsed
   * to one `-` each, then upper-cased.
   */
  function Hyphenated(value: string): string {
    ToUpper(ReplaceRuns(ReplaceRuns(value, Whitespace), Hyphen))
  }

  // ---------------------------------------------------------------------------
  // The two formats (whole-string matches)
  // ---------------------------------------------------------------------------

  /** `[A-Z]{2}\-[0-9]{3}\-[A-Z]{2}`, the format since 2009. */
  predicate IsCurrentFormat(s: string) {
    |s| == 9 &&
    IsUpper(s[0]) && IsUpper(s[1]) && s[2] == '-' &&
    IsDigit(s[3]) && IsDigit(s[4]) && IsDigit(s[5]) && s[6] == '-' &&
    IsUpper(s[7]) && IsUpper(s[8])
  }

  /**
   * `s` matches `[0-9]{2,4}[\s\-][A-Z]{1,3}[\s\-][A-Z0-9]{2,3}` with a digit
   * group of length `d` and a letter group of length `l`.
   */
  predicate FormerSplit(s: string, d: int, l: int) {
    2 <= d <= 4 && 1 <= l <= 3 && d + l + 4 <= |s| <= d + l + 5 &&
    (forall i :: 0 <= i < d ==> IsDigit(s[i])) &&
    IsSeparator(s[d]) &&
    (forall i :: d < i <= d + l ==> IsUpper(s[i])) &&
    IsSeparator(s[d + l + 1]) &&
    (forall i :: d + l + 1 < i < |s| ==> IsAlnum(s[i]))
  }

  /** The 1950 to 2009 format. */
  predicate IsFormerFormat(s: string) {
    exists d, l | 2 <= d <= 4 && 1 <= l <= 3 :: FormerSplit(s, d, l)
  }

  // ---------------------------------------------------------------------------
  // normalize and validate
  // ---------------------------------------------------------------------------

  /**
   * `normalize`: collapse, upper-case, and render a value of the former format
   * with spaces instead of hyphens.
   */
  function Normalize(value: string): (n: string)
    ensures |n| <= |value|
    ensures NoDoubleHyphen(n) && NoLower(n)
    ensures IsFormerFormat(Hyphenated(value)) ==> NoHyphen(n) && IsFormerFormat(n)
    ensures !IsFormerFormat(Hyphenated(value)) ==> NoWhitespace(n)
  {
    var u := Hyphenated(value);
    HyphenatedIsClean(value);
    if IsFormerFormat(u) then
      SpacedFormer(u);
      HyphensToSpaces(u)
    else
      u
  }

  /** `validate`: the normalised value has the current or the former format. */
  predicate Validate(value: string) {
    var n := Normalize(value);
    IsCurrentFormat(n) || IsFormerFormat(n)
  }

  // ---------------------------------------------------------------------------
  // Lemmas about the rewriting steps
  // ---------------------------------------------------------------------------

  /** A value as line 51 leaves it: no whitespace, no `--`, no lower-case letter. */
  predicate Clean(s: string) {
    NoWhitespace(s) && NoDoubleHyphen(s) && NoLower(s)
  }

  /** Every character of the result is a `-` or a character of the input outside the collapsed class. */
  lemma {:induction false} ReplaceRunsChars(s: string, k: RunClass)
    ensures forall c :: c in ReplaceRuns(s, k) ==> c == '-' || (c in s && !InRun(c, k))
    decreases |s|
  {
    if s != [] {
      var rest := s[1..];
      ReplaceRunsChars(rest, k);
      var r' := ReplaceRuns(rest, k);
      assert forall c :: c in rest ==> c in s;
      if !(InRun(s[0], k) && |s| > 1 && InRun(s[1], k)) {
        var c := if InRun(s[0], k) then '-' else s[0];
        assert ReplaceRuns(s, k) == [c] + r';
      }
    }
  }

  /** Collapsing a string with no whitespace keeps it free of whitespace. */
  lemma ReplaceRunsKeepsNoWhitespace(s: string, k: RunClass)
    requires NoWhitespace(s)
    ensures NoWhitespace(ReplaceRuns(s, k))
  {
    var r := ReplaceRuns(s, k);
    ReplaceRunsChars(s, k);
    forall i | 0 <= i < |r| ensures !IsWhitespace(r[i]) {
      assert r[i] in r;
    }
  }

  /** Collapsing whitespace leaves no whitespace. */
  lemma ReplaceRunsRemovesWhitespace(s: string)
    ensures NoWhitespace(ReplaceRuns(s, Whitespace))
  {
    var r := ReplaceRuns(s, Whitespace);
    ReplaceRunsChars(s, Whitespace);
    forall i | 0 <= i < |r| ensures !IsWhitespace(r[i]) {
      assert r[i] in r;
    }
  }

  /** Collapsing hyphen runs leaves no `--`. */
  lemma {:induction false} ReplaceRunsNoDoubleHyphen(s: string)
    ensures NoDoubleHyphen(ReplaceRuns(s, Hyphen))
    decreases |s|
  {
    if s != [] {
      var rest := s[1..];
      ReplaceRunsNoDoubleHyphen(rest);
      var r' := ReplaceRuns(rest, Hyphen);
      if !(s[0] == '-' && |s| > 1 && s[1] == '-') {
        var r := ReplaceRuns(s, Hyphen);
        assert r == [s[0]] + r';
        assert s[0] == '-' ==> r' == [] || r'[0] != '-';
        forall i, j | 0 <= i < |r| && 0 <= j < |r| && j == i + 1 ensures r[i] != '-' || r[j] != '-' {
          if i > 0 {
            assert r[i] == r'[i - 1] && r[j] == r'[j - 1];
          }
        }
      }
    }
  }

  lemma HyphenatedIsClean(value: string)
    ensures Clean(Hyphenated(value))
  {
    var w := ReplaceRuns(value, Whitespace);
    var h := ReplaceRuns(w, Hyphen);
    ReplaceRunsRemovesWhitespace(value);
    ReplaceRunsKeepsNoWhitespace(w, Hyphen);
    ReplaceRunsNoDoubleHyphen(w);
    ToUpperProperties(h);
  }

  /** `s` has nothing to collapse: members of `k` are single `-` characters. */
  predicate NoRunToCollapse(s: string, k: RunClass) {
    (forall i :: 0 <= i < |s| && InRun(s[i], k) ==> s[i] == '-') &&
    (forall i, j :: 0 <= i < |s| && 0 <= j < |s| && j == i + 1 ==> !InRun(s[i], k) || !InRun(s[j], k))
  }

  /** Collapsing leaves a string alone when it has no run to collapse. */
  lemma {:induction false} ReplaceRunsIdentity(s: string, k: RunClass)
    requires NoRunToCollapse(s, k)
    ensures ReplaceRuns(s, k) == s
    decreases |s|
  {
    if s != [] {
      var rest := s[1..];
      assert NoRunToCollapse(rest, k) by {
        forall i | 0 <= i < |rest| ensures rest[i] == s[i + 1] { }
      }
      ReplaceRunsIdentity(rest, k);
      assert !(InRun(s[0], k) && |s| > 1 && InRun(s[1], k));
      assert ReplaceRuns(s, k) == [s[0]] + rest;
      assert [s[0]] + rest == s;
    }
  }

  lemma ReplaceRunsOfClean(u: string)
    requires NoWhitespace(u) && NoDoubleHyphen(u)
    ensures ReplaceRuns(u, Whitespace) == u
    ensures ReplaceRuns(u, Hyphen) == u
  {
    ReplaceRunsIdentity(u, Whitespace);
    ReplaceRunsIdentity(u, Hyphen);
  }

  /** Re-collapsing the space-separated rendering of a clean value gives the value back. */
  lemma {:induction false} ReplaceRunsOfSpaced(u: string)
    requires NoWhitespace(u) && NoDoubleHyphen(u)
    ensures ReplaceRuns(HyphensToSpaces(u), Whitespace) == u
    decreases |u|
  {
    if u != [] {
      var t := HyphensToSpaces(u);
      var rest := u[1..];
      assert NoWhitespace(rest) && NoDoubleHyphen(rest) by {
        forall i | 0 <= i < |rest| ensures rest[i] == u[i + 1] { }
      }
      assert t[1..] == HyphensToSpaces(rest);
      ReplaceRunsOfSpaced(rest);
      assert IsWhitespace(t[0]) == (u[0] == '-');
      assert |t| > 1 ==> IsWhitespace(t[1]) == (u[1] == '-');
      assert ReplaceRuns(t, Whitespace) == [u[0]] + rest;
      assert [u[0]] + rest == u;
    }
  }

  /** Line 51 leaves a clean value unchanged. */
  lemma HyphenatedOfClean(u: string)
    requires Clean(u)
    ensures Hyphenated(u) == u
  {
    ReplaceRunsOfClean(u);
    ToUpperProperties(u);
  }

  /** Line 51 turns the space-separated rendering of a clean value back into the value. */
  lemma HyphenatedOfSpaced(u: string)
    requires Clean(u)
    ensures Hyphenated(HyphensToSpaces(u)) == u
  {
    ReplaceRunsOfSpaced(u);
    ReplaceRunsOfClean(u);
    ToUpperProperties(u);
  }

  /** Turning hyphens into spaces keeps the former format, at the same split. */
  lemma SpacedFormer(u: string)
    requires IsFormerFormat(u)
    ensures IsFormerFormat(HyphensToSpaces(u))
    ensures NoHyphen(HyphensToSpaces(u))
  {
    var d, l :| 2 <= d <= 4 && 1 <= l <= 3 && FormerSplit(u, d, l);
    assert FormerSplit(HyphensToSpaces(u), d, l);
  }

  // ---------------------------------------------------------------------------
  // Properties of normalize and validate
  // ---------------------------------------------------------------------------

  /** Normalising does not change what line 51 makes of a value. */
  lemma HyphenatedOfNormalize(value: string)
    ensures Hyphenated(Normalize(value)) == Hyphenated(value)
  {
    var u := Hyphenated(value);
    HyphenatedIsClean(value);
    if IsFormerFormat(u) {
      HyphenatedOfSpaced(u);
    } else {
      HyphenatedOfClean(u);
    }
  }

  /** normalize is idempotent. */
  lemma NormalizeIdempotent(value: string)
    ensures Normalize(Normalize(value)) == Normalize(value)
  {
    HyphenatedOfNormalize(value);
  }

  /** validate decides on the value line 51 produces: the space rendering never changes the verdict. */
  lemma ValidateOnHyphenated(value: string)
    ensures Validate(value) == (IsCurrentFormat(Hyphenated(value)) || IsFormerFormat(Hyphenated(value)))
  {
    var u := Hyphenated(value);
    if IsFormerFormat(u) {
      SpacedFormer(u);
    }
  }

  /** validate gives the same verdict on a value and on its normalised form. */
  lemma ValidateOfNormalize(value: string)
    ensures Validate(Normalize(value)) == Validate(value)
  {
    NormalizeIdempotent(value);
  }

  /** No string has both formats: the current one starts with a letter, the former one with a digit. */
  lemma FormatsDisjoint(s: string)
    ensures !(IsCurrentFormat(s) && IsFormerFormat(s))
  {
    if IsFormerFormat(s) {
      FormerEnds(s);
    }
  }

  /**
   * `s` has the former format split at `d` and `l`, its two separators are
   * single spaces and it has no other whitespace.
   */
  predicate SpacedSplit(s: string, d: int, l: int) {
    FormerSplit(s, d, l) && s[d] == ' ' && s[d + l + 1] == ' ' &&
    forall i :: 0 <= i < |s| && IsWhitespace(s[i]) ==> i == d || i == d + l + 1
  }

  lemma SpacedSplitOfClean(u: string, d: int, l: int)
    requires NoWhitespace(u) && FormerSplit(u, d, l)
    ensures SpacedSplit(HyphensToSpaces(u), d, l)
  {
    var n := HyphensToSpaces(u);
    assert u[d] == '-' && u[d + l + 1] == '-';
    forall i | 0 <= i < |n| && IsWhitespace(n[i]) ensures i == d || i == d + l + 1 {
      assert u[i] == '-';
    }
  }

  /**
   * In the former-format branch the rendering has the former format with
   * exactly two separators, each a single space, and no hyphen.
   */
  lemma NormalizeFormerSeparators(value: string)
    requires IsFormerFormat(Hyphenated(value))
    ensures NoHyphen(Normalize(value))
    ensures exists d, l :: SpacedSplit(Normalize(value), d, l)
  {
    var u := Hyphenated(value);
    HyphenatedIsClean(value);
    var d, l :| 2 <= d <= 4 && 1 <= l <= 3 && FormerSplit(u, d, l);
    SpacedSplitOfClean(u, d, l);
  }

  /** A former-format value starts with a digit and ends with a letter or digit. */
  lemma FormerEnds(s: string)
    requires IsFormerFormat(s)
    ensures |s| >= 7 && IsDigit(s[0]) && IsAlnum(s[|s| - 1])
  {
    var d, l :| 2 <= d <= 4 && 1 <= l <= 3 && FormerSplit(s, d, l);
  }

  /** Outside the former-format branch the rendering is the line 51 value, with no whitespace. */
  lemma NormalizeHyphenBranch(value: string)
    requires !IsFormerFormat(Hyphenated(value))
    ensures Normalize(value) == Hyphenated(value)
    ensures NoWhitespace(Normalize(value))
  {
  }

  /**
   * An accepted value renders either as `XX-999-XX` (nine characters) or in
   * the former format with spaces, seven to twelve characters long.
   */
  lemma AcceptedShapes(value: string)
    requires Validate(value)
    ensures var n := Normalize(value);
      (IsCurrentFormat(n) && !IsFormerFormat(n) && |n| == 9) ||
      (IsFormerFormat(n) && !IsCurrentFormat(n) && NoHyphen(n) && 7 <= |n| <= 12)
  {
    var n := Normalize(value);
    FormatsDisjoint(n);
    if IsFormerFormat(n) {
      var d, l :| 2 <= d <= 4 && 1 <= l <= 3 && FormerSplit(n, d, l);
    }
  }

  /**
   * normalize does not trim: a leading separator renders as a leading `-`,
   * so the value is rejected.
   */
  lemma LeadingSeparatorRejected(value: string)
    requires value != [] && IsSeparator(value[0])
    ensures Normalize(value) != [] && Normalize(value)[0] == '-'
    ensures !Validate(value)
  {
    var u := Hyphenated(value);
    UpperCharClasses('-');
    assert u[0] == '-';
    if IsFormerFormat(u) {
      FormerEnds(u);
    }
    ValidateOnHyphenated(value);
  }

  /** The same for a trailing separator: it renders as a trailing `-`. */
  lemma TrailingSeparatorRejected(value: string)
    requires value != [] && IsSeparator(value[|value| - 1])
    ensures Normalize(value) != [] && Normalize(value)[|Normalize(value)| - 1] == '-'
    ensures !Validate(value)
  {
    var u := Hyphenated(value);
    UpperCharClasses('-');
    assert u[|u| - 1] == '-';
    if IsFormerFormat(u) {
      FormerEnds(u);
    }
    ValidateOnHyphenated(value);
  }

  // ---------------------------------------------------------------------------
  // Nothing but separators and case changes
  // ---------------------------------------------------------------------------

  /** The characters of `s` that are neither whitespace nor `-`, in order. */
  function Skeleton(s: string): string {
    if s == [] then []
    else (if IsSeparator(s[0]) then [] else [s[0]]) + Skeleton(s[1..])
  }

  lemma {:induction false} SkeletonOfReplaceRuns(s: string, k: RunClass)
    ensures Skeleton(ReplaceRuns(s, k)) == Skeleton(s)
    decreases |s|
  {
    if s != [] {
      var rest := s[1..];
      SkeletonOfReplaceRuns(rest, k);
      if !(InRun(s[0], k) && |s| > 1 && InRun(s[1], k)) {
        var c := if InRun(s[0], k) then '-' else s[0];
        var r' := ReplaceRuns(rest, k);
        assert ReplaceRuns(s, k) == [c] + r';
        assert ([c] + r')[1..] == r';
      }
    }
  }

  lemma {:induction false} SkeletonOfToUpper(s: string)
    ensures Skeleton(ToUpper(s)) == ToUpper(Skeleton(s))
    decreases |s|
  {
    if s != [] {
      var rest := s[1..];
      UpperCharClasses(s[0]);
      ToUpperCons(s[0], rest);
      assert [s[0]] + rest == s;
      SkeletonOfToUpper(rest);
      assert ([UpperChar(s[0])] + ToUpper(rest))[1..] == ToUpper(rest);
      if !IsSeparator(s[0]) {
        ToUpperCons(s[0], Skeleton(rest));
      }
    }
  }

  lemma {:induction false} SkeletonOfSpaced(s: string)
    ensures Skeleton(HyphensToSpaces(s)) == Skeleton(s)
    decreases |s|
  {
    if s != [] {
      assert HyphensToSpaces(s)[1..] == HyphensToSpaces(s[1..]);
      SkeletonOfSpaced(s[1..]);
    }
  }

  /**
   * normalize changes only separators and case: removing whitespace and `-`
   * from its result leaves the upper-cased value with whitespace and `-`
   * removed, in the same order.
   */
  lemma NormalizeKeepsSkeleton(value: string)
    ensures Skeleton(Normalize(value)) == ToUpper(Skeleton(value))
  {
    var w := ReplaceRuns(value, Whitespace);
    var h := ReplaceRuns(w, Hyphen);
    SkeletonOfReplaceRuns(value, Whitespace);
    SkeletonOfReplaceRuns(w, Hyphen);
    SkeletonOfToUpper(h);
    SkeletonOfSpaced(ToUpper(h));
  }

  /** Collapsing runs commutes with upper-casing, which keeps whitespace and hyphens where they are. */
  lemma {:induction false} ReplaceRunsOfUpper(s: string, k: RunClass)
    ensures ReplaceRuns(ToUpper(s), k) == ToUpper(ReplaceRuns(s, k))
    decreases |s|
  {
    if s != [] {
      var t := ToUpper(s);
      var rest := s[1..];
      UpperCharClasses(s[0]);
      assert InRun(t[0], k) == InRun(s[0], k);
      if |s| > 1 {
        UpperCharClasses(s[1]);
        assert InRun(t[1], k) == InRun(s[1], k);
      }
      assert t[1..] == ToUpper(rest);
      ReplaceRunsOfUpper(rest, k);
      if !(InRun(s[0], k) && |s| > 1 && InRun(s[1], k)) {
        var c := if InRun(s[0], k) then '-' else s[0];
        var r' := ReplaceRuns(rest, k);
        assert ReplaceRuns(s, k) == [c] + r';
        ToUpperCons(c, r');
      }
    }
  }

  /** normalize and validate ignore letter case. */
  lemma NormalizeIgnoresCase(value: string)
    ensures Hyphenated(ToUpper(value)) == Hyphenated(value)
    ensures Normalize(ToUpper(value)) == Normalize(value)
    ensures Validate(ToUpper(value)) == Validate(value)
  {
    var w := ReplaceRuns(value, Whitespace);
    var h := ReplaceRuns(w, Hyphen);
    assert Hyphenated(ToUpper(value)) == Hyphenated(value) by {
      ReplaceRunsOfUpper(value, Whitespace);
      ReplaceRunsOfUpper(w, Hyphen);
      ToUpperIdempotent(h);
    }
  }

  // ---------------------------------------------------------------------------
  // The examples of the class documentation
  // ---------------------------------------------------------------------------

  /** A clean current-format value is accepted and renders as itself. */
  lemma CurrentFixpoint(u: string)
    requires Clean(u) && IsCurrentFormat(u)
    ensures Normalize(u) == u && Validate(u)
  {
    HyphenatedOfClean(u);
    FormatsDisjoint(u);
  }

  /** The space rendering of a clean former-format value is accepted and renders as itself. */
  lemma FormerFixpoint(u: string, d: int, l: int)
    requires Clean(u) && FormerSplit(u, d, l)
    ensures Normalize(HyphensToSpaces(u)) == HyphensToSpaces(u) && Validate(HyphensToSpaces(u))
  {
    HyphenatedOfSpaced(u);
    SpacedFormer(u);
  }

  /** `AA-001-AB`, a current-format example (line 13). */
  lemma ExampleAA001AB()
    ensures Validate("AA-001-AB") && Normalize("AA-001-AB") == "AA-001-AB"
  {
    var u := "AA-001-AB";
    assert Clean(u) && IsCurrentFormat(u);
    CurrentFixpoint(u);
  }

  /** `AB-123-BC`, a current-format example (line 14). */
  lemma ExampleAB123BC()
    ensures Validate("AB-123-BC") && Normalize("AB-123-BC") == "AB-123-BC"
  {
    var u := "AB-123-BC";
    assert Clean(u) && IsCurrentFormat(u);
    CurrentFixpoint(u);
  }

  /** `2928 TW 74`, a former-format example (line 23). */
  lemma Example2928TW74()
    ensures Validate("2928 TW 74") && Normalize("2928 TW 74") == "2928 TW 74"
  {
    var u := "2928-TW-74";
    assert Clean(u) && FormerSplit(u, 4, 2);
    assert HyphensToSpaces(u) == "2928 TW 74";
    FormerFixpoint(u, 4, 2);
  }

  /** `324 EBS 91`, a former-format example (line 24). */
  lemma Example324EBS91()
    ensures Validate("324 EBS 91") && Normalize("324 EBS 91") == "324 EBS 91"
  {
    var u := "324-EBS-91";
    assert Clean(u) && FormerSplit(u, 3, 3);
    assert HyphensToSpaces(u) == "324 EBS 91";
    FormerFixpoint(u, 3, 3);
  }

  /** `56 ABM 13`, a former-format example (line 25). */
  lemma Example56ABM13()
    ensures Validate("56 ABM 13") && Normalize("56 ABM 13") == "56 ABM 13"
  {
    var u := "56-ABM-13";
    assert Clean(u) && FormerSplit(u, 2, 3);
    assert HyphensToSpaces(u) == "56 ABM 13";
    FormerFixpoint(u, 2, 3);
  }

  /** `11 GY 2A`, a former-format example (line 26). */
  lemma Example11GY2A()
    ensures Validate("11 GY 2A") && Normalize("11 GY 2A") == "11 GY 2A"
  {
    var u := "11-GY-2A";
    assert Clean(u) && FormerSplit(u, 2, 2);
    assert HyphensToSpaces(u) == "11 GY 2A";
    FormerFixpoint(u, 2, 2);
  }

  /** `654 ANY 971`, a former-format example (line 27). */
  lemma Example654ANY971()
    ensures Validate("654 ANY 971") && Normalize("654 ANY 971") == "654 ANY 971"
  {
    var u := "654-ANY-971";
    assert Clean(u) && FormerSplit(u, 3, 3);
    assert HyphensToSpaces(u) == "654 ANY 971";
    FormerFixpoint(u, 3, 3);
  }

  /** A current-format plate written without hyphens is rejected: the pattern requires them. */
  lemma ExampleWithoutHyphensRejected()
    ensures Normalize("AB001AB") == "AB001AB" && !Validate("AB001AB")
  {
    var u := "AB001AB";
    assert Clean(u);
    HyphenatedOfClean(u);
    assert !IsFormerFormat(u) by {
      if IsFormerFormat(u) {
        FormerEnds(u);
      }
    }
  }

  /** Four digits in the middle match neither format. */
  lemma ExampleFourDigitsRejected()
    ensures Normalize("AA-0001-AB") == "AA-0001-AB" && !Validate("AA-0001-AB")
  {
    var u := "AA-0001-AB";
    assert Clean(u);
    HyphenatedOfClean(u);
    assert !IsFormerFormat(u) by {
      if IsFormerFormat(u) {
        FormerEnds(u);
      }
    }
  }
}
