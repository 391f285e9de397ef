/** The slug generator shared by the post, category and tag forms, and the
    rule that decides whether a form regenerates the slug when the name
    changes.

    `generateSlug` lower-cases and trims its input, then applies four regular
    expression replacements in order:
      1. `/[^\w\s\u1000-\u109F-]/g -> ''`  drop every disallowed character;
      2. `/[\s_]+/g -> '-'`                each run of whitespace/underscore
                                          becomes one hyphen;
      3. `/-+/g -> '-'`                    each run of hyphens becomes one;
      4. `/^-|-$/g -> ''`                  strip one leading and one trailing
                                          hyphen.
    Each step is one function below; `GenerateSlug` is their composition. */
module Slug {

  // ---------------------------------------------------------------------
  // Character classes
  // ---------------------------------------------------------------------

  predicate IsUpper(c: char) { 'A' <= c <= 'Z' }

  predicate IsLowerOrDigit(c: char) { 'a' <= c <= 'z' || '0' <= c <= '9' }

  /** The Myanmar block, U+1000 to U+109F. */
  predicate IsMyanmar(c: char) { '\U{1000}' <= c <= '\U{109F}' }

  /** JavaScript's `\w` without the `u` flag: `[A-Za-z0-9_]`. */
  predicate IsWordChar(c: char) { IsUpper(c) || IsLowerOrDigit(c) || c == '_' }

  /** JavaScript's `\s`, which is also the set `String.prototype.trim` removes:
      the ASCII white space, the line terminators and the Unicode space
      separators. */
  predicate IsSpace(c: char)
  {
    c == ' ' || c == '\t' || c == '\n' || c == '\U{000B}' || c == '\U{000C}' || c == '\r'
    || c == '\U{00A0}' || c == '\U{1680}' || ('\U{2000}' <= c <= '\U{200A}')
    || c == '\U{2028}' || c == '\U{2029}' || c == '\U{202F}' || c == '\U{205F}'
    || c == '\U{3000}' || c == '\U{FEFF}'
  }

  /** What step 1 keeps: `[\w\s\u1000-\u109F-]`. */
  predicate Kept(c: char) { IsWordChar(c) || IsSpace(c) || IsMyanmar(c) || c == '-' }

  /** What step 2 replaces: `[\s_]`. */
  predicate IsSeparator(c: char) { IsSpace(c) || c == '_' }

  /** The characters a slug may contain: `a-z`, `0-9`, Myanmar and `-`. */
  predicate SlugChar(c: char) { IsLowerOrDigit(c) || IsMyanmar(c) || c == '-' }

  predicate AllSlugChars(s: string) { forall i :: 0 <= i < |s| ==> SlugChar(s[i]) }

  predicate NoDoubleHyphen(s: string)
  {
    forall i, j :: 0 <= i < |s| && 0 <= j < |s| && j == i + 1 ==> !(s[i] == '-' && s[j] == '-')
  }

  predicate NoEdgeHyphen(s: string)
  {
    s != [] ==> s[0] != '-' && s[|s| - 1] != '-'
  }

  /** A well-formed slug: the shape every output of `GenerateSlug` has. */
  predicate IsSlug(s: string)
  {
    AllSlugChars(s) && NoDoubleHyphen(s) && NoEdgeHyphen(s)
  }

  /** Letters, digits and Myanmar characters: whatever is not punctuation,
      white space, underscore or hyphen after lower-casing. */
  predicate Meaningful(c: char) { IsLowerOrDigit(c) || IsMyanmar(c) }

  // ---------------------------------------------------------------------
  // The steps
  // ---------------------------------------------------------------------

  /** `toLowerCase` on the ASCII letters. Other characters are kept as they
      are. */
  function LowerChar(c: char): (r: char)
    ensures !IsUpper(r)
    ensures IsUpper(c) ==> r as int == c as int + 32
    ensures !IsUpper(c) ==> r == c
  {
    if IsUpper(c) then (c as int + 32) as char else c
  }

  function Lower(s: string): (r: string)
    ensures |r| == |s|
    ensures forall i :: 0 <= i < |r| ==> r[i] == LowerChar(s[i])
  {
    seq(|s|, i requires 0 <= i < |s| => LowerChar(s[i]))
  }

  /** The number of white-space characters at the start of `s`. */
  function LeadingSpaces(s: string): (n: nat)
    ensures n <= |s|
    ensures forall i :: 0 <= i < n ==> IsSpace(s[i])
    ensures n < |s| ==> !IsSpace(s[n])
  {
    if s != [] && IsSpace(s[0]) then 1 + LeadingSpaces(s[1..]) else 0
  }

  /** The number of white-space characters at the end of `s`. */
  function TrailingSpaces(s: string): (n: nat)
    ensures n <= |s|
    ensures forall i :: |s| - n <= i < |s| ==> IsSpace(s[i])
    ensures n < |s| ==> !IsSpace(s[|s| - n - 1])
  {
    if s != [] && IsSpace(s[|s| - 1]) then 1 + TrailingSpaces(s[..|s| - 1]) else 0
  }

  /** `trim`: the white space at both ends is removed. What is left is the
      slice of `s` that starts at its first and ends at its last character
      that is not white space. */
  function Trim(s: string): (r: string)
    ensures |r| <= |s| - LeadingSpaces(s)
    ensures forall i :: 0 <= i < |r| ==> r[i] == s[LeadingSpaces(s) + i]
    ensures forall k :: 0 <= k < |s| && !IsSpace(s[k]) ==> LeadingSpaces(s) <= k < LeadingSpaces(s) + |r|
    ensures s == [] || (!IsSpace(s[0]) && !IsSpace(s[|s| - 1])) ==> r == s
    ensures r == [] || (!IsSpace(r[0]) && !IsSpace(r[|r| - 1]))
  {
    var t := s[LeadingSpaces(s)..];
    t[..|t| - TrailingSpaces(t)]
  }

  /** Step 1: every character outside `[\w\s\u1000-\u109F-]` is removed. */
  function DropDisallowed(s: string): (r: string)
    ensures |r| <= |s|
    ensures forall i :: 0 <= i < |r| ==> Kept(r[i]) && r[i] in s
  {
    if s == [] then []
    else (if Kept(s[0]) then [s[0]] else []) + DropDisallowed(s[1..])
  }

  /** Step 2: a maximal run of white space and underscores becomes one hyphen.
      `inRun` says whether the character before `s` belonged to such a run
      (and has been replaced already). */
  function SeparatorsToHyphen(s: string, inRun: bool): (r: string)
    ensures |r| <= |s|
    ensures forall i :: 0 <= i < |r| ==> !IsSeparator(r[i]) && (r[i] in s || r[i] == '-')
  {
    if s == [] then []
    else if IsSeparator(s[0]) then
      (if inRun then [] else ['-']) + SeparatorsToHyphen(s[1..], true)
    else [s[0]] + SeparatorsToHyphen(s[1..], false)
  }

  /** Step 3: a maximal run of hyphens becomes one hyphen. `afterHyphen` says
      whether the character before `s` was a hyphen (already written). */
  function CollapseHyphens(s: string, afterHyphen: bool): (r: string)
    ensures |r| <= |s|
    ensures NoDoubleHyphen(r)
    ensures afterHyphen && r != [] ==> r[0] != '-'
    ensures forall i :: 0 <= i < |r| ==> r[i] in s
  {
    if s == [] then []
    else
      var rest := CollapseHyphens(s[1..], s[0] == '-');
      NoDoubleHyphenTail(s);
      var r := if s[0] == '-' && afterHyphen then rest else [s[0]] + rest;
      NoDoubleHyphenCons(s[0], rest);
      r
  }

  /** Step 4, first alternative of `/^-|-$/g`: a hyphen at the start. */
  function StripLeadingHyphen(s: string): (r: string)
    ensures s != [] && s[0] == '-' ==> r == s[1..]
    ensures !(s != [] && s[0] == '-') ==> r == s
  {
    if s != [] && s[0] == '-' then s[1..] else s
  }

  /** Step 4, second alternative: a hyphen at the end of what is left. */
  function StripTrailingHyphen(s: string): (r: string)
    ensures s != [] && s[|s| - 1] == '-' ==> r == s[..|s| - 1]
    ensures !(s != [] && s[|s| - 1] == '-') ==> r == s
  {
    if s != [] && s[|s| - 1] == '-' then s[..|s| - 1] else s
  }

  /** Step 4: `/^-|-$/g`, one hyphen off each end. The global match resumes
      after a leading hyphen, so on `"-"` that one hyphen is matched by `^-`
      and the result is empty. */
  function StripEdgeHyphens(s: string): (r: string)
  {
    StripTrailingHyphen(StripLeadingHyphen(s))
  }

  /** `generateSlug`, the same text in the post, category and tag forms. Its
      output contains only `a-z`, `0-9`, Myanmar characters and `-`, never two
      hyphens in a row, and no hyphen at either end. */
  function GenerateSlug(text: string): (r: string)
    ensures AllSlugChars(r)
    ensures NoDoubleHyphen(r)
    ensures NoEdgeHyphen(r)
  {
    var lowered := Lower(text);
    var kept := DropDisallowed(Trim(lowered));
    var hyphened := SeparatorsToHyphen(kept, false);
    var collapsed := CollapseHyphens(hyphened, false);
    KeptHasNoUpper(lowered, kept);
    SeparatedAreSlugChars(kept, hyphened);
    CollapsedAreSlugChars(hyphened, collapsed);
    StripEdgeHyphensShape(collapsed);
    StripEdgeHyphens(collapsed)
  }

  // ---------------------------------------------------------------------
  // Lemmas that the contracts of the steps rest on
  // ---------------------------------------------------------------------

  lemma NoDoubleHyphenTail(s: string)
    requires s != []
    ensures NoDoubleHyphen(s) ==> NoDoubleHyphen(s[1..])
    ensures NoDoubleHyphen(s) && s[0] == '-' && |s| > 1 ==> s[1] != '-'
  {
    if NoDoubleHyphen(s) {
      var t := s[1..];
      forall i, j | 0 <= i < |t| && 0 <= j < |t| && j == i + 1
        ensures !(t[i] == '-' && t[j] == '-')
      {
        assert t[i] == s[i + 1] && t[j] == s[j + 1];
      }
      if s[0] == '-' && |s| > 1 {
        assert !(s[0] == '-' && s[1] == '-');
      }
    }
  }

  lemma NoDoubleHyphenCons(c: char, rest: string)
    requires NoDoubleHyphen(rest)
    requires c == '-' ==> rest == [] || rest[0] != '-'
    ensures NoDoubleHyphen([c] + rest)
  {
    var t := [c] + rest;
    forall i, j | 0 <= i < |t| && 0 <= j < |t| && j == i + 1
      ensures !(t[i] == '-' && t[j] == '-')
    {
      if i > 0 {
        assert t[i] == rest[i - 1] && t[j] == rest[j - 1];
      }
    }
  }

  /** Lower-casing comes first, so what step 1 keeps holds no upper-case
      letter. */
  lemma KeptHasNoUpper(lowered: string, kept: string)
    requires forall i :: 0 <= i < |lowered| ==> !IsUpper(lowered[i])
    requires kept == DropDisallowed(Trim(lowered))
    ensures forall i :: 0 <= i < |kept| ==> !IsUpper(kept[i]) && Kept(kept[i])
  {
    var trimmed := Trim(lowered);
    forall i | 0 <= i < |kept| ensures !IsUpper(kept[i]) {
      var j :| 0 <= j < |trimmed| && trimmed[j] == kept[i];
      assert trimmed[j] == lowered[LeadingSpaces(lowered) + j];
    }
  }

  lemma SeparatedAreSlugChars(kept: string, hyphened: string)
    requires forall i :: 0 <= i < |kept| ==> !IsUpper(kept[i]) && Kept(kept[i])
    requires hyphened == SeparatorsToHyphen(kept, false)
    ensures AllSlugChars(hyphened)
  {
    forall i | 0 <= i < |hyphened| ensures SlugChar(hyphened[i]) {
      if hyphened[i] != '-' {
        var j :| 0 <= j < |kept| && kept[j] == hyphened[i];
      }
    }
  }

  lemma CollapsedAreSlugChars(hyphened: string, collapsed: string)
    requires AllSlugChars(hyphened)
    requires collapsed == CollapseHyphens(hyphened, false)
    ensures AllSlugChars(collapsed)
  {
    forall i | 0 <= i < |collapsed| ensures SlugChar(collapsed[i]) {
      var j :| 0 <= j < |hyphened| && hyphened[j] == collapsed[i];
    }
  }

  /** Step 4 only removes a character at either end, so it keeps the slug
      character set and the absence of double hyphens; on a string without
      double hyphens it leaves no hyphen at either end. */
  lemma StripEdgeHyphensShape(s: string)
    requires AllSlugChars(s) && NoDoubleHyphen(s)
    ensures IsSlug(StripEdgeHyphens(s))
  {
    var t := StripLeadingHyphen(s);
    if s != [] {
      NoDoubleHyphenTail(s);
    }
    assert NoDoubleHyphen(t);
    assert t == [] || t[0] != '-';
    var r := StripTrailingHyphen(t);
    if t != [] && t[|t| - 1] == '-' {
      if |t| > 1 {
        assert t[|t| - 2] != '-';
      }
      forall i, j | 0 <= i < |r| && 0 <= j < |r| && j == i + 1
        ensures !(r[i] == '-' && r[j] == '-')
      {
        assert r[i] == t[i] && r[j] == t[j];
      }
    }
  }

  // ---------------------------------------------------------------------
  // Properties of GenerateSlug
  // ---------------------------------------------------------------------

  /** On a well-formed slug every step is the identity. */
  lemma StepsFixSlug(s: string)
    requires IsSlug(s)
    ensures Lower(s) == s
    ensures Trim(s) == s
    ensures DropDisallowed(s) == s
    ensures SeparatorsToHyphen(s, false) == s
    ensures CollapseHyphens(s, false) == s
    ensures StripEdgeHyphens(s) == s
  {
    LowerFixesSlug(s);
    TrimFixesSlug(s);
    DropFixesSlug(s);
    SeparatorsFixSlug(s);
    CollapseKeepsSingleHyphens(s, false);
    StripFixesSlug(s);
  }

  /** What a slug character is not. */
  lemma SlugCharClass(c: char)
    requires SlugChar(c)
    ensures !IsUpper(c) && !IsSpace(c) && !IsSeparator(c) && Kept(c)
  {
  }

  lemma LowerFixesSlug(s: string)
    requires AllSlugChars(s)
    ensures Lower(s) == s
  {
    forall i | 0 <= i < |s| ensures Lower(s)[i] == s[i] {
      SlugCharClass(s[i]);
    }
  }

  lemma TrimFixesSlug(s: string)
    requires AllSlugChars(s)
    ensures Trim(s) == s
  {
    if s != [] {
      SlugCharClass(s[0]);
      SlugCharClass(s[|s| - 1]);
    }
  }

  lemma DropFixesSlug(s: string)
    requires AllSlugChars(s)
    ensures DropDisallowed(s) == s
  {
    forall i | 0 <= i < |s| ensures Kept(s[i]) {
      SlugCharClass(s[i]);
    }
    DropKeepsAllowed(s);
  }

  /** Step 1 leaves a string of allowed characters unchanged. */
  lemma {:induction false} DropKeepsAllowed(s: string)
    requires forall i :: 0 <= i < |s| ==> Kept(s[i])
    ensures DropDisallowed(s) == s
    decreases |s|
  {
    if s != [] {
      assert forall i :: 0 <= i < |s[1..]| ==> s[1..][i] == s[i + 1];
      DropKeepsAllowed(s[1..]);
      assert [s[0]] + s[1..] == s;
    }
  }

  /** Step 3 leaves a string without two hyphens in a row unchanged (and
      without a leading hyphen when one was just written). */
  lemma {:induction false} CollapseKeepsSingleHyphens(s: string, afterHyphen: bool)
    requires NoDoubleHyphen(s)
    requires afterHyphen && s != [] ==> s[0] != '-'
    ensures CollapseHyphens(s, afterHyphen) == s
    decreases |s|
  {
    if s != [] {
      NoDoubleHyphenTail(s);
      CollapseKeepsSingleHyphens(s[1..], s[0] == '-');
      assert [s[0]] + s[1..] == s;
    }
  }

  lemma SeparatorsFixSlug(s: string)
    requires AllSlugChars(s)
    ensures SeparatorsToHyphen(s, false) == s
  {
    forall i | 0 <= i < |s| ensures !IsSeparator(s[i]) {
      SlugCharClass(s[i]);
    }
    if s != [] {
      SeparatorsKeepWord(s, [], false);
      assert s + [] == s;
    }
  }

  lemma StripFixesSlug(s: string)
    requires NoEdgeHyphen(s)
    ensures StripEdgeHyphens(s) == s
  {
    assert StripLeadingHyphen(s) == s;
  }

  /** The well-formed slugs are exactly the strings `GenerateSlug` leaves
      unchanged. */
  lemma FixedPointsAreSlugs(s: string)
    ensures GenerateSlug(s) == s <==> IsSlug(s)
  {
    if IsSlug(s) {
      StepsFixSlug(s);
    }
  }

  /** `generateSlug(generateSlug(x)) == generateSlug(x)`. */
  lemma GenerateSlugIdempotent(text: string)
    ensures GenerateSlug(GenerateSlug(text)) == GenerateSlug(text)
  {
    FixedPointsAreSlugs(GenerateSlug(text));
  }

  /** An input with no letter, no digit and no Myanmar character, such as one
      made only of punctuation, white space and hyphens, gives `""`. */
  lemma NothingMeaningfulGivesEmpty(text: string)
    requires forall i :: 0 <= i < |text| ==> !Meaningful(LowerChar(text[i]))
    ensures GenerateSlug(text) == ""
  {
    var lowered := Lower(text);
    var kept := DropDisallowed(Trim(lowered));
    KeptNotMeaningful(lowered, kept);
    var hyphened := SeparatorsToHyphen(kept, false);
    SeparatedOnlyHyphens(kept, hyphened);
    var collapsed := CollapseHyphens(hyphened, false);
    forall i | 0 <= i < |collapsed| ensures collapsed[i] == '-' {
      var j :| 0 <= j < |hyphened| && hyphened[j] == collapsed[i];
    }
    OnlyHyphensStripToEmpty(collapsed);
  }

  /** Without letters, digits and Myanmar characters step 1 leaves only
      separators and hyphens. */
  lemma KeptNotMeaningful(lowered: string, kept: string)
    requires forall i :: 0 <= i < |lowered| ==> !Meaningful(lowered[i]) && !IsUpper(lowered[i])
    requires kept == DropDisallowed(Trim(lowered))
    ensures forall i :: 0 <= i < |kept| ==> kept[i] == '-' || IsSeparator(kept[i])
  {
    var trimmed := Trim(lowered);
    forall i | 0 <= i < |kept| ensures kept[i] == '-' || IsSeparator(kept[i]) {
      var j :| 0 <= j < |trimmed| && trimmed[j] == kept[i];
      assert trimmed[j] == lowered[LeadingSpaces(lowered) + j];
    }
  }

  /** Step 2 then leaves only hyphens. */
  lemma SeparatedOnlyHyphens(kept: string, hyphened: string)
    requires forall i :: 0 <= i < |kept| ==> kept[i] == '-' || IsSeparator(kept[i])
    requires hyphened == SeparatorsToHyphen(kept, false)
    ensures forall i :: 0 <= i < |hyphened| ==> hyphened[i] == '-'
  {
    forall i | 0 <= i < |hyphened| ensures hyphened[i] == '-' {
      var c := hyphened[i];
      if c in kept {
        var j :| 0 <= j < |kept| && kept[j] == c;
      }
    }
  }

  /** A string of hyphens without two in a row is `""` or `"-"`, and step 4
      empties it. */
  lemma OnlyHyphensStripToEmpty(s: string)
    requires forall i :: 0 <= i < |s| ==> s[i] == '-'
    requires NoDoubleHyphen(s)
    ensures StripEdgeHyphens(s) == ""
  {
    FirstTwoNotHyphens(s);
    assert |s| <= 1;
  }

  lemma FirstTwoNotHyphens(s: string)
    requires NoDoubleHyphen(s)
    ensures |s| >= 2 ==> !(s[0] == '-' && s[1] == '-')
  {
  }

  /** Conversely, an input holding a letter, a digit or a Myanmar character
      never gives `""`: steps 1 to 4 keep every such character. */
  lemma MeaningfulGivesNonEmpty(text: string, k: nat)
    requires k < |text| && Meaningful(LowerChar(text[k]))
    ensures GenerateSlug(text) != ""
  {
    var lowered := Lower(text);
    var m := TrimKeepsNonSpace(lowered, k);
    MeaningfulSurvives(Trim(lowered), m);
  }

  lemma TrimKeepsNonSpace(s: string, k: nat) returns (m: nat)
    requires k < |s| && !IsSpace(s[k])
    ensures m < |Trim(s)| && Trim(s)[m] == s[k]
  {
    m := k - LeadingSpaces(s);
  }

  lemma MeaningfulSurvives(s: string, k: nat)
    requires k < |s| && Meaningful(s[k])
    ensures StripEdgeHyphens(CollapseHyphens(SeparatorsToHyphen(DropDisallowed(s), false), false)) != ""
  {
    var j1 := KeptSurvives(s, k);
    var kept := DropDisallowed(s);
    var j2 := SeparatedSurvives(kept, false, j1);
    var hyphened := SeparatorsToHyphen(kept, false);
    var j3 := CollapsedSurvives(hyphened, false, j2);
    var collapsed := CollapseHyphens(hyphened, false);
    StripKeepsNonHyphen(collapsed, j3);
  }

  /** Stripping the edge hyphens keeps every character that is not a
      hyphen. */
  lemma StripKeepsNonHyphen(s: string, j: nat)
    requires j < |s| && s[j] != '-'
    ensures StripEdgeHyphens(s) != ""
  {
    var t := StripLeadingHyphen(s);
    var j' := if s[0] == '-' then j - 1 else j;
    assert j' < |t| && t[j'] == s[j];
    assert StripTrailingHyphen(t)[..] != "" by {
      if t[|t| - 1] == '-' {
        assert j' < |t| - 1;
        assert StripTrailingHyphen(t)[j'] == t[j'];
      }
    }
  }

  lemma {:induction false} KeptSurvives(s: string, k: nat) returns (j: nat)
    requires k < |s| && Meaningful(s[k])
    ensures j < |DropDisallowed(s)| && DropDisallowed(s)[j] == s[k]
  {
    if k == 0 {
      j := 0;
    } else {
      var j' := KeptSurvives(s[1..], k - 1);
      j := if Kept(s[0]) then j' + 1 else j';
    }
  }

  lemma {:induction false} SeparatedSurvives(s: string, inRun: bool, k: nat) returns (j: nat)
    requires k < |s| && Meaningful(s[k])
    ensures j < |SeparatorsToHyphen(s, inRun)| && SeparatorsToHyphen(s, inRun)[j] == s[k]
  {
    if k == 0 {
      assert !IsSeparator(s[0]);
      assert SeparatorsToHyphen(s, inRun) == [s[0]] + SeparatorsToHyphen(s[1..], false);
      j := 0;
    } else if IsSeparator(s[0]) {
      var j' := SeparatedSurvives(s[1..], true, k - 1);
      var pre := if inRun then [] else ['-'];
      assert SeparatorsToHyphen(s, inRun) == pre + SeparatorsToHyphen(s[1..], true);
      j := |pre| + j';
    } else {
      var j' := SeparatedSurvives(s[1..], false, k - 1);
      assert SeparatorsToHyphen(s, inRun) == [s[0]] + SeparatorsToHyphen(s[1..], false);
      j := j' + 1;
    }
  }

  lemma {:induction false} CollapsedSurvives(s: string, afterHyphen: bool, k: nat) returns (j: nat)
    requires k < |s| && Meaningful(s[k])
    ensures j < |CollapseHyphens(s, afterHyphen)| && CollapseHyphens(s, afterHyphen)[j] == s[k]
  {
    if k == 0 {
      j := 0;
    } else {
      var j' := CollapsedSurvives(s[1..], s[0] == '-', k - 1);
      j := if s[0] == '-' && afterHyphen then j' else j' + 1;
    }
  }

  // ---------------------------------------------------------------------
  // What each step keeps
  // ---------------------------------------------------------------------

  /** Step 1 decides character by character: a character stays, in its
      place, exactly when it is allowed. */
  lemma DropDisallowedFilter(a: string, c: char, b: string)
    ensures DropDisallowed(a + [c] + b)
            == DropDisallowed(a) + (if Kept(c) then [c] else []) + DropDisallowed(b)
  {
    DropDisallowedAppend(a + [c], b);
    DropDisallowedAppend(a, [c]);
    DropDisallowedChar(c);
  }

  lemma DropDisallowedChar(c: char)
    ensures DropDisallowed([c]) == if Kept(c) then [c] else []
  {
    assert [c][1..] == [];
  }

  lemma {:induction false} DropDisallowedAppend(a: string, b: string)
    ensures DropDisallowed(a + b) == DropDisallowed(a) + DropDisallowed(b)
    decreases |a|
  {
    if a == [] {
      assert a + b == b;
    } else {
      assert (a + b)[1..] == a[1..] + b;
      DropDisallowedAppend(a[1..], b);
    }
  }

  /** Step 2 turns a whole run of white space and underscores into a single
      hyphen (none when the run continues one already replaced). */
  lemma {:induction false} SeparatorRunIsOneHyphen(run: string, t: string, inRun: bool)
    requires run != [] && forall i :: 0 <= i < |run| ==> IsSeparator(run[i])
    ensures SeparatorsToHyphen(run + t, inRun) == (if inRun then [] else ['-']) + SeparatorsToHyphen(t, true)
    decreases |run|
  {
    assert (run + t)[0] == run[0];
    assert (run + t)[1..] == run[1..] + t;
    if |run| > 1 {
      SeparatorRunIsOneHyphen(run[1..], t, true);
    }
  }

  /** Step 2 copies a stretch without white space or underscores as it is;
      in particular a string without any is left unchanged. */
  lemma {:induction false} SeparatorsKeepWord(w: string, t: string, inRun: bool)
    requires w != [] && forall i :: 0 <= i < |w| ==> !IsSeparator(w[i])
    ensures SeparatorsToHyphen(w + t, inRun) == w + SeparatorsToHyphen(t, false)
    decreases |w|
  {
    SeparatorsCons(w[0], w[1..] + t, inRun);
    assert [w[0]] + (w[1..] + t) == w + t;
    if |w| > 1 {
      assert forall i :: 0 <= i < |w[1..]| ==> w[1..][i] == w[i + 1];
      SeparatorsKeepWord(w[1..], t, false);
      assert [w[0]] + (w[1..] + SeparatorsToHyphen(t, false)) == w + SeparatorsToHyphen(t, false);
    } else {
      assert w[1..] + t == t && w == [w[0]];
    }
  }

  lemma SeparatorsCons(c: char, s: string, inRun: bool)
    requires !IsSeparator(c)
    ensures SeparatorsToHyphen([c] + s, inRun) == [c] + SeparatorsToHyphen(s, false)
  {
    assert ([c] + s)[0] == c && ([c] + s)[1..] == s;
  }

  /** Step 3 turns a whole run of hyphens into a single hyphen (none when the
      run continues a hyphen already written). */
  lemma {:induction false} HyphenRunIsOneHyphen(run: string, t: string, afterHyphen: bool)
    requires run != [] && forall i :: 0 <= i < |run| ==> run[i] == '-'
    ensures CollapseHyphens(run + t, afterHyphen) == (if afterHyphen then [] else ['-']) + CollapseHyphens(t, true)
    decreases |run|
  {
    assert (run + t)[0] == '-';
    assert (run + t)[1..] == run[1..] + t;
    if |run| > 1 {
      HyphenRunIsOneHyphen(run[1..], t, true);
    }
  }

  /** Step 3 copies a stretch without hyphens as it is. */
  lemma {:induction false} CollapseKeepsWord(w: string, t: string, afterHyphen: bool)
    requires w != [] && forall i :: 0 <= i < |w| ==> w[i] != '-'
    ensures CollapseHyphens(w + t, afterHyphen) == w + CollapseHyphens(t, false)
    decreases |w|
  {
    var s := w + t;
    assert s[0] == w[0] && s[1..] == w[1..] + t;
    assert s[0] != '-';
    var rest := CollapseHyphens(s[1..], false);
    assert CollapseHyphens(s, afterHyphen) == [w[0]] + rest;
    if |w| > 1 {
      CollapseKeepsWord(w[1..], t, false);
      assert rest == w[1..] + CollapseHyphens(t, false);
      assert [w[0]] + (w[1..] + CollapseHyphens(t, false)) == w + CollapseHyphens(t, false);
    } else {
      assert s[1..] == t && w == [w[0]];
    }
  }

  /** The letters, digits and Myanmar characters of a string, in order. */
  function MeaningfulPart(s: string): (r: string)
    ensures forall i :: 0 <= i < |r| ==> Meaningful(r[i])
    ensures |r| <= |s|
    decreases |s|
  {
    if s == [] then []
    else (if Meaningful(s[0]) then [s[0]] else []) + MeaningfulPart(s[1..])
  }

  lemma {:induction false} MeaningfulPartAppend(a: string, b: string)
    ensures MeaningfulPart(a + b) == MeaningfulPart(a) + MeaningfulPart(b)
    decreases |a|
  {
    if a == [] {
      assert a + b == b;
    } else {
      assert (a + b)[1..] == a[1..] + b;
      MeaningfulPartAppend(a[1..], b);
    }
  }

  lemma {:induction false} NoMeaningfulPart(s: string)
    requires forall i :: 0 <= i < |s| ==> !Meaningful(s[i])
    ensures MeaningfulPart(s) == []
    decreases |s|
  {
    if s != [] {
      NoMeaningfulPart(s[1..]);
    }
  }

  lemma TrimKeepsMeaningful(s: string)
    ensures MeaningfulPart(Trim(s)) == MeaningfulPart(s)
  {
    var n := LeadingSpaces(s);
    var t := s[n..];
    var m := TrailingSpaces(t);
    assert Trim(s) == t[..|t| - m];
    MeaningfulPartSplit(s, n);
    SpacesNotMeaningful(s[..n]);
    MeaningfulPartSplit(t, |t| - m);
    SpacesNotMeaningful(t[|t| - m..]);
  }

  lemma SpacesNotMeaningful(s: string)
    requires forall i :: 0 <= i < |s| ==> IsSpace(s[i])
    ensures MeaningfulPart(s) == []
  {
    forall i | 0 <= i < |s| ensures !Meaningful(s[i]) {
      SpaceNotMeaningful(s[i]);
    }
    NoMeaningfulPart(s);
  }

  lemma SpaceNotMeaningful(c: char)
    requires IsSpace(c)
    ensures !Meaningful(c)
  {
  }

  lemma MeaningfulPartSplit(s: string, k: nat)
    requires k <= |s|
    ensures MeaningfulPart(s) == MeaningfulPart(s[..k]) + MeaningfulPart(s[k..])
  {
    assert s == s[..k] + s[k..];
    MeaningfulPartAppend(s[..k], s[k..]);
  }

  lemma {:induction false} DropKeepsMeaningful(s: string)
    ensures MeaningfulPart(DropDisallowed(s)) == MeaningfulPart(s)
    decreases |s|
  {
    if s != [] {
      var c := if Kept(s[0]) then [s[0]] else [];
      DropKeepsMeaningful(s[1..]);
      MeaningfulPartAppend(c, DropDisallowed(s[1..]));
      assert [s[0]][1..] == [];
    }
  }

  lemma {:induction false} SeparatorsKeepMeaningful(s: string, inRun: bool)
    ensures MeaningfulPart(SeparatorsToHyphen(s, inRun)) == MeaningfulPart(s)
    decreases |s|
  {
    if s != [] {
      var sep := IsSeparator(s[0]);
      var c := if sep then (if inRun then [] else ['-']) else [s[0]];
      SeparatorsKeepMeaningful(s[1..], sep);
      MeaningfulPartAppend(c, SeparatorsToHyphen(s[1..], sep));
      assert [s[0]][1..] == [] && ['-'][1..] == [];
    }
  }

  lemma {:induction false} CollapseKeepsMeaningful(s: string, afterHyphen: bool)
    ensures MeaningfulPart(CollapseHyphens(s, afterHyphen)) == MeaningfulPart(s)
    decreases |s|
  {
    if s != [] {
      var c := if s[0] == '-' && afterHyphen then [] else [s[0]];
      CollapseKeepsMeaningful(s[1..], s[0] == '-');
      MeaningfulPartAppend(c, CollapseHyphens(s[1..], s[0] == '-'));
      assert [s[0]][1..] == [];
    }
  }

  lemma StripKeepsMeaningful(s: string)
    ensures MeaningfulPart(StripEdgeHyphens(s)) == MeaningfulPart(s)
  {
    var t := StripLeadingHyphen(s);
    if s != [] && s[0] == '-' {
      assert s == ['-'] + s[1..];
      MeaningfulPartAppend(['-'], s[1..]);
      NoMeaningfulPart(['-']);
    }
    if t != [] && t[|t| - 1] == '-' {
      assert t == t[..|t| - 1] + ['-'];
      MeaningfulPartAppend(t[..|t| - 1], ['-']);
      NoMeaningfulPart(['-']);
    }
  }

  /** `generateSlug` loses no letter, digit or Myanmar character of the
      lower-cased text and adds none: those characters of the slug are the
      text's own, in their order. */
  lemma GenerateSlugKeepsMeaningful(text: string)
    ensures MeaningfulPart(GenerateSlug(text)) == MeaningfulPart(Lower(text))
  {
    var lowered := Lower(text);
    var kept := DropDisallowed(Trim(lowered));
    var hyphened := SeparatorsToHyphen(kept, false);
    var collapsed := CollapseHyphens(hyphened, false);
    TrimKeepsMeaningful(lowered);
    DropKeepsMeaningful(Trim(lowered));
    SeparatorsKeepMeaningful(kept, false);
    CollapseKeepsMeaningful(hyphened, false);
    StripKeepsMeaningful(collapsed);
  }

  // ---------------------------------------------------------------------
  // Regenerating the slug when the name changes
  // ---------------------------------------------------------------------

  /** The slug a form keeps after its name (or title) changes from `oldName`
      to `newName`: it is regenerated from the new name while it is empty or
      still equals the slug of the old name; a slug the user edited is kept. */
  function NextSlug(slug: string, oldName: string, newName: string): (r: string)
    ensures (slug == "" || slug == GenerateSlug(oldName)) ==> r == GenerateSlug(newName)
    ensures !(slug == "" || slug == GenerateSlug(oldName)) ==> r == slug
  {
    if slug == "" || slug == GenerateSlug(oldName) then GenerateSlug(newName) else slug
  }

  /** A slug the form keeps in sync stays in sync over any series of name
      changes: after the last one it is the slug of the last name. */
  lemma {:induction false} AutoSlugFollowsName(slug: string, name: string, names: seq<string>)
    requires slug == "" || slug == GenerateSlug(name)
    requires names != []
    ensures NameChanges(slug, name, names) == GenerateSlug(names[|names| - 1])
    decreases names
  {
    var next := NextSlug(slug, name, names[0]);
    assert next == GenerateSlug(names[0]);
    assert NameChanges(slug, name, names) == NameChanges(next, names[0], names[1..]);
    if |names| > 1 {
      AutoSlugFollowsName(next, names[0], names[1..]);
      assert names[1..][|names[1..]| - 1] == names[|names| - 1];
    }
  }

  /** A slug the user edited (not empty and not the old name's slug) survives
      every later name change whose names do not happen to produce it. */
  lemma {:induction false} EditedSlugIsKept(slug: string, name: string, names: seq<string>)
    requires slug != "" && slug != GenerateSlug(name)
    requires forall i :: 0 <= i < |names| ==> GenerateSlug(names[i]) != slug
    ensures NameChanges(slug, name, names) == slug
    decreases names
  {
    if names != [] {
      EditedSlugIsKept(NextSlug(slug, name, names[0]), names[0], names[1..]);
    }
  }

  /** The slug after a series of name changes, starting from `slug` with the
      name `name`. */
  function NameChanges(slug: string, name: string, names: seq<string>): string
    decreases names
  {
    if names == [] then slug
    else NameChanges(NextSlug(slug, name, names[0]), names[0], names[1..])
  }
}
