/**
 * `GenerateSlug` (internal/utils/slug.go): lower-case the text, turn spaces into
 * hyphens, drop every character outside a-z, 0-9 and '-', collapse runs of
 * hyphens, and trim hyphens from both ends. Each stage is a function of its
 * own so that the pipeline reads as the Go code does.
 */
module Slug {

  predicate IsLowerAlnum(c: char) { 'a' <= c <= 'z' || '0' <= c <= '9' }

  predicate IsAlnum(c: char) { 'a' <= c <= 'z' || 'A' <= c <= 'Z' || '0' <= c <= '9' }

  /** The characters the regular expression `[^a-z0-9-]+` does not remove. */
  predicate IsSlugChar(c: char) { IsLowerAlnum(c) || c == '-' }

  predicate AllSlugChars(s: string) {
    forall i :: 0 <= i < |s| ==> IsSlugChar(s[i])
  }

  predicate NoDoubleHyphen(s: string) {
    forall i :: 0 <= i < |s| - 1 ==> !(s[i] == '-' && s[i + 1] == '-')
  }

  predicate NoEdgeHyphen(s: string) {
    |s| == 0 || (s[0] != '-' && s[|s| - 1] != '-')
  }

  /** What GenerateSlug promises of its output. */
  predicate IsSlug(s: string) {
    AllSlugChars(s) && NoDoubleHyphen(s) && NoEdgeHyphen(s)
  }

  predicate HasAlnum(s: string) {
    exists i :: 0 <= i < |s| && IsAlnum(s[i])
  }

  predicate HasLowerAlnum(s: string) {
    exists i :: 0 <= i < |s| && IsLowerAlnum(s[i])
  }

  function LowerChar(c: char): char {
    if 'A' <= c <= 'Z' then (c as int + 32) as char else c
  }

  /** `strings.ToLower`, on the ASCII letters only. */
  function ToLower(s: string): (r: string)
    ensures |r| == |s|
    ensures forall i :: 0 <= i < |s| ==> r[i] == LowerChar(s[i])
  {
    if |s| == 0 then [] else [LowerChar(s[0])] + ToLower(s[1..])
  }

  /** `strings.ReplaceAll(s, " ", "-")`. */
  function SpacesToHyphens(s: string): (r: string)
    ensures |r| == |s|
    ensures forall i :: 0 <= i < |s| ==> r[i] == (if s[i] == ' ' then '-' else s[i])
  {
    if |s| == 0 then [] else [if s[0] == ' ' then '-' else s[0]] + SpacesToHyphens(s[1..])
  }

  /** `regexp.MustCompile("[^a-z0-9-]+").ReplaceAllString(s, "")`. */
  function RemoveSpecial(s: string): string {
    if |s| == 0 then []
    else if IsSlugChar(s[0]) then [s[0]] + RemoveSpecial(s[1..])
    else RemoveSpecial(s[1..])
  }

  /** `regexp.MustCompile("-+").ReplaceAllString(s, "-")`: a run of hyphens keeps its last one. */
  function CollapseHyphens(s: string): string {
    if |s| == 0 then []
    else if |s| >= 2 && s[0] == '-' && s[1] == '-' then CollapseHyphens(s[1..])
    else [s[0]] + CollapseHyphens(s[1..])
  }

  function TrimLeft(s: string): string {
    if |s| > 0 && s[0] == '-' then TrimLeft(s[1..]) else s
  }

  function TrimRight(s: string): string {
    if |s| > 0 && s[|s| - 1] == '-' then TrimRight(s[..|s| - 1]) else s
  }

  /** `strings.Trim(s, "-")`. */
  function Trim(s: string): string {
    TrimRight(TrimLeft(s))
  }

  /** `utils.GenerateSlug`. */
  function GenerateSlug(s: string): string {
    Trim(CollapseHyphens(RemoveSpecial(SpacesToHyphens(ToLower(s)))))
  }

  // ---------------------------------------------------------------------------
  // What each stage keeps

  lemma {:induction false} RemoveSpecialChars(s: string)
    ensures AllSlugChars(RemoveSpecial(s))
    ensures AllSlugChars(s) ==> RemoveSpecial(s) == s
    ensures HasLowerAlnum(s) ==> HasLowerAlnum(RemoveSpecial(s))
    ensures !HasLowerAlnum(s) ==> forall i :: 0 <= i < |RemoveSpecial(s)| ==> RemoveSpecial(s)[i] == '-'
    decreases |s|
  {
    if |s| > 0 {
      RemoveSpecialChars(s[1..]);
      if HasLowerAlnum(s) && !IsLowerAlnum(s[0]) {
        var i :| 0 <= i < |s| && IsLowerAlnum(s[i]);
        assert s[1..][i - 1] == s[i];
      }
      if IsSlugChar(s[0]) {
        var r := [s[0]] + RemoveSpecial(s[1..]);
        if IsLowerAlnum(s[0]) { assert r[0] == s[0]; }
        if HasLowerAlnum(s[1..]) {
          var i :| 0 <= i < |RemoveSpecial(s[1..])| && IsLowerAlnum(RemoveSpecial(s[1..])[i]);
          assert r[i + 1] == RemoveSpecial(s[1..])[i];
        }
      }
    }
  }

  /** CollapseHyphens keeps the first character. */
  lemma {:induction false} CollapseFirst(s: string)
    requires |s| > 0
    ensures |CollapseHyphens(s)| > 0 && CollapseHyphens(s)[0] == s[0]
    decreases |s|
  {
    if |s| >= 2 && s[0] == '-' && s[1] == '-' {
      CollapseFirst(s[1..]);
    }
  }

  /** After CollapseHyphens no two hyphens are adjacent. */
  lemma {:induction false} CollapseNoDouble(s: string)
    ensures NoDoubleHyphen(CollapseHyphens(s))
    decreases |s|
  {
    if |s| > 0 {
      var t := s[1..];
      CollapseNoDouble(t);
      if !(|s| >= 2 && s[0] == '-' && s[1] == '-') {
        var ct := CollapseHyphens(t);
        var r := [s[0]] + ct;
        if |t| > 0 { CollapseFirst(t); }
        forall i | 0 <= i < |r| - 1 ensures !(r[i] == '-' && r[i + 1] == '-') {
          if i > 0 { assert r[i] == ct[i - 1] && r[i + 1] == ct[i]; }
        }
      }
    }
  }

  /** A string without adjacent hyphens is left as it is. */
  lemma {:induction false} CollapseFixed(s: string)
    requires NoDoubleHyphen(s)
    ensures CollapseHyphens(s) == s
    decreases |s|
  {
    if |s| > 0 {
      var t := s[1..];
      assert NoDoubleHyphen(t) by {
        forall i | 0 <= i < |t| - 1 ensures !(t[i] == '-' && t[i + 1] == '-') {
          assert t[i] == s[i + 1] && t[i + 1] == s[i + 2];
        }
      }
      CollapseFixed(t);
      assert s == [s[0]] + t;
    }
  }

  /** CollapseHyphens only removes characters, so every kept character comes from the input. */
  lemma {:induction false} CollapseSubset(s: string, P: char -> bool)
    requires forall i :: 0 <= i < |s| ==> P(s[i])
    ensures forall i :: 0 <= i < |CollapseHyphens(s)| ==> P(CollapseHyphens(s)[i])
    decreases |s|
  {
    if |s| > 0 {
      var t := s[1..];
      CollapseSubset(t, P);
      if !(|s| >= 2 && s[0] == '-' && s[1] == '-') {
        var r := [s[0]] + CollapseHyphens(t);
        assert forall i :: 1 <= i < |r| ==> r[i] == CollapseHyphens(t)[i - 1];
      }
    }
  }

  /** A letter or digit survives CollapseHyphens. */
  lemma {:induction false} CollapseHasLower(s: string)
    requires HasLowerAlnum(s)
    ensures HasLowerAlnum(CollapseHyphens(s))
    decreases |s|
  {
    var t := s[1..];
    if IsLowerAlnum(s[0]) {
      CollapseFirst(s);
    } else {
      var i :| 0 <= i < |s| && IsLowerAlnum(s[i]);
      assert t[i - 1] == s[i];
      CollapseHasLower(t);
      if !(|s| >= 2 && s[0] == '-' && s[1] == '-') {
        var ct := CollapseHyphens(t);
        var j :| 0 <= j < |ct| && IsLowerAlnum(ct[j]);
        assert ([s[0]] + ct)[j + 1] == ct[j];
      }
    }
  }

  lemma {:induction false} TrimLeftKeeps(s: string)
    ensures exists k :: 0 <= k <= |s| && TrimLeft(s) == s[k..]
    ensures |TrimLeft(s)| > 0 ==> TrimLeft(s)[0] != '-'
    ensures |s| > 0 && s[0] != '-' ==> TrimLeft(s) == s
    ensures HasLowerAlnum(s) ==> HasLowerAlnum(TrimLeft(s))
    ensures (forall i :: 0 <= i < |s| ==> s[i] == '-') ==> TrimLeft(s) == []
    decreases |s|
  {
    if |s| > 0 && s[0] == '-' {
      var t := s[1..];
      TrimLeftKeeps(t);
      var k :| 0 <= k <= |t| && TrimLeft(t) == t[k..];
      assert TrimLeft(s) == s[k + 1..];
      if HasLowerAlnum(s) {
        var i :| 0 <= i < |s| && IsLowerAlnum(s[i]);
        assert t[i - 1] == s[i];
      }
    } else {
      assert TrimLeft(s) == s[0..];
    }
  }

  lemma {:induction false} TrimRightKeeps(s: string)
    ensures exists k :: 0 <= k <= |s| && TrimRight(s) == s[..k]
    ensures |TrimRight(s)| > 0 ==> TrimRight(s)[|TrimRight(s)| - 1] != '-'
    ensures |s| > 0 && s[|s| - 1] != '-' ==> TrimRight(s) == s
    ensures HasLowerAlnum(s) ==> HasLowerAlnum(TrimRight(s))
    decreases |s|
  {
    if |s| > 0 && s[|s| - 1] == '-' {
      var t := s[..|s| - 1];
      TrimRightKeeps(t);
      var k :| 0 <= k <= |t| && TrimRight(t) == t[..k];
      assert TrimRight(s) == s[..k];
      if HasLowerAlnum(s) {
        var i :| 0 <= i < |s| && IsLowerAlnum(s[i]);
        assert t[i] == s[i];
      }
    } else {
      assert TrimRight(s) == s[..|s|];
    }
  }

  lemma SliceKeepsSlugChars(s: string, i: int, j: int)
    requires 0 <= i <= j <= |s|
    requires AllSlugChars(s) && NoDoubleHyphen(s)
    ensures AllSlugChars(s[i..j]) && NoDoubleHyphen(s[i..j])
  {
    var t := s[i..j];
    forall k | 0 <= k < |t| - 1 ensures !(t[k] == '-' && t[k + 1] == '-') {
      assert t[k] == s[i + k] && t[k + 1] == s[i + k + 1];
    }
  }

  // ---------------------------------------------------------------------------
  // Properties of GenerateSlug

  /** Collapsing the regexp stage's output gives slug characters with no double hyphen. */
  lemma CollapsedSlugChars(s: string)
    ensures var c := CollapseHyphens(RemoveSpecial(s));
            AllSlugChars(c) && NoDoubleHyphen(c)
  {
    RemoveSpecialChars(s);
    CollapseSubset(RemoveSpecial(s), IsSlugChar);
    CollapseNoDouble(RemoveSpecial(s));
  }

  /** Trimming leading hyphens keeps slug characters without double hyphens. */
  lemma TrimLeftSlugChars(c: string)
    requires AllSlugChars(c) && NoDoubleHyphen(c)
    ensures var l := TrimLeft(c);
            AllSlugChars(l) && NoDoubleHyphen(l) && (|l| > 0 ==> l[0] != '-')
  {
    TrimLeftKeeps(c);
    var k :| 0 <= k <= |c| && TrimLeft(c) == c[k..];
    SliceKeepsSlugChars(c, k, |c|);
  }

  /** Trimming hyphens off slug characters without double hyphens yields a slug. */
  lemma TrimmedIsSlug(c: string)
    requires AllSlugChars(c) && NoDoubleHyphen(c)
    ensures IsSlug(Trim(c))
  {
    var left := TrimLeft(c);
    TrimLeftSlugChars(c);
    TrimRightKeeps(left);
    var m :| 0 <= m <= |left| && TrimRight(left) == left[..m];
    SliceKeepsSlugChars(left, 0, m);
    if m > 0 {
      assert TrimRight(left)[0] == left[0];
    }
  }

  /** The output has only a-z, 0-9 and '-', no two hyphens in a row, and no hyphen at either end. */
  lemma GenerateSlugIsSlug(s: string)
    ensures IsSlug(GenerateSlug(s))
  {
    var lowered := SpacesToHyphens(ToLower(s));
    CollapsedSlugChars(lowered);
    TrimmedIsSlug(CollapseHyphens(RemoveSpecial(lowered)));
  }

  /** A string that already is a slug passes through every stage unchanged. */
  lemma SlugIsFixedPoint(s: string)
    requires IsSlug(s)
    ensures GenerateSlug(s) == s
  {
    assert ToLower(s) == s;
    assert SpacesToHyphens(s) == s;
    RemoveSpecialChars(s);
    CollapseFixed(s);
    TrimLeftKeeps(s);
    TrimRightKeeps(s);
  }

  /** GenerateSlug is idempotent. */
  lemma GenerateSlugIdempotent(s: string)
    ensures GenerateSlug(GenerateSlug(s)) == GenerateSlug(s)
  {
    GenerateSlugIsSlug(s);
    SlugIsFixedPoint(GenerateSlug(s));
  }

  /** A letter or digit in the input survives every stage. */
  lemma AlnumSurvives(s: string)
    requires HasAlnum(s)
    ensures HasLowerAlnum(GenerateSlug(s))
  {
    var lowered := SpacesToHyphens(ToLower(s));
    var removed := RemoveSpecial(lowered);
    var collapsed := CollapseHyphens(removed);
    var i :| 0 <= i < |s| && IsAlnum(s[i]);
    assert IsLowerAlnum(lowered[i]);
    RemoveSpecialChars(lowered);
    CollapseHasLower(removed);
    TrimLeftKeeps(collapsed);
    TrimRightKeeps(TrimLeft(collapsed));
  }

  /** Without a letter or digit only hyphens reach the trim, which removes them all. */
  lemma NoAlnumTrimmedAway(s: string)
    requires !HasAlnum(s)
    ensures GenerateSlug(s) == []
  {
    var lowered := SpacesToHyphens(ToLower(s));
    var removed := RemoveSpecial(lowered);
    assert !HasLowerAlnum(lowered) by {
      forall i | 0 <= i < |lowered| ensures !IsLowerAlnum(lowered[i]) {
        assert !IsAlnum(s[i]);
      }
    }
    RemoveSpecialChars(lowered);
    CollapseSubset(removed, c => c == '-');
    TrimLeftKeeps(CollapseHyphens(removed));
  }

  /** The slug is empty exactly when the input has no ASCII letter or digit. */
  lemma GenerateSlugEmptyIff(s: string)
    ensures GenerateSlug(s) == [] <==> !HasAlnum(s)
  {
    if HasAlnum(s) {
      AlnumSurvives(s);
    } else {
      NoAlnumTrimmedAway(s);
    }
  }

  /** Letters are lower-cased and the space becomes the separator. */
  lemma GenerateSlugExample(input: string, output: string)
    requires input == "Baju Muslim" && output == "baju-muslim"
    ensures GenerateSlug(input) == output
  {
    var lowered := ToLower(input);
    var hyphened := SpacesToHyphens(lowered);
    assert hyphened == output by {
      forall i | 0 <= i < |output| ensures hyphened[i] == output[i] {
        assert lowered[i] == LowerChar(input[i]);
      }
    }
    assert AllSlugChars(output) && NoDoubleHyphen(output) by {
      forall i | 0 <= i < |output| ensures IsSlugChar(output[i]) && (i != 4 ==> output[i] != '-') {
      }
    }
    assert IsSlug(output);
    SlugIsFixedPoint(output);
    RemoveSpecialChars(output);
    CollapseFixed(output);
  }
}
