/** The self-introduction pattern `/(?:amar name|amar nam is)\s+(\w+)/i` and
    the search for the name it captures.

    The search is the one `String.prototype.match` performs with a
    non-global regular expression: start positions are tried from left to
    right; at each position the alternative `amar name` is tried before
    `amar nam is`; the literal is compared without regard to ASCII case;
    `\s+` and `\w+` are greedy. Backtracking into `\s+` can never help,
    because giving back a white-space character leaves white space where
    `\w` must match, so each alternative either matches with the longest
    white-space run and the longest word run after it, or not at all. */
module NamePattern {
  import opened Options
  import opened Text

  const NameIsLiteral := "amar name"
  const NamIsLiteral := "amar nam is"

  /** A captured name: one or more `\w` characters. */
  predicate IsName(n: string)
  {
    |n| > 0 && forall k :: 0 <= k < |n| ==> IsWordChar(n[k])
  }

  /** The lower-case literal `lit` occurs at position `i` of `s`, ignoring
      ASCII case. */
  predicate FoldedAt(s: string, i: nat, lit: string)
  {
    i + |lit| <= |s| && ToLower(s[i..i + |lit|]) == lit
  }

  /** Length of the longest run of white space starting at `j`. */
  function SpaceRun(s: string, j: nat): (n: nat)
    requires j <= |s|
    decreases |s| - j
    ensures j + n <= |s|
    ensures forall k :: j <= k < j + n ==> IsSpace(s[k])
    ensures j + n == |s| || !IsSpace(s[j + n])
  {
    if j == |s| || !IsSpace(s[j]) then 0 else 1 + SpaceRun(s, j + 1)
  }

  /** The white-space run at `j` is the leading white space of the rest of
      the string, as `trim` measures it. */
  lemma {:induction false} SpaceRunIsLeadingSpaces(s: string, j: nat)
    requires j <= |s|
    decreases |s| - j
    ensures SpaceRun(s, j) == LeadingSpaces(s[j..])
  {
    if j < |s| && IsSpace(s[j]) {
      SpaceRunIsLeadingSpaces(s, j + 1);
      assert s[j..][1..] == s[j + 1..];
    }
  }

  /** Length of the longest run of `\w` characters starting at `j`. */
  function WordRun(s: string, j: nat): (n: nat)
    requires j <= |s|
    decreases |s| - j
    ensures j + n <= |s|
    ensures forall k :: j <= k < j + n ==> IsWordChar(s[k])
    ensures j + n == |s| || !IsWordChar(s[j + n])
  {
    if j == |s| || !IsWordChar(s[j]) then 0 else 1 + WordRun(s, j + 1)
  }

  /** A non-empty run of word characters is a name. */
  lemma WordRunIsName(s: string, j: nat)
    requires j <= |s| && WordRun(s, j) > 0
    ensures IsName(s[j..j + WordRun(s, j)])
  {
    var name := s[j..j + WordRun(s, j)];
    assert forall t :: 0 <= t < |name| ==> name[t] == s[j + t];
  }

  /** The run of `\w` characters that follows the run of white space starting
      at `j`, both taken as long as they go. */
  function WordAfterSpace(s: string, j: nat): string
    requires j <= |s|
  {
    var k := j + SpaceRun(s, j);
    s[k..k + WordRun(s, k)]
  }

  /** The group captured when the alternative `lit` followed by `\s+(\w+)` is
      tried at position `i`, if it matches there. */
  function MatchAlternative(s: string, i: nat, lit: string): (r: Option<string>)
    requires i <= |s|
    ensures r.Some? <==>
      FoldedAt(s, i, lit)
      && SpaceRun(s, i + |lit|) > 0
      && WordRun(s, i + |lit| + SpaceRun(s, i + |lit|)) > 0
    ensures r.Some? ==> IsName(r.value)
    ensures r.Some? ==> r.value == WordAfterSpace(s, i + |lit|)
  {
    if !FoldedAt(s, i, lit) || SpaceRun(s, i + |lit|) == 0 then None
    else
      var j := i + |lit| + SpaceRun(s, i + |lit|);
      if WordRun(s, j) == 0 then None
      else
        WordRunIsName(s, j);
        Some(s[j..j + WordRun(s, j)])
  }

  /** The capture when the whole pattern is tried at position `i`: the first
      alternative that matches there. */
  function MatchAt(s: string, i: nat): (r: Option<string>)
    requires i <= |s|
    ensures r.None? <==>
      MatchAlternative(s, i, NameIsLiteral).None? && MatchAlternative(s, i, NamIsLiteral).None?
    ensures MatchAlternative(s, i, NameIsLiteral).Some? ==> r == MatchAlternative(s, i, NameIsLiteral)
    ensures MatchAlternative(s, i, NameIsLiteral).None? ==> r == MatchAlternative(s, i, NamIsLiteral)
  {
    match MatchAlternative(s, i, NameIsLiteral)
    case Some(n) => Some(n)
    case None => MatchAlternative(s, i, NamIsLiteral)
  }

  /** The leftmost position at or after `from` where the pattern matches. */
  function LeftmostMatch(s: string, from: nat): (r: Option<nat>)
    requires from <= |s|
    decreases |s| - from
    ensures r.Some? ==> from <= r.value <= |s| && MatchAt(s, r.value).Some?
    ensures r.Some? ==> forall q :: from <= q < r.value ==> MatchAt(s, q).None?
    ensures r.None? <==> forall q :: from <= q <= |s| ==> MatchAt(s, q).None?
  {
    if MatchAt(s, from).Some? then Some(from)
    else if from == |s| then None
    else
      var r := LeftmostMatch(s, from + 1);
      assert forall q :: from <= q <= from ==> MatchAt(s, q).None?;
      r
  }

  /** `text.match(pattern)?.[1]`: the name a message declares, if any. */
  function DeclaredName(text: string): (r: Option<string>)
    ensures r.Some? ==> IsName(r.value)
    ensures r.None? <==> forall q :: 0 <= q <= |text| ==> MatchAt(text, q).None?
  {
    match LeftmostMatch(text, 0)
    case None => None
    case Some(p) => MatchAt(text, p)
  }

  /** The name is taken from the leftmost position where either alternative
      matches, and it is the capture of that position; with no such position
      there is no name. */
  lemma DeclaredNameIsLeftmost(text: string)
    ensures DeclaredName(text).None? <==> forall q :: 0 <= q <= |text| ==> MatchAt(text, q).None?
    ensures DeclaredName(text).Some? ==>
      exists p :: 0 <= p <= |text| && DeclaredName(text) == MatchAt(text, p)
        && forall q :: 0 <= q < p ==> MatchAt(text, q).None?
  {
    match LeftmostMatch(text, 0)
    case None =>
    case Some(p) =>
  }

  /** Alternation order decides the capture: in "amar name is Rahim" the
      first alternative already matches at the start, so the captured word is
      "is", not the name. */
  lemma NameIsShadowsNamIs()
    ensures DeclaredName("amar name is Rahim") == Some("is")
  {
    var s := "amar name is Rahim";
    assert FoldedAt(s, 0, NameIsLiteral) by {
      assert s[0..9] == NameIsLiteral;
    }
    assert SpaceRun(s, 9) == 1 by {
      assert IsSpace(s[9]) && !IsSpace(s[10]);
    }
    assert WordRun(s, 10) == 2 by {
      assert IsWordChar(s[10]) && IsWordChar(s[11]) && !IsWordChar(s[12]);
    }
    assert s[10..12] == "is";
    assert MatchAt(s, 0) == Some("is");
    assert LeftmostMatch(s, 0) == Some(0);
  }

  const ShoutedNamIs := "AMAR NAM IS Rahim"

  lemma ShoutedNameLiteralMissing()
    ensures !FoldedAt(ShoutedNamIs, 0, NameIsLiteral)
  {
    assert ToLower(ShoutedNamIs[0..9])[8] == ' ';
  }

  lemma ShoutedNamIsLiteralFolded()
    ensures FoldedAt(ShoutedNamIs, 0, NamIsLiteral)
  {
    assert ToLower(ShoutedNamIs[0..11]) == NamIsLiteral;
  }

  lemma ShoutedNamIsWord()
    ensures SpaceRun(ShoutedNamIs, 11) == 1 && WordRun(ShoutedNamIs, 12) == 5
    ensures WordAfterSpace(ShoutedNamIs, 11) == "Rahim"
  {
    var s := ShoutedNamIs;
    assert SpaceRun(s, 11) == 1 by {
      assert IsSpace(s[11]) && !IsSpace(s[12]);
    }
    assert WordRun(s, 12) == 5 by {
      assert forall k :: 12 <= k < 17 ==> IsWordChar(s[k]);
    }
    assert s[12..17] == "Rahim";
  }

  /** The literal is compared without regard to case, and the captured name
      keeps its case. */
  lemma NamIsCapturesName()
    ensures DeclaredName(ShoutedNamIs) == Some("Rahim")
  {
    var s := ShoutedNamIs;
    ShoutedNameLiteralMissing();
    ShoutedNamIsLiteralFolded();
    ShoutedNamIsWord();
    assert MatchAlternative(s, 0, NameIsLiteral) == None;
    assert MatchAt(s, 0) == Some("Rahim");
    assert LeftmostMatch(s, 0) == Some(0);
  }


}
