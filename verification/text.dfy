/** The JavaScript string primitives the chat logic is built from: `trim`,
    `toLowerCase`, `includes`, and the regular-expression classes `\s`, `\d`
    and `\w`. Strings are sequences of Unicode code points. */
module Text {

  /** ECMAScript WhiteSpace and LineTerminator code points: exactly what
      `String.prototype.trim` strips and what the regular-expression class
      `\s` matches. */
  predicate IsSpace(c: char)
  {
    || c == '\t' || c == '\n' || c == '\U{000B}' || c == '\U{000C}' || c == '\r'
    || c == ' ' || c == '\U{00A0}' || c == '\U{1680}'
    || ('\U{2000}' <= c <= '\U{200A}')
    || c == '\U{2028}' || c == '\U{2029}' || c == '\U{202F}' || c == '\U{205F}'
    || c == '\U{3000}' || c == '\U{FEFF}'
  }

  /** The regular-expression class `\d`: ASCII digits only. */
  predicate IsDigit(c: char)
  {
    '0' <= c <= '9'
  }

  predicate IsUpper(c: char)
  {
    'A' <= c <= 'Z'
  }

  predicate IsLower(c: char)
  {
    'a' <= c <= 'z'
  }

  /** The regular-expression class `\w` outside Unicode mode: `[A-Za-z0-9_]`. */
  predicate IsWordChar(c: char)
  {
    IsUpper(c) || IsLower(c) || IsDigit(c) || c == '_'
  }

  predicate AllSpace(s: string)
  {
    forall i :: 0 <= i < |s| ==> IsSpace(s[i])
  }

  /** Lower-casing of one character, restricted to ASCII letters. */
  function LowerChar(c: char): (d: char)
    ensures !IsUpper(d)
    ensures IsUpper(c) <==> d != c
    ensures IsLower(d) <==> IsUpper(c) || IsLower(c)
    ensures IsUpper(c) ==> d as int == c as int - 'A' as int + 'a' as int
  {
    if IsUpper(c) then (c as int - 'A' as int + 'a' as int) as char else c
  }

  /** `toLowerCase` as ASCII case folding: every other code point is kept. */
  function ToLower(s: string): (r: string)
    ensures |r| == |s|
    ensures forall i :: 0 <= i < |s| ==> r[i] == LowerChar(s[i])
  {
    seq(|s|, i requires 0 <= i < |s| => LowerChar(s[i]))
  }

  lemma ToLowerConcat(a: string, b: string)
    ensures ToLower(a + b) == ToLower(a) + ToLower(b)
  {
  }

  /** Lower-casing leaves white space alone. */
  lemma ToLowerKeepsSpace(s: string)
    requires AllSpace(s)
    ensures ToLower(s) == s
  {
  }

  lemma ToLowerIdempotent(s: string)
    ensures ToLower(ToLower(s)) == ToLower(s)
  {
  }

  /** Number of white-space characters at the start of `s`. */
  function LeadingSpaces(s: string): (n: nat)
    ensures n <= |s|
    ensures AllSpace(s[..n])
    ensures n == |s| || !IsSpace(s[n])
  {
    if |s| == 0 || !IsSpace(s[0]) then 0 else 1 + LeadingSpaces(s[1..])
  }

  /** Number of white-space characters at the end of `s`. */
  function TrailingSpaces(s: string): (n: nat)
    ensures n <= |s|
    ensures AllSpace(s[|s| - n..])
    ensures n == |s| || !IsSpace(s[|s| - n - 1])
  {
    if |s| == 0 || !IsSpace(s[|s| - 1]) then 0 else 1 + TrailingSpaces(s[..|s| - 1])
  }

  /** `String.prototype.trim`. */
  function Trim(s: string): (r: string)
    ensures LeadingSpaces(s) + |r| <= |s|
    ensures r == s[LeadingSpaces(s)..LeadingSpaces(s) + |r|]
    ensures AllSpace(s[..LeadingSpaces(s)]) && AllSpace(s[LeadingSpaces(s) + |r|..])
    ensures r == [] || (!IsSpace(r[0]) && !IsSpace(r[|r| - 1]))
  {
    var rest := s[LeadingSpaces(s)..];
    rest[..|rest| - TrailingSpaces(rest)]
  }

  /** Trimming keeps every character that is not white space. */
  lemma TrimKeepsNonSpace(s: string, i: nat)
    requires i < |s| && !IsSpace(s[i])
    ensures s[i] in Trim(s)
  {
    var a := LeadingSpaces(s);
    var r := Trim(s);
    assert r[i - a] == s[i];
  }

  /** The trimmed string is determined by the part between the first and the
      last non-space character: any split of `s` into white space, a core
      that neither starts nor ends with white space, and white space, trims
      to that core. */
  lemma {:induction false} TrimUnique(p: string, core: string, q: string)
    requires AllSpace(p) && AllSpace(q)
    requires core == [] || (!IsSpace(core[0]) && !IsSpace(core[|core| - 1]))
    ensures Trim(p + core + q) == core
  {
    var s := p + core + q;
    if core == [] {
      assert AllSpace(s);
      AllSpaceLeading(s);
    } else {
      LeadingOfPadded(p, core + q);
      assert p + core + q == p + (core + q);
      var rest := s[|p|..];
      assert rest == core + q;
      TrailingOfPadded(core, q);
    }
  }

  lemma {:induction false} AllSpaceLeading(s: string)
    requires AllSpace(s)
    ensures LeadingSpaces(s) == |s|
  {
    if |s| > 0 {
      AllSpaceLeading(s[1..]);
    }
  }

  lemma {:induction false} LeadingOfPadded(p: string, t: string)
    requires AllSpace(p)
    requires |t| > 0 && !IsSpace(t[0])
    ensures LeadingSpaces(p + t) == |p|
  {
    if |p| > 0 {
      assert (p + t)[1..] == p[1..] + t;
      LeadingOfPadded(p[1..], t);
    } else {
      assert p + t == t;
    }
  }

  lemma {:induction false} TrailingOfPadded(t: string, q: string)
    requires AllSpace(q)
    requires |t| > 0 && !IsSpace(t[|t| - 1])
    ensures TrailingSpaces(t + q) == |q|
    ensures (t + q)[..|t + q| - |q|] == t
  {
    if |q| > 0 {
      var q' := q[..|q| - 1];
      assert (t + q)[..|t + q| - 1] == t + q';
      TrailingOfPadded(t, q');
    } else {
      assert t + q == t;
    }
  }

  lemma AllSpaceAppend(a: string, b: string)
    requires AllSpace(a) && AllSpace(b)
    ensures AllSpace(a + b)
  {
    forall i | 0 <= i < |a + b|
      ensures IsSpace((a + b)[i])
    {
      if i < |a| {
        assert (a + b)[i] == a[i];
      } else {
        assert (a + b)[i] == b[i - |a|];
      }
    }
  }

  /** Every string is its leading white space, its trimmed core and its
      trailing white space, in that order. */
  lemma TrimSplit(s: string) returns (front: string, core: string, back: string)
    ensures s == front + core + back && core == Trim(s)
    ensures AllSpace(front) && AllSpace(back)
  {
    var a := LeadingSpaces(s);
    core := Trim(s);
    front, back := s[..a], s[a + |core|..];
    SliceSplit(s, a, a + |core|);
  }

  lemma SliceSplit(s: string, i: nat, j: nat)
    requires i <= j <= |s|
    ensures s == s[..i] + s[i..j] + s[j..]
  {
  }

  lemma Regroup(p: string, front: string, r: string, back: string, q: string)
    ensures p + (front + r + back) + q == (p + front) + r + (back + q)
  {
  }

  /** Leading and trailing white space make no difference to `trim`. */
  lemma TrimIgnoresPadding(p: string, s: string, q: string)
    requires AllSpace(p) && AllSpace(q)
    ensures Trim(p + s + q) == Trim(s)
  {
    var front, r, back := TrimSplit(s);
    AllSpaceAppend(p, front);
    AllSpaceAppend(back, q);
    Regroup(p, front, r, back, q);
    TrimUnique(p + front, r, back + q);
  }

  /** A string without surrounding white space is its own trim. */
  lemma TrimOfUnpadded(s: string)
    requires s == [] || (!IsSpace(s[0]) && !IsSpace(s[|s| - 1]))
    ensures Trim(s) == s
  {
    TrimUnique([], s, []);
    assert [] + s + [] == s;
  }

  lemma TrimIdempotent(s: string)
    ensures Trim(Trim(s)) == Trim(s)
  {
    TrimUnique([], Trim(s), []);
    assert [] + Trim(s) + [] == Trim(s);
  }

  predicate StartsWith(s: string, prefix: string)
  {
    |prefix| <= |s| && s[..|prefix|] == prefix
  }

  /** `String.prototype.includes`: `t` occurs somewhere in `s`. */
  predicate Contains(s: string, t: string)
  {
    StartsWith(s, t) || (|s| > 0 && Contains(s[1..], t))
  }

  /** `t` occurs in `s` starting at position `i`. */
  predicate OccursAt(s: string, t: string, i: int)
  {
    0 <= i <= |s| - |t| && s[i..i + |t|] == t
  }

  /** An occurrence at a known position is found by `Contains`. */
  lemma {:induction false} OccursAtContained(s: string, t: string, i: int)
    requires OccursAt(s, t, i)
    ensures Contains(s, t)
  {
    if i > 0 {
      assert s[1..][i - 1..i - 1 + |t|] == s[i..i + |t|];
      OccursAtContained(s[1..], t, i - 1);
    } else {
      assert StartsWith(s, t);
    }
  }

  /** When `Contains` holds, there is a position where `t` occurs. */
  lemma {:induction false} ContainedOccursAt(s: string, t: string) returns (i: nat)
    requires Contains(s, t)
    ensures OccursAt(s, t, i)
  {
    if StartsWith(s, t) {
      i := 0;
    } else {
      var j := ContainedOccursAt(s[1..], t);
      i := j + 1;
      assert s[1..][j..j + |t|] == s[i..i + |t|];
    }
  }

  /** `Contains` means there is a position at which `t` occurs. */
  lemma ContainsIffOccurs(s: string, t: string)
    ensures Contains(s, t) <==> exists i :: OccursAt(s, t, i)
  {
    if Contains(s, t) {
      var i := ContainedOccursAt(s, t);
    }
    if exists i :: OccursAt(s, t, i) {
      var i :| OccursAt(s, t, i);
      OccursAtContained(s, t, i);
    }
  }

  /** `t` cannot occur in `s` when `s` lacks one of its characters: the
      usual way to show that a token is absent from a literal. */
  lemma {:induction false} MissingCharNotContained(s: string, t: string, c: char)
    requires c in t && c !in s
    ensures !Contains(s, t)
  {
    if |s| > 0 {
      MissingCharNotContained(s[1..], t, c);
    }
  }

  /** A token longer than `s` cannot occur in it. */
  lemma {:induction false} LongerNotContained(s: string, t: string)
    requires |t| > |s|
    ensures !Contains(s, t)
  {
    if |s| > 0 {
      LongerNotContained(s[1..], t);
    }
  }

  /** `Array.prototype.some(tok => s.includes(tok))`. */
  predicate ContainsAny(s: string, tokens: seq<string>)
  {
    exists t :: t in tokens && Contains(s, t)
  }

  /** None of `tokens` occurs in `s` when each one is longer than `s` or has
      a character, given at the same position of `witnesses`, that `s`
      lacks. */
  lemma NoTokenContained(s: string, tokens: seq<string>, witnesses: string)
    requires |witnesses| == |tokens|
    requires forall k :: 0 <= k < |tokens| ==>
      |tokens[k]| > |s| || (witnesses[k] in tokens[k] && witnesses[k] !in s)
    ensures !ContainsAny(s, tokens)
  {
    forall t | t in tokens
      ensures !Contains(s, t)
    {
      var k :| 0 <= k < |tokens| && tokens[k] == t;
      if |t| > |s| {
        LongerNotContained(s, t);
      } else {
        MissingCharNotContained(s, t, witnesses[k]);
      }
    }
  }

  /** `ContainsAny` over a two-token list is a plain disjunction. */
  lemma ContainsAnyOfTwo(s: string, a: string, b: string)
    ensures ContainsAny(s, [a, b]) <==> Contains(s, a) || Contains(s, b)
  {
    if Contains(s, a) {
      assert a in [a, b];
    }
    if Contains(s, b) {
      assert b in [a, b];
    }
  }
}
