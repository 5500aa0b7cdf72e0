/**
 What the string helpers mean, spelled out on characters.  Contracts elsewhere use these predicates to say what a path
 or a name must look like, apart from the code that decides it.
 */
module Spelling {
  import opened Text

  /** The same character, or one letter in its two cases. */
  predicate SameLetter(a: char, b: char) {
    || a == b
    || ('A' <= a <= 'Z' && b as int == a as int + 32)
    || ('A' <= b <= 'Z' && a as int == b as int + 32)
  }

  predicate StartsInAnyCase(s: string, t: string) {
    |t| <= |s| && forall i | 0 <= i < |t| :: SameLetter(s[i], t[i])
  }

  predicate EndsInAnyCase(s: string, t: string) {
    |t| <= |s| && forall i | 0 <= i < |t| :: SameLetter(s[|s| - |t| + i], t[i])
  }

  predicate EqualInAnyCase(s: string, t: string) { |s| == |t| && StartsInAnyCase(s, t) }

  predicate IsWhite(c: char) {
    c == ' ' || c == '\t' || c == '\n' || c == '\U{0B}' || c == '\U{0C}' || c == '\r'
  }

  predicate OnlyWhite(s: string) { WhiteBetween(s, 0, |s|) }

  predicate WhiteBetween(s: string, from: nat, to: nat)
    requires to <= |s|
  {
    forall i | from <= i < to :: IsWhite(s[i])
  }

  /** Some text is what is left of s between white space at its ends. */
  predicate IsCore(s: string, core: string, i: nat) {
    && i + |core| <= |s| && s[i..i + |core|] == core
    && WhiteBetween(s, 0, i) && WhiteBetween(s, i + |core|, |s|)
    && (core != "" ==> !IsWhite(core[0]) && !IsWhite(core[|core| - 1]))
  }

  /** A user name: 3 to 24 characters, each a letter, a digit, an underscore or a hyphen. */
  predicate IsUserName(s: string) {
    && 3 <= |s| <= 24
    && forall i | 0 <= i < |s| ::
         'A' <= s[i] <= 'Z' || 'a' <= s[i] <= 'z' || '0' <= s[i] <= '9' || s[i] == '_' || s[i] == '-'
  }

  lemma LowerSpelled(a: char, b: char)
    ensures LowerChar(a) == LowerChar(b) <==> SameLetter(a, b)
  {
  }

  lemma StartsSpelled(s: string, t: string)
    ensures StartsWithIgnoreCase(s, t) <==> StartsInAnyCase(s, t)
  {
    if |t| <= |s| {
      forall i | 0 <= i < |t| ensures Lower(s)[i] == Lower(t)[i] <==> SameLetter(s[i], t[i]) {
        LowerSpelled(s[i], t[i]);
      }
      assert StartsWithIgnoreCase(s, t) <==> forall i | 0 <= i < |t| :: Lower(s)[i] == Lower(t)[i];
    }
  }

  lemma EndsSpelled(s: string, t: string)
    ensures EndsWithIgnoreCase(s, t) <==> EndsInAnyCase(s, t)
  {
    if |t| <= |s| {
      var tail := s[|s| - |t|..];
      LowerTail(s, |s| - |t|);
      EqualSpelled(tail, t);
      assert forall i | 0 <= i < |t| :: tail[i] == s[|s| - |t| + i];
    }
  }

  lemma LowerTail(s: string, k: nat)
    requires k <= |s|
    ensures Lower(s)[k..] == Lower(s[k..])
  {
  }

  lemma EqualSpelled(s: string, t: string)
    ensures EqualIgnoreCase(s, t) <==> EqualInAnyCase(s, t)
  {
    if |s| == |t| {
      StartsSpelled(s, t);
    }
  }

  lemma BlankSpelled(s: string)
    ensures IsBlank(s) <==> OnlyWhite(s)
  {
    forall i | 0 <= i < |s| ensures IsSpace(s[i]) <==> IsWhite(s[i]) {
      SpaceSpelled(s[i]);
    }
  }

  lemma SpaceSpelled(c: char)
    ensures IsSpace(c) <==> IsWhite(c)
  {
  }

  /** Trimming white space leaves the core. */
  lemma TrimSpaceSpelled(s: string) returns (i: nat)
    ensures IsCore(s, TrimSpace(s), i)
  {
    var a, b := TrimSplits(s, IsSpace);
    i := a;
    forall k | 0 <= k < |s| ensures IsSpace(s[k]) <==> IsWhite(s[k]) {
      SpaceSpelled(s[k]);
    }
  }

  /** There is only one core, up to where an empty one lies. */
  lemma CoreIsUnique(s: string, a: string, i: nat, b: string, j: nat)
    requires IsCore(s, a, i) && IsCore(s, b, j)
    ensures a == b
  {
    if a == "" && b != "" {
      CoreIsAll(s, b, j, i);
    } else if b == "" && a != "" {
      CoreIsAll(s, a, i, j);
    } else if a != "" {
      Within(s, a, i, b, j);
      Within(s, b, j, a, i);
    }
  }

  lemma CoreIsAll(s: string, core: string, i: nat, cut: nat)
    requires IsCore(s, core, i) && core != "" && cut <= |s|
    ensures !WhiteBetween(s, 0, cut) || !WhiteBetween(s, cut, |s|)
  {
    assert s[i] == core[0];
  }

  lemma Within(s: string, a: string, i: nat, b: string, j: nat)
    requires IsCore(s, a, i) && IsCore(s, b, j) && a != "" && b != ""
    ensures j <= i && i + |a| <= j + |b|
  {
    assert s[i] == a[0] && s[i + |a| - 1] == a[|a| - 1];
  }
}
