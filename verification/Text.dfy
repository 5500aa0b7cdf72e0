/** Character and string helpers over ASCII text, as the two runtimes' string libraries define them. */
module Text {

  /** White space that both `strings.TrimSpace` and `String.Trim` strip. */
  predicate IsSpace(c: char) { c == ' ' || '\t' <= c <= '\r' }

  predicate IsBlank(s: string) { forall i | 0 <= i < |s| :: IsSpace(s[i]) }

  /** The first position from i on whose character is kept. */
  function Skip(s: string, drop: char -> bool, i: nat): (j: nat)
    requires i <= |s|
    ensures i <= j <= |s|
    ensures forall k | i <= k < j :: drop(s[k])
    ensures j < |s| ==> !drop(s[j])
    decreases |s| - i
  {
    if i < |s| && drop(s[i]) then Skip(s, drop, i + 1) else i
  }

  /** The position after the last kept character before j, but not below lo. */
  function SkipBack(s: string, drop: char -> bool, lo: nat, j: nat): (r: nat)
    requires lo <= j <= |s|
    ensures lo <= r <= j
    ensures forall k | r <= k < j :: drop(s[k])
    ensures lo < r ==> !drop(s[r - 1])
  {
    if lo < j && drop(s[j - 1]) then SkipBack(s, drop, lo, j - 1) else j
  }

  function Trim(s: string, drop: char -> bool): string {
    var i := Skip(s, drop, 0);
    s[i..SkipBack(s, drop, i, |s|)]
  }

  function TrimSpace(s: string): string { Trim(s, IsSpace) }

  function LowerChar(c: char): char {
    if 'A' <= c <= 'Z' then 'a' + (c - 'A') else c
  }

  function Lower(s: string): (r: string)
    ensures |r| == |s| && forall i | 0 <= i < |s| :: r[i] == LowerChar(s[i])
  {
    seq(|s|, i requires 0 <= i < |s| => LowerChar(s[i]))
  }

  predicate StartsWith(s: string, prefix: string) { prefix <= s }

  predicate EndsWith(s: string, suffix: string) { |suffix| <= |s| && s[|s| - |suffix|..] == suffix }

  /** `StartsWith` with `StringComparison.OrdinalIgnoreCase`. */
  predicate StartsWithIgnoreCase(s: string, prefix: string) { StartsWith(Lower(s), Lower(prefix)) }

  predicate EndsWithIgnoreCase(s: string, suffix: string) { EndsWith(Lower(s), Lower(suffix)) }

  predicate EqualIgnoreCase(s: string, t: string) { Lower(s) == Lower(t) }

  /** Trimming removes only a run of dropped characters from each end. */
  lemma TrimSplits(s: string, drop: char -> bool) returns (i: nat, j: nat)
    ensures i <= j <= |s| && Trim(s, drop) == s[i..j]
    ensures forall k | 0 <= k < i || j <= k < |s| :: drop(s[k])
    ensures i < j ==> !drop(s[i]) && !drop(s[j - 1])
  {
    i := Skip(s, drop, 0);
    j := SkipBack(s, drop, i, |s|);
  }

  /** Trimming leaves text alone exactly when neither end is a character to drop. */
  lemma TrimKeeps(s: string, drop: char -> bool)
    ensures Trim(s, drop) == s <==> s == [] || (!drop(s[0]) && !drop(s[|s| - 1]))
  {
    var i, j := TrimSplits(s, drop);
    if Trim(s, drop) == s {
      assert j - i == |s|;
    }
  }

  /** What trimming leaves starts and ends with a kept character, and trimming again changes nothing. */
  lemma TrimIsTrimmed(s: string, drop: char -> bool)
    ensures var r := Trim(s, drop);
            (r == [] || (!drop(r[0]) && !drop(r[|r| - 1]))) && Trim(r, drop) == r
  {
    var i, j := TrimSplits(s, drop);
    TrimKeeps(Trim(s, drop), drop);
  }
}
