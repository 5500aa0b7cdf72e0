/**
 User names and the custom id the client derives from one.  The server's user name pattern and the
 client's sanitising loop are written in two languages; the lemmas here relate them.
 */
module CustomId {
  import opened Options
  import opened Text
  import opened Spelling

  /** The characters the server's user name pattern admits. */
  predicate IsNameChar(c: char) {
    'A' <= c <= 'Z' || 'a' <= c <= 'z' || '0' <= c <= '9' || c == '_' || c == '-'
  }

  /** The server's pattern: 3 to 24 name characters and nothing else. */
  predicate ValidUsername(s: string) {
    3 <= |s| <= 24 && forall i | 0 <= i < |s| :: IsNameChar(s[i])
  }

  /** Characters a custom id may hold. */
  predicate IsIdChar(c: char) {
    'a' <= c <= 'z' || '0' <= c <= '9' || c == '_' || c == '-'
  }

  predicate IsHyphen(c: char) { c == '-' }

  function SanitizeChar(c: char): char { if IsIdChar(c) then c else '-' }

  function Sanitize(s: string): (r: string)
    ensures |r| == |s| && forall i | 0 <= i < |s| :: r[i] == SanitizeChar(s[i])
  {
    seq(|s|, i requires 0 <= i < |s| => SanitizeChar(s[i]))
  }

  /** The part of the id after its prefix. */
  function Body(username: string): string {
    Trim(Sanitize(Lower(TrimSpace(username))), IsHyphen)
  }

  const PREFIX := "user-"

  /** `None` stands for the exception thrown for a name with fewer than three usable characters. */
  function CustomId(username: string): Option<string> {
    if |Body(username)| < 3 then None else Some(PREFIX + Body(username))
  }

  /** What becomes of a character: a capital its small letter, a usable character itself, anything else a hyphen. */
  predicate Becomes(c: char, d: char) {
    if 'A' <= c <= 'Z' then d as int == c as int + 32
    else if 'a' <= c <= 'z' || '0' <= c <= '9' || c == '_' || c == '-' then d == c
    else d == '-'
  }

  predicate AllBecome(s: string, t: string) { |s| == |t| && forall k | 0 <= k < |s| :: Becomes(s[k], t[k]) }

  /** What is left of a text between hyphens at its ends. */
  predicate IsBetweenHyphens(t: string, body: string, a: nat) {
    && a + |body| <= |t| && t[a..a + |body|] == body
    && (forall k | 0 <= k < a :: t[k] == '-') && (forall k | a + |body| <= k < |t| :: t[k] == '-')
    && (body != "" ==> body[0] != '-' && body[|body| - 1] != '-')
  }

  /** The usable part of a name: without white space around it, character by character, without hyphens around it. */
  ghost predicate IsUsablePart(name: string, body: string) {
    exists core, i: nat, t, a: nat :: IsCore(name, core, i) && AllBecome(core, t) && IsBetweenHyphens(t, body, a)
  }

  lemma BodySpelled(name: string)
    ensures IsUsablePart(name, Body(name))
  {
    var core := TrimSpace(name);
    var i := TrimSpaceSpelled(name);
    var t := Sanitize(Lower(core));
    SanitizedSpelled(core);
    var a := HyphensSpelled(t);
    assert IsBetweenHyphens(t, Body(name), a);
  }

  lemma SanitizedSpelled(core: string)
    ensures AllBecome(core, Sanitize(Lower(core)))
  {
    forall k | 0 <= k < |core| ensures Becomes(core[k], Sanitize(Lower(core))[k]) {
      CharSpelled(core[k]);
    }
  }

  lemma HyphensSpelled(t: string) returns (a: nat)
    ensures IsBetweenHyphens(t, Trim(t, IsHyphen), a)
  {
    var i, j := TrimSplits(t, IsHyphen);
    a := i;
  }

  lemma CharSpelled(c: char)
    ensures Becomes(c, SanitizeChar(LowerChar(c)))
  {
  }

  /** The id of a name: its usable part after a fixed prefix, or none when that has fewer than three characters. */
  ghost predicate IsIdOf(name: string, id: Option<string>) {
    exists body :: IsUsablePart(name, body) && id == if |body| < 3 then None else Some("user-" + body)
  }

  lemma IdSpelled(name: string)
    ensures IsIdOf(name, CustomId(name))
  {
    BodySpelled(name);
  }

  /** The loop over the characters of a name in small letters, in place. */
  method SanitizeInPlace(chars: array<char>)
    modifies chars
    ensures chars[..] == Sanitize(old(chars[..]))
  {
    for i := 0 to chars.Length
      invariant forall k | 0 <= k < i :: chars[k] == SanitizeChar(old(chars[k]))
      invariant forall k | i <= k < chars.Length :: chars[k] == old(chars[k])
    {
      var isAlpha := 'a' <= chars[i] <= 'z';
      var isNumber := '0' <= chars[i] <= '9';
      if !isAlpha && !isNumber && chars[i] != '_' && chars[i] != '-' {
        chars[i] := '-';
      }
    }
  }

  method BuildCustomId(username: string) returns (id: Option<string>)
    ensures id == CustomId(username)
    ensures IsIdOf(username, id)
  {
    IdSpelled(username);
    var lowered := Lower(TrimSpace(username));
    var chars := new char[|lowered|](i requires 0 <= i < |lowered| => lowered[i]);
    assert chars[..] == lowered;
    SanitizeInPlace(chars);
    var sanitized := Trim(chars[..], IsHyphen);
    if |sanitized| < 3 {
      return None;
    }
    return Some(PREFIX + sanitized);
  }

  /** A clean id body: usable characters only, at least three, no hyphen at either end. */
  predicate NormalForm(body: string) {
    && |body| >= 3
    && (forall i | 0 <= i < |body| :: IsIdChar(body[i]))
    && body[0] != '-' && body[|body| - 1] != '-'
  }

  /** Clean bodies are exactly the names, of at least three characters, that sanitising leaves alone. */
  lemma NormalFormIsFixedPoint(body: string)
    ensures NormalForm(body) <==> |body| >= 3 && Body(body) == body
  {
    if NormalForm(body) {
      CleanBodyIsFixed(body);
    }
    if |body| >= 3 && Body(body) == body {
      TrimIsTrimmed(Sanitize(Lower(TrimSpace(body))), IsHyphen);
      BodyUsesIdChars(body);
    }
  }

  lemma CleanBodyIsFixed(body: string)
    requires NormalForm(body)
    ensures Body(body) == body
  {
    TrimKeeps(body, IsSpace);
    assert Lower(body) == body;
    assert Sanitize(body) == body;
    TrimKeeps(body, IsHyphen);
  }

  lemma BodyUsesIdChars(username: string)
    ensures forall i | 0 <= i < |Body(username)| :: IsIdChar(Body(username)[i])
  {
    var s := Sanitize(Lower(TrimSpace(username)));
    var i, j := TrimSplits(s, IsHyphen);
    forall k | 0 <= k < |Body(username)| ensures IsIdChar(Body(username)[k]) {
      assert Body(username)[k] == s[i + k];
    }
  }

  /** Every id that is built is the prefix and a clean body, and rebuilding from the body gives the id again. */
  lemma CustomIdIsNormal(username: string)
    requires CustomId(username).Some?
    ensures PREFIX <= CustomId(username).value
    ensures var body := CustomId(username).value[|PREFIX|..];
            NormalForm(body) && CustomId(body) == CustomId(username)
  {
    var body := Body(username);
    assert CustomId(username).value[|PREFIX|..] == body;
    BodyUsesIdChars(username);
    TrimIsTrimmed(Sanitize(Lower(TrimSpace(username))), IsHyphen);
    NormalFormIsFixedPoint(body);
  }

  function StripHyphens(s: string): string { Trim(s, IsHyphen) }

  /** On a name the server accepts, only lower-casing and stripping outer hyphens take effect. */
  lemma BodyOfValidName(name: string)
    requires ValidUsername(name)
    ensures Body(name) == StripHyphens(Lower(name))
  {
    NameNeedsNoTrim(name);
    NameIsSane(name);
  }

  lemma NameNeedsNoTrim(name: string)
    requires ValidUsername(name)
    ensures TrimSpace(name) == name
  {
    assert IsNameChar(name[0]) && IsNameChar(name[|name| - 1]);
    TrimKeeps(name, IsSpace);
  }

  lemma NameIsSane(name: string)
    requires ValidUsername(name)
    ensures Sanitize(Lower(name)) == Lower(name)
  {
    forall i | 0 <= i < |name| ensures Sanitize(Lower(name))[i] == Lower(name)[i] {
      assert IsNameChar(name[i]);
    }
  }

  /**
   Two accepted names reach one account exactly when they agree after lower-casing and stripping
   outer hyphens (or neither gets an id at all).
   */
  lemma SameAccount(a: string, b: string)
    requires ValidUsername(a) && ValidUsername(b)
    ensures CustomId(a).Some? <==> |StripHyphens(Lower(a))| >= 3
    ensures CustomId(a).Some? ==> (CustomId(a) == CustomId(b) <==> StripHyphens(Lower(a)) == StripHyphens(Lower(b)))
  {
    BodyOfValidName(a);
    BodyOfValidName(b);
    if CustomId(a).Some? && CustomId(a) == CustomId(b) {
      assert (PREFIX + Body(a))[|PREFIX|..] == Body(a);
      assert (PREFIX + Body(b))[|PREFIX|..] == Body(b);
    }
  }

  /** The server's pattern admits names that the client refuses to log in with. */
  lemma AcceptedNameWithoutId()
    ensures ValidUsername("--a") && CustomId("--a") == None
  {
    BodyOfValidName("--a");
    assert Lower("--a") == "--a";
    var s := "--a";
    var i, j := TrimSplits(s, IsHyphen);
    assert j - i <= 1 by {
      assert IsHyphen(s[0]) && IsHyphen(s[1]);
    }
  }

  /** Distinct accepted names can share one account. */
  lemma DistinctNamesShareId()
    ensures ValidUsername("Bob") && ValidUsername("-bob")
    ensures CustomId("Bob") == CustomId("-bob") && CustomId("Bob").Some?
  {
    assert Lower("Bob") == "bob";
    TrimKeeps("bob", IsHyphen);
    assert Lower("-bob") == "-bob";
    HyphenBob();
    SameAccount("Bob", "-bob");
  }

  lemma HyphenBob()
    ensures StripHyphens("-bob") == "bob"
  {
    var s := "-bob";
    var i, j := TrimSplits(s, IsHyphen);
    assert i == 1 && j == 4 by {
      assert !IsHyphen(s[1]) && !IsHyphen(s[3]);
    }
    assert s[1..4] == "bob";
  }
}
