/**
 * The scream-text template that every commit subject is embedded in before
 * synthesis: "COMMIT! " + the upper-cased subject + a fixed exclamation.
 * Upper-casing is modelled on ASCII letters only.
 */
module Scream {
  const Prefix: string := "COMMIT! "
  const Suffix: string := "! PUSHED TO REPOSITORY! AAAAAHHHH!"

  predicate IsLower(c: char) { 'a' <= c <= 'z' }
  predicate IsUpper(c: char) { 'A' <= c <= 'Z' }

  predicate HasNoLower(s: string)
  {
    forall i :: 0 <= i < |s| ==> !IsLower(s[i])
  }

  /** `c.upper()` for one ASCII character. */
  function UpperChar(c: char): (u: char)
    ensures !IsLower(u)
    ensures IsLower(c) ==> IsUpper(u) && u as int - 'A' as int == c as int - 'a' as int
    ensures !IsLower(c) ==> u == c
  {
    if IsLower(c) then (c as int - 'a' as int + 'A' as int) as char else c
  }

  /** `s.upper()` on ASCII text. */
  function Upper(s: string): (u: string)
  {
    if s == [] then [] else [UpperChar(s[0])] + Upper(s[1..])
  }

  /** Upper-casing keeps the length and works character by character. */
  lemma {:induction false} UpperAt(s: string)
    ensures |Upper(s)| == |s|
    ensures forall i :: 0 <= i < |s| ==> Upper(s)[i] == UpperChar(s[i])
  {
    if s != [] {
      UpperAt(s[1..]);
      forall i | 0 < i < |s| ensures Upper(s)[i] == UpperChar(s[i]) {
        assert Upper(s)[i] == Upper(s[1..])[i - 1];
      }
    }
  }

  /** No lower-case letter survives upper-casing, and doing it twice changes nothing. */
  lemma UpperIsUpper(s: string)
    ensures HasNoLower(Upper(s))
    ensures Upper(Upper(s)) == Upper(s)
  {
    UpperAt(s);
    UpperAt(Upper(s));
  }

  /** Text without lower-case letters is its own upper case, and only such text is. */
  lemma UpperFixedPoints(s: string)
    ensures Upper(s) == s <==> HasNoLower(s)
  {
    UpperAt(s);
    if Upper(s) == s {
      UpperIsUpper(s);
    }
  }

  /** The text handed to the synthesizer for one commit subject. */
  function ScreamText(message: string): (text: string)
  {
    Prefix + Upper(message) + Suffix
  }

  /** Recovers the embedded (upper-cased) subject from a scream text. */
  function EmbeddedMessage(text: string): (message: string)
    requires |text| >= |Prefix| + |Suffix|
  {
    text[|Prefix|..|text| - |Suffix|]
  }

  /**
   * The scream text is the fixed prefix, the upper-cased subject and the fixed
   * suffix, 42 characters longer than the subject, with no lower-case letter.
   */
  lemma ScreamTextShape(message: string)
    ensures |ScreamText(message)| == |message| + 42
    ensures ScreamText(message)[..8] == "COMMIT! "
    ensures ScreamText(message)[8 + |message|..] == "! PUSHED TO REPOSITORY! AAAAAHHHH!"
    ensures EmbeddedMessage(ScreamText(message)) == Upper(message)
    ensures HasNoLower(ScreamText(message))
  {
    UpperAt(message);
    UpperIsUpper(message);
    var text := ScreamText(message);
    assert |Prefix| == 8 && |Suffix| == 34;
    assert text[..8] == Prefix;
    assert text[8 + |message|..] == Suffix;
    assert text[8..|text| - 34] == Upper(message);
    TemplateHasNoLower();
    NoLowerConcat(Prefix, Upper(message));
    NoLowerConcat(Prefix + Upper(message), Suffix);
  }

  lemma TemplateHasNoLower()
    ensures HasNoLower(Prefix) && HasNoLower(Suffix)
  {
  }

  lemma NoLowerConcat(a: string, b: string)
    requires HasNoLower(a) && HasNoLower(b)
    ensures HasNoLower(a + b)
  {
    forall i | 0 <= i < |a + b| ensures !IsLower((a + b)[i]) {
      if i >= |a| {
        assert (a + b)[i] == b[i - |a|];
      }
    }
  }

  /** Two subjects give the same scream text exactly when they agree up to case. */
  lemma ScreamTextInjectiveUpToCase(m1: string, m2: string)
    ensures ScreamText(m1) == ScreamText(m2) <==> Upper(m1) == Upper(m2)
  {
    if ScreamText(m1) == ScreamText(m2) {
      ScreamTextShape(m1);
      ScreamTextShape(m2);
    }
  }

  lemma UpperFixBug()
    ensures Upper("fix bug") == "FIX BUG"
  {
    var s := "fix bug";
    UpperAt(s);
    var u := Upper(s);
    assert u[0] == UpperChar('f') == 'F';
    assert u[1] == UpperChar('i') == 'I';
    assert u[2] == UpperChar('x') == 'X';
    assert u[3] == UpperChar(' ') == ' ';
    assert u[4] == UpperChar('b') == 'B';
    assert u[5] == UpperChar('u') == 'U';
    assert u[6] == UpperChar('g') == 'G';
  }

  /** The commit "fix bug" is screamed as "COMMIT! FIX BUG! PUSHED TO REPOSITORY! AAAAAHHHH!". */
  lemma FixBugExample()
    ensures ScreamText("fix bug") == Prefix + "FIX BUG" + Suffix
  {
    UpperFixBug();
  }
}
