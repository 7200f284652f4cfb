/**
  * Capitalisation of labels: a grammatical tag or a language's enum name is
  * shown with its first letter in upper case and the rest in lower case.
  * Case mapping is modelled on ASCII letters only; every other character is
  * its own upper and lower case, so mapping never changes the length.
  */
module StringExtensions {
  import opened Wrappers

  predicate IsUpper(c: char) {
    'A' <= c <= 'Z'
  }

  predicate IsLower(c: char) {
    'a' <= c <= 'z'
  }

  /** `Char.uppercase()` on ASCII. */
  function UpperChar(c: char): (u: char)
    ensures !IsLower(u)
    ensures IsUpper(c) || IsLower(c) <==> IsUpper(u)
    ensures !IsLower(c) ==> u == c
    ensures LowerChar(u) == LowerChar(c)
  {
    if IsLower(c) then (c as int - 32) as char else c
  }

  /** `Char.lowercase()` on ASCII. */
  function LowerChar(c: char): (l: char)
    ensures !IsUpper(l)
    ensures IsUpper(c) || IsLower(c) <==> IsLower(l)
    ensures !IsUpper(c) ==> l == c
  {
    if IsUpper(c) then (c as int + 32) as char else c
  }

  /** `String.lowercase()`: every character mapped to lower case, in place. */
  function Lowercase(s: string): (r: string)
    ensures |r| == |s|
    ensures forall i :: 0 <= i < |s| ==> r[i] == LowerChar(s[i])
  {
    if s == [] then [] else [LowerChar(s[0])] + Lowercase(s[1..])
  }

  /**
    * `capitalize`: the upper case of the first character, then the lower-cased
    * text from the second character on. On the empty string `this[0]` throws,
    * modelled as `None`.
    */
  function Capitalize(s: string): (r: Option<string>)
    ensures r.Some? <==> |s| > 0
    ensures r.Some? ==> |r.value| == |s|
    ensures r.Some? ==> r.value[0] == UpperChar(s[0])
    ensures r.Some? ==> forall i :: 1 <= i < |s| ==> r.value[i] == LowerChar(s[i])
  {
    if |s| == 0 then None else Some([UpperChar(s[0])] + Lowercase(s)[1..])
  }

  /** `replaceFirstChar { it.uppercase() }`: the empty string is left as it is. */
  function ReplaceFirstCharUpper(s: string): (r: string)
    ensures |r| == |s|
    ensures |s| > 0 ==> r[0] == UpperChar(s[0]) && r[1..] == s[1..]
  {
    if |s| == 0 then s else [UpperChar(s[0])] + s[1..]
  }

  /**
    * `languageDisplayName`, given the name of the language the tag denotes:
    * the name in lower case with its first character in upper case.
    */
  function LanguageDisplayName(name: string): string {
    ReplaceFirstCharUpper(Lowercase(name))
  }

  /** A label as capitalize produces it: no lower-case first letter, no upper-case letter after it. */
  predicate IsCapitalized(s: string) {
    |s| > 0 && !IsLower(s[0]) && forall i :: 1 <= i < |s| ==> !IsUpper(s[i])
  }

  /** What capitalize returns is capitalized, and capitalized text is exactly what it leaves alone. */
  lemma CapitalizeFixedPoints(s: string)
    ensures Capitalize(s).Some? ==> IsCapitalized(Capitalize(s).value)
    ensures Capitalize(s) == Some(s) <==> IsCapitalized(s)
  {
    if |s| > 0 {
      var r := Capitalize(s).value;
      assert IsCapitalized(r);
      if IsCapitalized(s) {
        assert forall i :: 0 <= i < |s| ==> r[i] == s[i];
        assert r == s;
      }
    }
  }

  /** Capitalizing twice gives what capitalizing once gives. */
  lemma CapitalizeIdempotent(s: string)
    requires |s| > 0
    ensures Capitalize(Capitalize(s).value) == Capitalize(s)
  {
    CapitalizeFixedPoints(s);
    CapitalizeFixedPoints(Capitalize(s).value);
  }

  /**
    * The display name of a language agrees with capitalize of its name: it
    * upper-cases the first character after lower-casing it rather than
    * before, which gives the same letter. Unlike capitalize it does not fail
    * on an empty name, which it returns unchanged.
    */
  lemma LanguageDisplayNameIsCapitalize(name: string)
    ensures |name| > 0 ==> LanguageDisplayName(name) == Capitalize(name).value
    ensures name == "" ==> LanguageDisplayName(name) == "" && Capitalize(name).None?
  {
    if |name| > 0 {
      var r := LanguageDisplayName(name);
      var c := Capitalize(name).value;
      assert forall i :: 0 <= i < |name| ==> r[i] == c[i];
    }
  }

  lemma LanguageDisplayNameExample()
    ensures LanguageDisplayName("JAPANESE") == "Japanese"
  {
    var lower := Lowercase("JAPANESE");
    assert lower == "japanese";
  }
}
