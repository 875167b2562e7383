/** Label sanitisation: `label.replace(' ', "-").to_ascii_lowercase()`.
    The same expression appears three times in the source (the helper nested in
    `GeppettoConfig::make_path`, `files::sanitize_label` and
    `snapshots::sanitize_label`); it is defined once here. */
module Labels {

  predicate IsAsciiUpper(c: char) {
    'A' <= c <= 'Z'
  }

  /** `char::to_ascii_lowercase`: only `A`..`Z` change. */
  function AsciiLower(c: char): (r: char)
    ensures IsAsciiUpper(c) ==> r as int == c as int + 32
    ensures !IsAsciiUpper(c) ==> r == c
    ensures !IsAsciiUpper(r)
  {
    if IsAsciiUpper(c) then (c as int + 32) as char else c
  }

  /** `str::replace(from, to)` for a one-character pattern and a one-character
      replacement, scanning left to right. */
  function Replace(s: string, from: char, to: char): (r: string)
  {
    if s == [] then []
    else [if s[0] == from then to else s[0]] + Replace(s[1..], from, to)
  }

  /** `str::to_ascii_lowercase`. */
  function ToAsciiLowercase(s: string): (r: string)
  {
    if s == [] then [] else [AsciiLower(s[0])] + ToAsciiLowercase(s[1..])
  }

  /** What happens to one character of a label. */
  function SanitizeChar(c: char): (r: char)
    ensures c == ' ' ==> r == '-'
    ensures c != ' ' ==> r == AsciiLower(c)
  {
    AsciiLower(if c == ' ' then '-' else c)
  }

  /** `sanitize_label`: replace every space by a dash, then lowercase ASCII.
      The result has the label's length and is the label with each character
      passed through `SanitizeChar`. */
  function SanitizeLabel(text: string): (r: string)
    ensures |r| == |text|
    ensures forall i :: 0 <= i < |text| ==> r[i] == SanitizeChar(text[i])
  {
    ReplaceAt(text, ' ', '-');
    ToAsciiLowercaseAt(Replace(text, ' ', '-'));
    ToAsciiLowercase(Replace(text, ' ', '-'))
  }

  lemma {:induction false} ReplaceAt(s: string, from: char, to: char)
    ensures |Replace(s, from, to)| == |s|
    ensures forall i :: 0 <= i < |s| ==>
      Replace(s, from, to)[i] == if s[i] == from then to else s[i]
  {
    if s != [] {
      ReplaceAt(s[1..], from, to);
    }
  }

  lemma {:induction false} ToAsciiLowercaseAt(s: string)
    ensures |ToAsciiLowercase(s)| == |s|
    ensures forall i :: 0 <= i < |s| ==> ToAsciiLowercase(s)[i] == AsciiLower(s[i])
  {
    if s != [] {
      ToAsciiLowercaseAt(s[1..]);
    }
  }

  /** No space and no ASCII upper-case letter survives sanitisation; every other
      character is kept as it was. */
  lemma SanitizeLabelChars(text: string)
    ensures |SanitizeLabel(text)| == |text|
    ensures ' ' !in SanitizeLabel(text)
    ensures forall c :: c in SanitizeLabel(text) ==> !IsAsciiUpper(c)
    ensures forall i :: 0 <= i < |text| && text[i] == ' ' ==> SanitizeLabel(text)[i] == '-'
    ensures forall i :: 0 <= i < |text| && IsAsciiUpper(text[i]) ==>
      SanitizeLabel(text)[i] as int == text[i] as int + 32
    ensures forall i :: 0 <= i < |text| && text[i] != ' ' && !IsAsciiUpper(text[i]) ==>
      SanitizeLabel(text)[i] == text[i]
  {
  }

  /** Sanitising a label twice is the same as sanitising it once. */
  lemma SanitizeLabelIdempotent(text: string)
    ensures SanitizeLabel(SanitizeLabel(text)) == SanitizeLabel(text)
  {
    var once := SanitizeLabel(text);
    assert forall i :: 0 <= i < |once| ==> SanitizeLabel(once)[i] == once[i];
  }

  /** A label that is already sanitised is its own sanitisation: the outputs of
      `SanitizeLabel` are exactly the strings without spaces and upper-case ASCII. */
  lemma SanitizeLabelFixedPoints(text: string)
    ensures SanitizeLabel(text) == text <==>
      (' ' !in text && forall c :: c in text ==> !IsAsciiUpper(c))
  {
    SanitizeLabelChars(text);
    if ' ' !in text && forall c :: c in text ==> !IsAsciiUpper(c) {
      assert forall i :: 0 <= i < |text| ==> text[i] != ' ' && !IsAsciiUpper(text[i]);
    }
  }
}
