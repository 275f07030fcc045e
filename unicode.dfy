/**
 The character tables the glossary relies on: the major general category of a
 character (first letter of its Unicode category), Python 2's notion of a
 whitespace character, the case mappings behind `unicode.capitalize`, and the
 accent stripping of `strip_accents` (canonical decomposition followed by
 dropping non-spacing marks).

 The tables follow Unicode 5.2, the version of Python 2.7's `unicodedata`.
 They cover Basic Latin, the Latin-1 Supplement (with the case pairs of `ÿ`
 and `µ` that leave it), the combining diacritical marks, every whitespace
 character and the punctuation U+2010-U+2027; every other character is
 treated as a letter without case.
 */
module Unicode {

  /** First letter of a Unicode general category: L, M, N, P, S, Z or C. */
  datatype MajorClass = Letter | Mark | Number | Punctuation | Symbol | Separator | Other

  function Category(c: char): MajorClass
  {
    var n := c as int;
    if n < 0x20 || (0x7F <= n < 0xA0) || n == 0xAD || (0x200B <= n <= 0x200F) || n == 0xFEFF then Other
    else if n == 0x20 || n == 0xA0 || n == 0x1680 || n == 0x180E || (0x2000 <= n <= 0x200A)
         || n == 0x2028 || n == 0x2029 || n == 0x202F || n == 0x205F || n == 0x3000 then Separator
    else if ('0' <= c <= '9') || n == 0xB2 || n == 0xB3 || n == 0xB9 || (0xBC <= n <= 0xBE) then Number
    else if (IsAsciiPunctOrSymbol(n) && !IsAsciiSymbol(n)) || n == 0xA1 || n == 0xAB
         || n == 0xB7 || n == 0xBB || n == 0xBF || (0x2010 <= n <= 0x2027) then Punctuation
    else if IsAsciiSymbol(n) || (0xA2 <= n <= 0xA9) || n == 0xAC || (0xAE <= n <= 0xB1)
         || n == 0xB4 || n == 0xB6 || n == 0xB8 || n == 0xD7 || n == 0xF7 then Symbol
    else if 0x300 <= n <= 0x36F then Mark
    else Letter
  }

  /** ASCII punctuation and symbol characters: the printable characters that are not letters or digits. */
  predicate IsAsciiPunctOrSymbol(n: int)
  {
    (0x21 <= n <= 0x2F) || (0x3A <= n <= 0x40) || (0x5B <= n <= 0x60) || (0x7B <= n <= 0x7E)
  }

  /** The ASCII symbols (category S): $ + < = > ^ ` | ~ */
  predicate IsAsciiSymbol(n: int)
  {
    n == 0x24 || n == 0x2B || (0x3C <= n <= 0x3E) || n == 0x5E || n == 0x60 || n == 0x7C || n == 0x7E
  }

  /** The categories `cleanUpWord` removes from a token: P, C, Z and N. */
  predicate Dropped(c: char)
  {
    Category(c) in {Punctuation, Other, Separator, Number}
  }

  /** Python 2's `unicode.isspace`, the separator set of `split()` and `strip()`. */
  predicate IsSpace(c: char)
  {
    var n := c as int;
    (0x09 <= n <= 0x0D) || (0x1C <= n <= 0x20) || n == 0x85 || n == 0xA0 || n == 0x1680
    || n == 0x180E || (0x2000 <= n <= 0x200A) || n == 0x2028 || n == 0x2029 || n == 0x202F || n == 0x205F || n == 0x3000
  }

  /** `\d` of a pattern compiled without the UNICODE flag: an ASCII digit. */
  predicate IsAsciiDigit(c: char)
  {
    '0' <= c <= '9'
  }

  /** Every whitespace character belongs to a category that `cleanUpWord` drops. */
  lemma SpaceIsDropped(c: char)
    requires IsSpace(c)
    ensures Dropped(c)
  {
  }

  function ToUpper(c: char): (u: char)
  {
    var n := c as int;
    if ('a' <= c <= 'z') || (0xE0 <= n <= 0xFE && n != 0xF7) then (n - 32) as char
    else if n == 0xFF then 0x178 as char
    else if n == 0xB5 || n == 0x3BC then 0x39C as char
    else c
  }

  function ToLower(c: char): (l: char)
  {
    var n := c as int;
    if ('A' <= c <= 'Z') || (0xC0 <= n <= 0xDE && n != 0xD7) then (n + 32) as char
    else if n == 0x178 then 0xFF as char
    else if n == 0x39C then 0x3BC as char
    else c
  }

  function LowerAll(s: string): (r: string)
    ensures |r| == |s|
    ensures forall i :: 0 <= i < |s| ==> r[i] == ToLower(s[i])
  {
    if s == [] then [] else [ToLower(s[0])] + LowerAll(s[1..])
  }

  /** Python 2's `unicode.capitalize`: first character upper case, the rest lower case. */
  function Capitalize(s: string): (r: string)
  {
    if s == [] then [] else [ToUpper(s[0])] + LowerAll(s[1..])
  }

  /** Case mapping neither creates nor removes whitespace or dropped characters. */
  lemma CaseMappingKeepsClass(c: char)
    ensures IsSpace(ToUpper(c)) == IsSpace(c) && IsSpace(ToLower(c)) == IsSpace(c)
    ensures Dropped(ToUpper(c)) == Dropped(c) && Dropped(ToLower(c)) == Dropped(c)
  {
  }

  lemma CapitalizeShape(s: string)
    ensures |Capitalize(s)| == |s|
    ensures s != [] ==> Capitalize(s)[0] == ToUpper(s[0])
    ensures forall i :: 0 < i < |s| ==> Capitalize(s)[i] == ToLower(s[i])
  {
  }

  /** Capitalising keeps a string free of whitespace and of dropped characters. */
  lemma CapitalizeKeepsClass(s: string)
    ensures forall i :: 0 <= i < |s| ==> IsSpace(Capitalize(s)[i]) == IsSpace(s[i])
    ensures forall i :: 0 <= i < |s| ==> Dropped(Capitalize(s)[i]) == Dropped(s[i])
  {
    CapitalizeShape(s);
    forall i | 0 <= i < |s|
      ensures IsSpace(Capitalize(s)[i]) == IsSpace(s[i]) && Dropped(Capitalize(s)[i]) == Dropped(s[i])
    {
      CaseMappingKeepsClass(s[i]);
    }
  }

  /** Capitalising twice is capitalising once, so writing an already capitalised key changes nothing. */
  lemma CapitalizeIdempotent(s: string)
    ensures Capitalize(Capitalize(s)) == Capitalize(s)
  {
    var c := Capitalize(s);
    CapitalizeShape(s);
    CapitalizeShape(c);
    assert forall i :: 0 <= i < |s| ==> Capitalize(c)[i] == c[i];
  }

  /** The base letter of a precomposed Latin-1 letter under canonical decomposition. */
  function BaseLetter(c: char): char
  {
    var n := c as int;
    if 0xC0 <= n <= 0xC5 then 'A' else if n == 0xC7 then 'C'
    else if 0xC8 <= n <= 0xCB then 'E' else if 0xCC <= n <= 0xCF then 'I'
    else if n == 0xD1 then 'N' else if 0xD2 <= n <= 0xD6 then 'O'
    else if 0xD9 <= n <= 0xDC then 'U' else if n == 0xDD then 'Y'
    else if 0xE0 <= n <= 0xE5 then 'a' else if n == 0xE7 then 'c'
    else if 0xE8 <= n <= 0xEB then 'e' else if 0xEC <= n <= 0xEF then 'i'
    else if n == 0xF1 then 'n' else if 0xF2 <= n <= 0xF6 then 'o'
    else if 0xF9 <= n <= 0xFC then 'u' else if n == 0xFD || n == 0xFF then 'y'
    else c
  }

  /** `strip_accents`: decompose, then drop the non-spacing marks. */
  function StripAccents(s: string): (r: string)
    ensures |r| <= |s|
  {
    if s == [] then []
    else (if Category(s[0]) == Mark then [] else [BaseLetter(s[0])]) + StripAccents(s[1..])
  }

  /** Decomposing a character that is not a mark yields no mark. */
  lemma BaseLetterNotMark(c: char)
    requires Category(c) != Mark
    ensures Category(BaseLetter(c)) != Mark
  {
  }

  /** Accent stripping leaves no non-spacing mark. */
  lemma {:induction false} StripAccentsNoMarks(s: string)
    ensures forall i :: 0 <= i < |StripAccents(s)| ==> Category(StripAccents(s)[i]) != Mark
  {
    if s != [] {
      StripAccentsNoMarks(s[1..]);
      var head := if Category(s[0]) == Mark then [] else [BaseLetter(s[0])];
      if Category(s[0]) != Mark {
        BaseLetterNotMark(s[0]);
      }
      assert StripAccents(s) == head + StripAccents(s[1..]);
    }
  }

  /** A string without accented letters or marks is its own accent-stripped form. */
  lemma {:induction false} StripAccentsAscii(s: string)
    requires forall i :: 0 <= i < |s| ==> s[i] as int < 0x80
    ensures StripAccents(s) == s
  {
    if s != [] {
      AsciiKept(s[0]);
      StripAccentsAscii(s[1..]);
      assert s == [s[0]] + s[1..];
    }
  }

  /** An ASCII character is not a mark and is its own base letter. */
  lemma AsciiKept(c: char)
    requires c as int < 0x80
    ensures Category(c) != Mark && BaseLetter(c) == c
  {
  }
}
