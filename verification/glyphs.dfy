/** The character set of the machine's text display
    (batpu2/src/char.rs): thirty glyphs addressed by a byte index. */
module Glyphs {
  import opened Results

  /** `u8` as an index. Unlike the instruction fields, which are packed
      with bit operations and so are bit vectors, a display character is
      only compared, used as a table index and printed in decimal, which
      integer arithmetic states directly. */
  newtype Byte = x: int | 0 <= x < 256

  /** A display character index, `Char(u8)`. Indices from 30 upwards name
      no glyph. */
  datatype Char = Char(code: Byte)

  /** The glyph table: space, the upper-case letters, then `.`, `!`, `?`. */
  const TABLE: seq<char> := " ABCDEFGHIJKLMNOPQRSTUVWXYZ.!?"

  const SPACE: Char := Char(0)

  datatype GlyphError = InvalidChar(ch: char)

  /** `Char::to_char`: the glyph at the index, if the table has one. */
  function ToChar(c: Char): (r: Option<char>)
    ensures r.Some? <==> c.code < 30
    ensures r.Some? ==> r.value == TABLE[c.code]
  {
    if (c.code as int) < |TABLE| then Some(TABLE[c.code]) else None
  }

  /** `Char::is_valid` */
  predicate IsValid(c: Char) {
    (c.code as int) < |TABLE|
  }

  /** A character is valid exactly when it has a glyph. */
  lemma ValidIffGlyph(c: Char)
    ensures IsValid(c) <==> ToChar(c).Some?
    ensures IsValid(c) <==> c.code < 30
  {
  }

  predicate IsAsciiUpper(ch: char) {
    'A' <= ch <= 'Z'
  }

  predicate IsAsciiLower(ch: char) {
    'a' <= ch <= 'z'
  }

  /** `char::is_ascii_alphabetic` */
  predicate IsAsciiAlphabetic(ch: char) {
    IsAsciiUpper(ch) || IsAsciiLower(ch)
  }

  /** `char::to_ascii_uppercase`: only `a`..`z` change. */
  function ToAsciiUpper(ch: char): (r: char)
    ensures IsAsciiLower(ch) ==> IsAsciiUpper(r) && r as int + 32 == ch as int
    ensures !IsAsciiLower(ch) ==> r == ch
  {
    if IsAsciiLower(ch) then (ch as int - 32) as char else ch
  }

  /** The characters the display accepts. */
  predicate Accepted(ch: char) {
    ch == ' ' || ch == '.' || ch == '!' || ch == '?' || IsAsciiAlphabetic(ch)
  }

  /** `TryFrom<char> for Char`: the space and the three punctuation marks
      have fixed indices, an ASCII letter of either case maps to its
      position in the alphabet counted from 1, and anything else is an
      error naming the character. */
  function FromChar(ch: char): (r: Result<Char, GlyphError>)
    ensures r.Ok? <==> Accepted(ch)
    ensures r.Ok? ==> IsValid(r.value) && ToChar(r.value) == Some(ToAsciiUpper(ch))
    ensures r.Err? ==> r.error == InvalidChar(ch)
  {
    if ch == ' ' then Ok(SPACE)
    else if ch == '.' then Ok(Char(27))
    else if ch == '!' then Ok(Char(28))
    else if ch == '?' then Ok(Char(29))
    else if IsAsciiAlphabetic(ch) then
      var code := ToAsciiUpper(ch) as int - 'A' as int + 1;
      LetterAt(code);
      Ok(Char(code as Byte))
    else Err(InvalidChar(ch))
  }

  /** The letters sit at indices 1 to 26, in alphabetical order. */
  lemma LetterAt(k: int)
    requires 1 <= k <= 26
    ensures TABLE[k] == ('A' as int + k - 1) as char
  {
  }

  /** Every glyph converts back to its own index. */
  lemma GlyphRoundTrip(c: Char)
    requires IsValid(c)
    ensures FromChar(TABLE[c.code]) == Ok(c)
  {
    if 1 <= c.code <= 26 {
      LetterAt(c.code as int);
    }
  }

  /** Upper and lower case of a letter convert to the same index. */
  lemma CaseInsensitive(ch: char)
    ensures FromChar(ch) == FromChar(ToAsciiUpper(ch))
  {
    if IsAsciiLower(ch) {
      var up := ToAsciiUpper(ch);
      assert IsAsciiUpper(up) && !IsAsciiLower(up);
      assert ToAsciiUpper(up) == up;
    }
  }

  /** The digit character of a value below ten. */
  function Digit(d: nat): (ch: char)
    requires d < 10
    ensures '0' <= ch <= '9' && ch as int - '0' as int == d
  {
    ('0' as int + d) as char
  }

  predicate IsNumeral(s: string) {
    forall k :: 0 <= k < |s| ==> '0' <= s[k] <= '9'
  }

  /** The decimal numeral of `n`, without leading zeros. */
  function Decimal(n: nat): (s: string)
    ensures 1 <= |s|
    ensures IsNumeral(s)
    ensures |s| > 1 ==> s[0] != '0'
    decreases n
  {
    if n < 10 then [Digit(n)] else Decimal(n / 10) + [Digit(n % 10)]
  }

  /** The value a string of decimal digits denotes. */
  function DecimalValue(s: string): nat
    requires IsNumeral(s)
  {
    if s == [] then 0
    else DecimalValue(s[..|s| - 1]) * 10 + (s[|s| - 1] as int - '0' as int)
  }

  /** Reading back a numeral gives the number it was written from. */
  lemma {:induction false} DecimalRoundTrip(n: nat)
    ensures DecimalValue(Decimal(n)) == n
    decreases n
  {
    var s := Decimal(n);
    if n >= 10 {
      DecimalRoundTrip(n / 10);
      assert s[..|s| - 1] == Decimal(n / 10);
    }
  }

  /** `Display for Char`: the glyph when there is one, otherwise the index
      in decimal between angle brackets. */
  function Display(c: Char): (s: string)
    ensures IsValid(c) ==> s == [TABLE[c.code]]
    ensures !IsValid(c) ==> |s| >= 3 && s[0] == '<' && s[|s| - 1] == '>'
    ensures !IsValid(c) ==> IsNumeral(s[1..|s| - 1]) && DecimalValue(s[1..|s| - 1]) == c.code as nat
    ensures !IsValid(c) ==> s[1] != '0'
  {
    match ToChar(c)
    case Some(g) => [g]
    case None =>
      var d := Decimal(c.code as nat);
      DecimalRoundTrip(c.code as nat);
      assert ("<" + d + ">")[1..|d| + 1] == d;
      "<" + d + ">"
  }

  /** The glyph entries are pairwise distinct. */
  lemma TableDistinct(i: nat, j: nat)
    requires i < |TABLE| && j < |TABLE| && TABLE[i] == TABLE[j]
    ensures i == j
  {
    if 1 <= i <= 26 {
      LetterAt(i);
    }
    if 1 <= j <= 26 {
      LetterAt(j);
    }
  }

  /** Distinct characters are displayed differently: an invalid index
      shows as a numeral that reads back to the index. */
  lemma DisplayInjective(x: Char, y: Char)
    ensures Display(x) == Display(y) <==> x == y
  {
    if Display(x) == Display(y) {
      if IsValid(x) && IsValid(y) {
        TableDistinct(x.code as nat, y.code as nat);
      } else if !IsValid(x) && !IsValid(y) {
        var dx, dy := Decimal(x.code as nat), Decimal(y.code as nat);
        assert dx == Display(x)[1..|Display(x)| - 1];
        assert dy == Display(y)[1..|Display(y)| - 1];
        DecimalRoundTrip(x.code as nat);
        DecimalRoundTrip(y.code as nat);
      }
    }
  }
}
