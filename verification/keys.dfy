/** Key codes as the terminal backend reports them, and the human-readable
    key display that a button shows next to its label. */
module Keys {

  /** An unsigned 8-bit integer, the width of a function-key number. */
  newtype u8 = x: int | 0 <= x < 256

  /** Keys that only modify other keys (shift, control, ...). */
  datatype ModifierKeyCode =
    | LeftShift | LeftControl | LeftAlt | LeftSuper | LeftHyper | LeftMeta
    | RightShift | RightControl | RightAlt | RightSuper | RightHyper | RightMeta
    | IsoLevel3Shift | IsoLevel5Shift

  /** The key codes the key display distinguishes: a printable character,
      a numbered function key, or a bare modifier key. */
  datatype KeyCode =
    | Char(c: char)
    | F(n: u8)
    | Modifier(m: ModifierKeyCode)

  /* ----- Upper-casing ----- */

  predicate IsLowerAscii(c: char) {
    'a' <= c <= 'z'
  }

  predicate IsUpperAscii(c: char) {
    'A' <= c <= 'Z'
  }

  /** The distance between a lower-case ASCII letter and its capital. */
  const CaseOffset: int := 'a' as int - 'A' as int

  /** Upper-cases ASCII letters and leaves every other character alone. */
  function Upper(c: char): (u: char)
    ensures !IsLowerAscii(u)
    ensures IsLowerAscii(c) ==> IsUpperAscii(u) && u as int + CaseOffset == c as int
    ensures !IsLowerAscii(c) ==> u == c
  {
    if IsLowerAscii(c) then (c as int - CaseOffset) as char else c
  }

  /** Two characters that name the same letter, one in each case. */
  predicate SameLetterOtherCase(c: char, d: char) {
    || (IsLowerAscii(c) && d as int + CaseOffset == c as int)
    || (IsLowerAscii(d) && c as int + CaseOffset == d as int)
  }

  lemma UpperIdempotent(c: char)
    ensures Upper(Upper(c)) == Upper(c)
  {
  }

  /** Upper-casing identifies exactly the two cases of one ASCII letter. */
  lemma UpperSameIff(c: char, d: char)
    ensures Upper(c) == Upper(d) <==> c == d || SameLetterOtherCase(c, d)
  {
  }

  /* ----- Decimal digits ----- */

  predicate IsDigit(c: char) {
    '0' <= c <= '9'
  }

  predicate AllDigits(s: string) {
    forall i :: 0 <= i < |s| ==> IsDigit(s[i])
  }

  function DigitChar(d: nat): (c: char)
    requires d < 10
    ensures IsDigit(c)
  {
    ('0' as int + d) as char
  }

  function DigitValue(c: char): (d: nat)
    requires IsDigit(c)
    ensures d < 10 && DigitChar(d) == c
  {
    c as int - '0' as int
  }

  /** The decimal rendering of `n`: most significant digit first, no leading zeros. */
  function Decimal(n: nat): (s: string)
    ensures 1 <= |s|
    ensures AllDigits(s)
    ensures s[0] == '0' ==> n == 0 && s == "0"
    decreases n
  {
    if n < 10 then [DigitChar(n)] else Decimal(n / 10) + [DigitChar(n % 10)]
  }

  /** Reads a string of decimal digits back into a number; the reference
      against which `Decimal` is checked. */
  function ParseDecimal(s: string): (n: nat)
    requires AllDigits(s)
  {
    if |s| == 0 then 0 else ParseDecimal(s[..|s| - 1]) * 10 + DigitValue(s[|s| - 1])
  }

  lemma {:induction false} DecimalRoundTrip(n: nat)
    ensures ParseDecimal(Decimal(n)) == n
    decreases n
  {
    var s := Decimal(n);
    if n >= 10 {
      DecimalRoundTrip(n / 10);
      assert s[..|s| - 1] == Decimal(n / 10);
    }
  }

  lemma DecimalInjective(m: nat, n: nat)
    ensures Decimal(m) == Decimal(n) <==> m == n
  {
    DecimalRoundTrip(m);
    DecimalRoundTrip(n);
  }

  /** The converse of the round trip: a digit string without leading zeros
      is the decimal rendering of the number it denotes, so that property
      alone determines the text. */
  lemma {:induction false} CanonicalDecimalUnique(s: string)
    requires 1 <= |s| && AllDigits(s)
    requires s[0] == '0' ==> s == "0"
    ensures s == Decimal(ParseDecimal(s))
    decreases |s|
  {
    var t := s[..|s| - 1];
    if |s| == 1 {
      assert t == [];
      assert ParseDecimal(s) == DigitValue(s[0]);
    } else {
      assert t[0] == s[0];
      CanonicalDecimalUnique(t);
      var m := ParseDecimal(t);
      assert Decimal(0) == "0" && t[0] != '0';
      assert m != 0;
      var n := ParseDecimal(s);
      assert n / 10 == m && n % 10 == DigitValue(s[|s| - 1]);
      assert Decimal(n) == Decimal(m) + [DigitChar(n % 10)];
      assert s == t + [s[|s| - 1]];
    }
  }

  /** A function-key number never takes more than three digits. */
  lemma DecimalLengthU8(n: nat)
    requires n < 256
    ensures |Decimal(n)| <= 3
  {
    if n >= 10 {
      assert |Decimal(n)| == |Decimal(n / 10)| + 1;
      if n / 10 >= 10 {
        assert |Decimal(n / 10)| == |Decimal(n / 100)| + 1;
        assert n / 100 < 10;
      }
    }
  }

  /* ----- Key display ----- */

  /** The key codes the key display is defined for: bare modifiers are not. */
  predicate Displayable(k: KeyCode) {
    !k.Modifier?
  }

  /** The key display: a character shows as its capital, a function key
      as `F` followed by its number in decimal. */
  function Display(k: KeyCode): (s: string)
    requires Displayable(k)
    ensures k.Char? ==> s == [Upper(k.c)]
    ensures k.F? ==> 2 <= |s| <= 4 && s[0] == 'F' && AllDigits(s[1..]) && ParseDecimal(s[1..]) == k.n as nat
    ensures k.F? ==> (s[1] == '0' ==> s == "F0")
  {
    match k
    case Char(c) => [Upper(c)]
    case F(n) =>
      DecimalRoundTrip(n as nat);
      DecimalLengthU8(n as nat);
      var digits := Decimal(n as nat);
      assert ("F" + digits)[1..] == digits;
      "F" + digits
  }

  /** Two keys display the same exactly when they are the same key, or the
      two cases of one letter. */
  lemma DisplaySameIff(a: KeyCode, b: KeyCode)
    requires Displayable(a) && Displayable(b)
    ensures Display(a) == Display(b) <==> a == b || (a.Char? && b.Char? && SameLetterOtherCase(a.c, b.c))
  {
    if a.F? && b.F? && Display(a) == Display(b) {
      assert Display(a)[1..] == Display(b)[1..];
    }
    if a.Char? && b.Char? {
      UpperSameIff(a.c, b.c);
    }
  }
}
