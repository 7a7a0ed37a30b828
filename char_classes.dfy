/** The character classes the password policy uses, over ASCII. */
module CharClasses {

  const LowerLetters := "abcdefghijklmnopqrstuvwxyz"
  const UpperLetters := "ABCDEFGHIJKLMNOPQRSTUVWXYZ"
  const Digits := "0123456789"

  /** char.IsLower, over ASCII: one of the 26 lower-case letters. */
  function IsLower(c: char): (r: bool)
    ensures r <==> c in LowerLetters
  {
    'a' <= c <= 'z'
  }

  /** char.IsUpper, over ASCII: one of the 26 upper-case letters. */
  function IsUpper(c: char): (r: bool)
    ensures r <==> c in UpperLetters
  {
    'A' <= c <= 'Z'
  }

  /** char.IsDigit, over ASCII: one of the ten decimal digits. */
  function IsDigit(c: char): (r: bool)
    ensures r <==> c in Digits
  {
    '0' <= c <= '9'
  }

  /** char.IsLetterOrDigit, over ASCII: one of the 62 letters and digits; the password
      policy's "special character" is any other character. */
  function IsLetterOrDigit(c: char): (r: bool)
    ensures r <==> c in LowerLetters + UpperLetters + Digits
  {
    IsLower(c) || IsUpper(c) || IsDigit(c)
  }

  /** Some character of `s` satisfies `f` (LINQ's Any). */
  function Any(s: string, f: char -> bool): (r: bool)
    ensures r <==> exists i :: 0 <= i < |s| && f(s[i])
  {
    if |s| == 0 then false
    else if f(s[0]) then true
    else
      var rest := Any(s[1..], f);
      assert rest ==> exists i :: 0 <= i < |s| && f(s[i]) by {
        if rest {
          var i :| 0 <= i < |s[1..]| && f(s[1..][i]);
          assert f(s[i + 1]);
        }
      }
      rest
  }
}
