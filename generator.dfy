/**
 * The GENERATE handler as both scripts have it: build the alphabet from the
 * four check boxes, refuse an empty alphabet, refuse a length that is not a
 * positive integer, then draw each character from the alphabet. The later
 * script also rates the new password, which PassMasterV3 models.
 */
module Generator {
  import opened Wrappers
  import PyInt

  const Uppercase := "ABCDEFGHIJKLMNOPQRSTUVWXYZ"
  const Lowercase := "abcdefghijklmnopqrstuvwxyz"
  const Numbers := "0123456789"
  const Symbols := "#!@_-"

  /** The four check boxes USE_UPPER, USE_LOWER, USE_NUMBERS and USE_SYMBOLS. */
  datatype Policy = Policy(useUpper: bool, useLower: bool, useNumbers: bool, useSymbols: bool)

  /** The two errors the handler reports in its status line before `continue`. */
  datatype GenerateError = EmptyAlphabet | InvalidLength

  /** The enabled classes, concatenated in the fixed order upper, lower, numbers, symbols. */
  function Alphabet(p: Policy): string {
    Enabled(p.useUpper, Uppercase) + Enabled(p.useLower, Lowercase)
    + Enabled(p.useNumbers, Numbers) + Enabled(p.useSymbols, Symbols)
  }

  /** A class's characters when its box is ticked, nothing otherwise. */
  function Enabled(ticked: bool, chars: string): string {
    if ticked then chars else ""
  }

  /** Each class constant holds exactly its range of characters. */
  lemma UppercaseMembers(c: char)
    ensures c in Uppercase <==> 'A' <= c <= 'Z'
  {
  }

  lemma LowercaseMembers(c: char)
    ensures c in Lowercase <==> 'a' <= c <= 'z'
  {
  }

  lemma NumbersMembers(c: char)
    ensures c in Numbers <==> '0' <= c <= '9'
  {
  }

  /** A character is in the alphabet exactly when its class is enabled. */
  lemma AlphabetMembers(p: Policy, c: char)
    ensures c in Alphabet(p) <==>
            (p.useUpper && 'A' <= c <= 'Z') || (p.useLower && 'a' <= c <= 'z') ||
            (p.useNumbers && '0' <= c <= '9') || (p.useSymbols && c in Symbols)
  {
    var u := Enabled(p.useUpper, Uppercase);
    var l := Enabled(p.useLower, Lowercase);
    var n := Enabled(p.useNumbers, Numbers);
    var s := Enabled(p.useSymbols, Symbols);
    UppercaseMembers(c);
    LowercaseMembers(c);
    NumbersMembers(c);
    assert c in u <==> p.useUpper && 'A' <= c <= 'Z';
    assert c in l <==> p.useLower && 'a' <= c <= 'z';
    assert c in n <==> p.useNumbers && '0' <= c <= '9';
    assert c in s <==> p.useSymbols && c in Symbols;
    assert Alphabet(p) == u + l + n + s;
    assert c in u + l + n + s <==> c in u || c in l || c in n || c in s;
  }

  /** The alphabet is empty exactly when no box is ticked; its size is the sum of the enabled classes. */
  lemma AlphabetSize(p: Policy)
    ensures |Alphabet(p)| == (if p.useUpper then 26 else 0) + (if p.useLower then 26 else 0)
                           + (if p.useNumbers then 10 else 0) + (if p.useSymbols then 5 else 0)
    ensures Alphabet(p) == "" <==> !p.useUpper && !p.useLower && !p.useNumbers && !p.useSymbols
  {
  }

  /** `password_chars += ...` for each ticked box, in order. */
  method BuildAlphabet(p: Policy) returns (passwordChars: string)
    ensures passwordChars == Alphabet(p)
  {
    passwordChars := "";
    if p.useUpper {
      passwordChars := passwordChars + Uppercase;
    }
    assert passwordChars == Enabled(p.useUpper, Uppercase);
    if p.useLower {
      passwordChars := passwordChars + Lowercase;
    }
    assert passwordChars == Enabled(p.useUpper, Uppercase) + Enabled(p.useLower, Lowercase);
    if p.useNumbers {
      passwordChars := passwordChars + Numbers;
    }
    assert passwordChars == Enabled(p.useUpper, Uppercase) + Enabled(p.useLower, Lowercase)
                            + Enabled(p.useNumbers, Numbers);
    if p.useSymbols {
      passwordChars := passwordChars + Symbols;
    }
  }

  /** The length `int(text)` gives when it is a positive integer; `None` where the handler reports an error. */
  function PasswordLength(lengthText: string): (r: Option<nat>)
    ensures r.Some? <==> PyInt.Parse(lengthText).Some? && PyInt.Parse(lengthText).value > 0
    ensures r.Some? ==> r.value == PyInt.Parse(lengthText).value
  {
    match PyInt.Parse(lengthText)
    case None => None
    case Some(n) => if n <= 0 then None else Some(n)
  }

  /** A positive length typed as `str(n)` is accepted as `n`; zero and negative lengths are refused. */
  lemma PasswordLengthShow(n: int)
    requires |PyInt.ShowNat(if n < 0 then -n else n)| <= PyInt.MaxStrDigits
    ensures PasswordLength(PyInt.Show(n)) == if n > 0 then Some(n) else None
  {
    PyInt.ParseShow(n);
  }

  /** Whitespace typed around a length does not change whether or how it is accepted. */
  lemma PasswordLengthPadded(pre: string, text: string, post: string)
    requires forall i :: 0 <= i < |pre| ==> PyInt.IsSpace(pre[i])
    requires forall i :: 0 <= i < |post| ==> PyInt.IsSpace(post[i])
    requires text != [] && !PyInt.IsSpace(text[0]) && !PyInt.IsSpace(text[|text| - 1])
    ensures PasswordLength(pre + text + post) == PasswordLength(text)
  {
    PyInt.ParseIgnoresSpace(pre, text, post);
  }

  /**
   * `"".join(secrets.choice(chars) for _ in range(n))`: `n` characters, each an
   * arbitrary pick from `chars` (the source's secure random choice).
   */
  method Draw(chars: string, n: nat) returns (password: string)
    requires chars != ""
    ensures |password| == n
    ensures forall i :: 0 <= i < n ==> password[i] in chars
  {
    password := "";
    var k := 0;
    while k < n
      invariant 0 <= k <= n
      invariant |password| == k
      invariant forall i :: 0 <= i < k ==> password[i] in chars
    {
      assert chars[0] in chars;
      var c :| c in chars;
      password := password + [c];
      k := k + 1;
    }
  }

  /**
   * The GENERATE handler. The alphabet is checked first, then the length; a
   * generated password has exactly the requested length and only alphabet
   * characters. Each `secrets.choice` is an arbitrary pick from the alphabet.
   */
  method Generate(p: Policy, lengthText: string) returns (r: Result<string, GenerateError>)
    ensures r == Err(EmptyAlphabet) <==> Alphabet(p) == ""
    ensures r == Err(InvalidLength) <==> Alphabet(p) != "" && PasswordLength(lengthText).None?
    ensures r.Ok? ==> PasswordLength(lengthText).Some? && |r.value| == PasswordLength(lengthText).value
    ensures r.Ok? ==> forall i :: 0 <= i < |r.value| ==> r.value[i] in Alphabet(p)
  {
    var passwordChars := BuildAlphabet(p);
    if passwordChars == "" {
      return Err(EmptyAlphabet);
    }
    var passwordLength: nat;
    match PyInt.Parse(lengthText) {
      case None =>
        return Err(InvalidLength);
      case Some(n) =>
        if n <= 0 {
          return Err(InvalidLength);
        }
        passwordLength := n;
    }
    var password := Draw(passwordChars, passwordLength);
    return Ok(password);
  }
}
