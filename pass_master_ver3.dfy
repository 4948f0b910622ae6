/**
 * What pass_master_ver3.py adds to the shared list and generator logic: a
 * SAVE handler that refuses an empty identifier and then an empty password,
 * and the password strength evaluator shown after generating and on every
 * edit of the password field.
 */
module PassMasterV3 {
  import opened Entries
  import Generator
  import opened Wrappers

  /** The SAVE handler's outcomes: stored, or one of its two status-line errors. */
  datatype SaveStatus = Saved | MissingIdentifier | MissingPassword

  /** What this script's SAVE handler lets into the list: an identifier and a password. */
  predicate Complete(e: Entry) {
    e.identifier != "" && e.password != ""
  }

  /**
   * The SAVE handler: the identifier is checked first, then the password; on
   * either error the list is untouched, otherwise one entry stamped with
   * `saveTime` is appended. A list of complete entries stays complete.
   */
  method Save(list: PasswordList, identifier: string, password: string, memo: string, saveTime: string)
    returns (status: SaveStatus)
    modifies list
    ensures status == if identifier == "" then MissingIdentifier
                      else if password == "" then MissingPassword
                      else Saved
    ensures list.entries == if status == Saved then old(list.entries) + [Entry(identifier, password, memo, saveTime)]
                            else old(list.entries)
    ensures (forall e :: e in old(list.entries) ==> Complete(e)) ==> forall e :: e in list.entries ==> Complete(e)
  {
    if identifier == "" {
      return MissingIdentifier;
    }
    if password == "" {
      return MissingPassword;
    }
    var passwordEntry := Entry(identifier, password, memo, saveTime);
    list.entries := list.entries + [passwordEntry];
    status := Saved;
  }

  /** Deleting never brings in an entry, so a list of complete entries stays complete. */
  lemma DeletePreservesComplete(es: seq<Entry>, selected: string)
    requires forall e :: e in es ==> Complete(e)
    ensures forall e :: e in AfterDelete(es, selected) ==> Complete(e)
  {
    DeleteRemovesFirstMatch(es, selected);
    forall e | e in AfterDelete(es, selected)
      ensures Complete(e)
    {
      assert e in multiset(AfterDelete(es, selected));
    }
  }

  /** The symbol class the evaluator counts: the characters of its regular expression's bracket set. */
  const StrengthSymbols: set<char> := {
    '!', '@', '#', '$', '%', '^', '&', '*', '(', ')', '_', '+', '-', '=',
    '[', ']', '{', '}', ';', ':', '\'', '"', ',', '<', '>', '.', '/', '?'
  }

  predicate HasUpper(pw: string) {
    exists i :: 0 <= i < |pw| && 'A' <= pw[i] <= 'Z'
  }

  predicate HasLower(pw: string) {
    exists i :: 0 <= i < |pw| && 'a' <= pw[i] <= 'z'
  }

  predicate HasDigit(pw: string) {
    exists i :: 0 <= i < |pw| && '0' <= pw[i] <= '9'
  }

  predicate HasSymbol(pw: string) {
    exists i :: 0 <= i < |pw| && pw[i] in StrengthSymbols
  }

  /** How many of the four classes occur in the password (before the division by 4). */
  function Variety(pw: string): (v: nat)
    ensures v <= 4
    ensures v == 0 <==> !HasUpper(pw) && !HasLower(pw) && !HasDigit(pw) && !HasSymbol(pw)
  {
    (if HasUpper(pw) then 1 else 0) + (if HasLower(pw) then 1 else 0)
    + (if HasDigit(pw) then 1 else 0) + (if HasSymbol(pw) then 1 else 0)
  }

  /** `len(password) / 8 + variety / 4`, with exact reals in place of floats. */
  function Score(pw: string): real {
    (|pw| as real) / 8.0 + (Variety(pw) as real) / 4.0
  }

  /** The three verdicts, with the label and colour the script shows. */
  datatype Strength = Strong | Normal | Weak {
    function Label(): string {
      match this
      case Strong => "強い"
      case Normal => "普通"
      case Weak => "弱い"
    }

    function Colour(): string {
      match this
      case Strong => "green"
      case Normal => "orange"
      case Weak => "red"
    }

    /** Weak < Normal < Strong. */
    function Rank(): nat {
      match this
      case Weak => 0
      case Normal => 1
      case Strong => 2
    }
  }

  /** `evaluate_password_strength`: above 1.5 is strong, above 1.0 is normal, the rest is weak. */
  function Evaluate(pw: string): Strength {
    var score := Score(pw);
    if score > 1.5 then Strong
    else if score > 1.0 then Normal
    else Weak
  }

  /** Scaled by 8, the thresholds are integer comparisons on `len + 2 * variety`. */
  lemma EvaluateThresholds(pw: string)
    ensures Evaluate(pw) == Strong <==> |pw| + 2 * Variety(pw) > 12
    ensures Evaluate(pw) == Normal <==> 8 < |pw| + 2 * Variety(pw) <= 12
    ensures Evaluate(pw) == Weak <==> |pw| + 2 * Variety(pw) <= 8
  {
    var n := |pw| + 2 * Variety(pw);
    assert Score(pw) == (n as real) / 8.0;
  }

  /** A class present in a password is still present after more characters are typed. */
  lemma {:induction false} VarietyGrows(pw: string, more: string)
    ensures Variety(pw) <= Variety(pw + more)
  {
    var q := pw + more;
    if HasUpper(pw) {
      var i :| 0 <= i < |pw| && 'A' <= pw[i] <= 'Z';
      assert q[i] == pw[i];
    }
    if HasLower(pw) {
      var i :| 0 <= i < |pw| && 'a' <= pw[i] <= 'z';
      assert q[i] == pw[i];
    }
    if HasDigit(pw) {
      var i :| 0 <= i < |pw| && '0' <= pw[i] <= '9';
      assert q[i] == pw[i];
    }
    if HasSymbol(pw) {
      var i :| 0 <= i < |pw| && pw[i] in StrengthSymbols;
      assert q[i] == pw[i];
    }
  }

  /** Typing more characters never lowers the verdict. */
  lemma EvaluateMonotone(pw: string, more: string)
    ensures Evaluate(pw).Rank() <= Evaluate(pw + more).Rank()
  {
    VarietyGrows(pw, more);
    EvaluateThresholds(pw);
    EvaluateThresholds(pw + more);
  }

  /** No character of the symbol class is a letter or a digit, so the four classes are disjoint. */
  lemma SymbolsAreNotAlphanumeric(c: char)
    requires c in StrengthSymbols
    ensures !('A' <= c <= 'Z') && !('a' <= c <= 'z') && !('0' <= c <= '9')
  {
  }

  /** A one-character password scores one class exactly when the character is in one of the four. */
  lemma SingleCharVariety(c: char)
    ensures Variety([c]) == (if 'A' <= c <= 'Z' || 'a' <= c <= 'z' || '0' <= c <= '9' || c in StrengthSymbols then 1 else 0)
  {
    var s := [c];
    assert s[0] == c;
    assert HasUpper(s) <==> 'A' <= c <= 'Z';
    assert HasLower(s) <==> 'a' <= c <= 'z';
    assert HasDigit(s) <==> '0' <= c <= '9';
    assert HasSymbol(s) <==> c in StrengthSymbols;
    if c in StrengthSymbols {
      SymbolsAreNotAlphanumeric(c);
    }
  }

  /** Every character the generator can draw belongs to one of the four classes the evaluator counts. */
  lemma GeneratorCharsCounted(p: Generator.Policy, c: char)
    requires c in Generator.Alphabet(p)
    ensures Variety([c]) == 1
  {
    Generator.AlphabetMembers(p, c);
    SingleCharVariety(c);
    if c in Generator.Symbols {
      assert c in StrengthSymbols;
    }
  }

  /**
   * Whatever the random draws, a generated password of 11 or more characters
   * is rated strong and one of 7 or more at least normal: every drawn
   * character adds a class.
   */
  lemma GeneratedStrength(p: Generator.Policy, pw: string)
    requires |pw| >= 7
    requires forall i :: 0 <= i < |pw| ==> pw[i] in Generator.Alphabet(p)
    ensures Evaluate(pw) != Weak
    ensures |pw| >= 11 ==> Evaluate(pw) == Strong
  {
    GeneratorCharsCounted(p, pw[0]);
    assert [pw[0]] + pw[1..] == pw;
    VarietyGrows([pw[0]], pw[1..]);
    EvaluateThresholds(pw);
  }

  /** The three sample ratings: eight `a` is normal, "Ab1!Ab1!" is strong, a single `a` is weak. */
  lemma EvaluateExamples()
    ensures Evaluate("aaaaaaaa") == Normal
    ensures Evaluate("Ab1!Ab1!") == Strong
    ensures Evaluate("a") == Weak
  {
    LowerOnlyVariety("aaaaaaaa");
    EvaluateThresholds("aaaaaaaa");
    MixedVariety();
    EvaluateThresholds("Ab1!Ab1!");
    LowerOnlyVariety("a");
    EvaluateThresholds("a");
  }

  /** A non-empty password of lower-case letters only has one class. */
  lemma LowerOnlyVariety(pw: string)
    requires pw != []
    requires forall i :: 0 <= i < |pw| ==> 'a' <= pw[i] <= 'z'
    ensures Variety(pw) == 1
  {
    assert HasLower(pw) by { assert 'a' <= pw[0] <= 'z'; }
    assert !HasSymbol(pw) by {
      forall i | 0 <= i < |pw|
        ensures pw[i] !in StrengthSymbols
      {
        if pw[i] in StrengthSymbols {
          SymbolsAreNotAlphanumeric(pw[i]);
        }
      }
    }
  }

  lemma MixedVariety()
    ensures Variety("Ab1!Ab1!") == 4
  {
    var mixed := "Ab1!Ab1!";
    assert HasUpper(mixed) by { assert 'A' <= mixed[0] <= 'Z'; }
    assert HasLower(mixed) by { assert 'a' <= mixed[1] <= 'z'; }
    assert HasDigit(mixed) by { assert '0' <= mixed[2] <= '9'; }
    assert HasSymbol(mixed) by { assert mixed[3] in StrengthSymbols; }
  }

  /**
   * A session against the contracts alone: save "bank", see it listed under
   * the empty filter, select and then delete its line.
   */
  method SaveSelectDeleteSession(saveTime: string) {
    var list := new PasswordList([]);
    var status := Save(list, "bank", "x1", "", saveTime);
    assert status == Saved;
    var entry := Entry("bank", "x1", "", saveTime);
    assert list.entries == [entry];
    var shown := list.Filter("");
    ListingEmptyFilter(list.entries);
    assert shown == [Display(entry)];
    var password := list.Select(shown);
    assert password == Some("x1");
    var deleted := list.Delete(shown, true);
    assert deleted == Done && list.entries == [];
  }
}
