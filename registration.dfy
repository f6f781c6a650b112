/** `RegistrationUtil`: the sign-up form validator. */
module RegistrationUtil {
  import opened KotlinText

  /** User names already taken; membership is exact, case-sensitive equality. */
  const ExistingUsers: seq<string> := ["Peter", "Carl"]

  /** `s.count { it.isDigit() }`. */
  function DigitCount(s: string): (n: nat)
    ensures n <= |s|
    ensures n > 0 <==> exists i :: 0 <= i < |s| && IsDigit(s[i])
  {
    if s == [] then 0 else DigitCount(s[..|s| - 1]) + (if IsDigit(s[|s| - 1]) then 1 else 0)
  }

  /** The password holds two digits, at two different positions. */
  predicate HasTwoDigits(s: string) {
    exists i, j :: 0 <= i < j < |s| && IsDigit(s[i]) && IsDigit(s[j])
  }

  /**
   * The checks run in the order the source writes them and the first that
   * fails decides: empty fields, a taken name, a mismatched confirmation,
   * fewer than two digits.
   */
  function ValidateRegistrationInput(userName: string, password: string, confirmedPassword: string): (ok: bool)
    ensures ok ==> userName != [] && userName !in ExistingUsers
    ensures ok ==> password == confirmedPassword && DigitCount(password) >= 2
  {
    if userName == [] || password == [] then false
    else if userName in ExistingUsers then false
    else if password != confirmedPassword then false
    else if DigitCount(password) < 2 then false
    else true
  }

  /** Counting digits and finding two digit positions agree. */
  lemma {:induction false} DigitCountAtLeastTwo(s: string)
    ensures DigitCount(s) >= 2 <==> HasTwoDigits(s)
  {
    if s != [] {
      var init, last := s[..|s| - 1], s[|s| - 1];
      DigitCountAtLeastTwo(init);
      if DigitCount(s) >= 2 {
        if HasTwoDigits(init) {
          var i, j :| 0 <= i < j < |init| && IsDigit(init[i]) && IsDigit(init[j]);
          assert IsDigit(s[i]) && IsDigit(s[j]);
        } else {
          assert DigitCount(init) == 1 && IsDigit(last);
          var i :| 0 <= i < |init| && IsDigit(init[i]);
          assert IsDigit(s[i]) && IsDigit(s[|s| - 1]);
        }
      }
      if HasTwoDigits(s) {
        var i, j :| 0 <= i < j < |s| && IsDigit(s[i]) && IsDigit(s[j]);
        if j < |s| - 1 {
          assert IsDigit(init[i]) && IsDigit(init[j]);
        } else {
          assert IsDigit(init[i]);
        }
      }
    }
  }

  /** The validator accepts exactly the inputs that pass every rule. */
  lemma ValidateAcceptsExactly(userName: string, password: string, confirmedPassword: string)
    ensures ValidateRegistrationInput(userName, password, confirmedPassword) <==>
      userName != "" && password != "" && userName != "Peter" && userName != "Carl" &&
      password == confirmedPassword && HasTwoDigits(password)
  {
    DigitCountAtLeastTwo(password);
    assert userName in ExistingUsers <==> userName == "Peter" || userName == "Carl";
  }

  lemma EmptyFieldRejected(userName: string, password: string, confirmedPassword: string)
    requires userName == "" || password == ""
    ensures !ValidateRegistrationInput(userName, password, confirmedPassword)
  {
  }

  lemma ExistingUserRejected(userName: string, password: string, confirmedPassword: string)
    requires userName == "Peter" || userName == "Carl"
    ensures !ValidateRegistrationInput(userName, password, confirmedPassword)
  {
  }

  lemma MismatchedConfirmationRejected(userName: string, password: string, confirmedPassword: string)
    requires password != confirmedPassword
    ensures !ValidateRegistrationInput(userName, password, confirmedPassword)
  {
  }

  lemma FewDigitsRejected(userName: string, password: string, confirmedPassword: string)
    requires DigitCount(password) < 2
    ensures !ValidateRegistrationInput(userName, password, confirmedPassword)
  {
  }

  /** The inputs of the registration unit tests and their expected verdicts. */
  lemma RegistrationExamples()
    ensures !ValidateRegistrationInput("", "123", "123")
    ensures ValidateRegistrationInput("kmkim", "123", "123")
    ensures !ValidateRegistrationInput("Peter", "123", "123")
    ensures !ValidateRegistrationInput("kmkim", "", "")
    ensures !ValidateRegistrationInput("kmkim", "133", "123")
    ensures !ValidateRegistrationInput("kmkim", "abc1", "abc1")
  {
    assert "kmkim" != "Peter" && "kmkim" != "Carl";
    assert "123"[..2] == "12" && "12"[..1] == "1";
    assert DigitCount("123") == 3;
    assert "abc1"[..3] == "abc" && "abc"[..2] == "ab" && "ab"[..1] == "a";
    assert DigitCount("abc1") == 1;
  }
}
