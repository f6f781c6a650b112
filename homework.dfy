/**
 * The `Homework` exercises, pinned by their unit tests: 0-indexed
 * Fibonacci numbers and a check that parentheses are balanced and
 * properly nested, every other character being ignored.
 */
module Homework {

  /** Standard 0-indexed Fibonacci numbers; they grow at least linearly. */
  function Fib(n: nat): (r: nat)
    ensures n >= 1 ==> r >= 1
    ensures r >= n - 1
  {
    if n < 2 then n else Fib(n - 1) + Fib(n - 2)
  }

  /** The values the Fibonacci tests assert, exactly as they are written. */
  predicate MeetsFibTestsAsWritten(f: nat -> nat) {
    f(0) == 0 && f(1) == 1 && f(2) == 1 && f(3) == 2 && f(10) == 34
  }

  /** The same tests with the last expectation corrected to the 10th Fibonacci number. */
  predicate MeetsFibTestsCorrected(f: nat -> nat) {
    f(0) == 0 && f(1) == 1 && f(2) == 1 && f(3) == 2 && f(10) == 55
  }

  /** The value at `n` is the sum of the two before it. */
  predicate AddsPrevious(f: nat -> nat, n: nat)
    requires n >= 2
  {
    f(n) == f(n - 1) + f(n - 2)
  }

  /** Starts at 0 and 1, and from index 2 on adds the two values before. */
  ghost predicate FollowsRecurrence(f: nat -> nat) {
    f(0) == 0 && f(1) == 1 && forall n: nat :: n >= 2 ==> AddsPrevious(f, n)
  }

  lemma {:induction false} RecurrenceDeterminesFib(f: nat -> nat, n: nat)
    requires FollowsRecurrence(f)
    ensures f(n) == Fib(n)
  {
    if n >= 2 {
      assert AddsPrevious(f, n);
      RecurrenceDeterminesFib(f, n - 1);
      RecurrenceDeterminesFib(f, n - 2);
    }
  }

  /** No function obeying the recurrence passes the tests as written: the 10th value is 55, not 34. */
  lemma FibTestsAsWrittenUnsatisfiable(f: nat -> nat)
    requires FollowsRecurrence(f)
    ensures !MeetsFibTestsAsWritten(f)
  {
    RecurrenceDeterminesFib(f, 10);
    FibValues();
  }

  /** `Fib` passes the corrected tests, and 34 is its 9th value. */
  lemma FibValues()
    ensures MeetsFibTestsCorrected(Fib)
    ensures Fib(9) == 34
  {
    assert Fib(4) == 3 && Fib(5) == 5 && Fib(6) == 8 && Fib(7) == 13 && Fib(8) == 21;
  }

  /** Fibonacci by iterating the recurrence from 0 and 1. */
  method FibIterative(n: nat) returns (r: nat)
    ensures r == Fib(n)
  {
    var previous, current := 0, 1;
    var i := 0;
    while i < n
      invariant i <= n
      invariant previous == Fib(i) && current == Fib(i + 1)
    {
      previous, current := current, previous + current;
      i := i + 1;
    }
    r := previous;
  }

  /** The change a character makes to the number of unmatched '('. */
  function Step(c: char): int {
    if c == '(' then 1 else if c == ')' then -1 else 0
  }

  /** Opens minus closes. */
  function Depth(s: string): int {
    if s == [] then 0 else Step(s[0]) + Depth(s[1..])
  }

  /** Reference definition: no prefix closes more than it opened, and the whole string closes all. */
  predicate Balanced(s: string) {
    Depth(s) == 0 && forall k :: 0 <= k <= |s| ==> Depth(s[..k]) >= 0
  }

  /** Scan left to right with `open` parentheses still unmatched; a ')' with none open fails. */
  function Matched(s: string, open: nat): (ok: bool)
    ensures ok ==> open + Depth(s) == 0
  {
    if s == [] then open == 0
    else if s[0] == '(' then Matched(s[1..], open + 1)
    else if s[0] == ')' then open > 0 && Matched(s[1..], open - 1)
    else Matched(s[1..], open)
  }

  /** The checker agrees with the reference definition. */
  function CheckBraces(s: string): (ok: bool)
    ensures ok <==> Balanced(s)
  {
    MatchedIff(s, 0);
    Matched(s, 0)
  }

  /** The scan succeeds exactly when, started with `open` unmatched, no prefix dips below zero and the end is zero. */
  lemma {:induction false} MatchedIff(s: string, open: nat)
    ensures Matched(s, open) <==>
      open + Depth(s) == 0 && forall k :: 0 <= k <= |s| ==> open + Depth(s[..k]) >= 0
  {
    if s != [] {
      var t := s[1..];
      forall k | 1 <= k <= |s| ensures Depth(s[..k]) == Step(s[0]) + Depth(t[..k - 1]) {
        assert s[..k][1..] == t[..k - 1];
      }
      assert Depth(s[..0]) == 0;
      if Step(s[0]) + open >= 0 {
        MatchedIff(t, open + Step(s[0]));
        if Matched(s, open) {
          forall k | 0 <= k <= |s| ensures open + Depth(s[..k]) >= 0 {
            if k > 0 { assert open + Step(s[0]) + Depth(t[..k - 1]) >= 0; }
          }
        }
        if open + Depth(s) == 0 && forall k :: 0 <= k <= |s| ==> open + Depth(s[..k]) >= 0 {
          forall k | 0 <= k <= |t| ensures open + Step(s[0]) + Depth(t[..k]) >= 0 {
            assert open + Depth(s[..k + 1]) >= 0;
          }
        }
      } else {
        assert open + Depth(s[..1]) < 0;
      }
    }
  }

  /** The parentheses of `s`, in order, with every other character dropped. */
  function Braces(s: string): (r: string)
    ensures |r| <= |s|
  {
    if s == [] then [] else (if s[0] == '(' || s[0] == ')' then [s[0]] else []) + Braces(s[1..])
  }

  /** Characters other than parentheses do not affect the verdict. */
  lemma {:induction false} MatchedIgnoresOtherCharacters(s: string, open: nat)
    ensures Matched(s, open) == Matched(Braces(s), open)
  {
    if s != [] {
      MatchedIgnoresOtherCharacters(s[1..], open);
      var b := Braces(s);
      if s[0] == '(' || s[0] == ')' {
        assert b == [s[0]] + Braces(s[1..]);
        assert b[0] == s[0] && b[1..] == Braces(s[1..]);
        MatchedIgnoresOtherCharacters(s[1..], open + 1);
        if open > 0 { MatchedIgnoresOtherCharacters(s[1..], open - 1); }
      } else {
        assert b == Braces(s[1..]);
      }
    }
  }

  /** Wrapping a balanced string in a pair of parentheses keeps it balanced, as in nesting. */
  lemma {:induction false} MatchedAfterOpen(s: string, open: nat)
    requires Matched(s, open)
    ensures Matched(s + ")", open + 1)
  {
    if s == [] {
      assert (s + ")")[1..] == [];
    } else {
      assert (s + ")")[1..] == s[1..] + ")";
      if s[0] == '(' {
        MatchedAfterOpen(s[1..], open + 1);
      } else if s[0] == ')' {
        MatchedAfterOpen(s[1..], open - 1);
      } else {
        MatchedAfterOpen(s[1..], open);
      }
    }
  }

  lemma NestingPreservesBalance(s: string)
    requires CheckBraces(s)
    ensures CheckBraces("(" + s + ")")
  {
    MatchedAfterOpen(s, 0);
    assert ("(" + s + ")")[1..] == s + ")";
  }

  /** The strings of the brace tests and their expected verdicts. */
  lemma CheckBracesExamples()
    ensures !CheckBraces("(abc")
    ensures !CheckBraces("abc)")
    ensures !CheckBraces(")kmkim(")
    ensures !CheckBraces("(kmkim))")
    ensures CheckBraces("(kmkim)")
    ensures CheckBraces("(k(mk)im)")
  {
  }

  /** The checker as a loop over the string with a counter of unmatched '('. */
  method CheckBracesWithCounter(s: string) returns (ok: bool)
    ensures ok == CheckBraces(s)
    ensures ok <==> Balanced(s)
  {
    var open: nat := 0;
    var i := 0;
    ok := true;
    while i < |s| && ok
      invariant i <= |s|
      invariant ok ==> Matched(s[i..], open) == CheckBraces(s)
      invariant !ok ==> !CheckBraces(s)
    {
      assert s[i..][1..] == s[i + 1..];
      if s[i] == '(' {
        open := open + 1;
      } else if s[i] == ')' {
        if open == 0 {
          ok := false;
        } else {
          open := open - 1;
        }
      }
      i := i + 1;
    }
    ok := ok && open == 0;
  }
}
