/**
  The argument of the mark_errors command: parseMarkErrorInput reads a
  token with a three-state automaton and answers 0, 1 or -1 (neither).
 */
module MarkErrors {
  /** The token's i-th character, the terminating NUL at the end. */
  function Char(s: string, i: nat): char {
    if i < |s| then s[i] else '\0'
  }

  /** Every character of s is '0'. */
  predicate AllZeros(s: string) {
    forall i :: 0 <= i < |s| ==> s[i] == '0'
  }

  /** The regular language 0+: one or more zeros. */
  predicate IsZero(s: string) {
    |s| >= 1 && AllZeros(s)
  }

  /** The regular language 0*1: any zeros, then a single one. */
  predicate IsOne(s: string) {
    |s| >= 1 && s[|s| - 1] == '1' && AllZeros(s[..|s| - 1])
  }

  /**
    parseMarkErrorInput, with state and index starting at 0. State 1 has
    read 0+, state 2 has read 0*1; the token is accepted when its end is
    reached in state 1 (0) or 2 (1).
   */
  method ParseMarkErrorInput(token: string) returns (mark: int)
    requires forall i :: 0 <= i < |token| ==> token[i] != '\0'
    ensures mark == 0 <==> IsZero(token)
    ensures mark == 1 <==> IsOne(token)
    ensures mark == -1 <==> !IsZero(token) && !IsOne(token)
    ensures mark == Run(token, 0, 0)
  {
    var state, i := 0, 0;
    while true
      invariant 0 <= state <= 2 && i <= |token|
      invariant state == 0 ==> i == 0
      invariant Run(token, state, i) == Run(token, 0, 0)
      invariant state == 1 ==> 1 <= i && AllZeros(token[..i])
      invariant state == 2 ==> 1 <= i && token[i - 1] == '1' && AllZeros(token[..i - 1])
      decreases |token| - i
    {
      var c := Char(token, i);
      if state == 0 {
        if c == '0' {
          state, i := 1, i + 1;
          continue;
        }
        if c == '1' {
          state, i := 2, i + 1;
          assert token[..i - 1] == [];
          continue;
        }
        mark := -1;
        break;
      }
      if state == 1 {
        if c == '0' {
          assert token[..i + 1] == token[..i] + [c];
          i := i + 1;
          continue;
        }
        if c == '1' {
          state, i := 2, i + 1;
          continue;
        }
        if c == '\0' {
          assert token[..i] == token;
          mark := 0;
          break;
        }
        mark := -1;
        assert token[i] == c;
        break;
      }
      if c == '\0' {
        assert token[..i] == token;
        mark := 1;
        break;
      }
      mark := -1;
      assert token[i] == c;
      break;
    }
  }

  /**
    The automaton as written, from whatever state and index the
    uninitialised locals start with (one of the three states, an index
    inside the token). Any other start state would loop forever.
   */
  function Run(s: string, state: int, i: nat): (mark: int)
    requires 0 <= state <= 2 && i <= |s|
    ensures -1 <= mark <= 1
    ensures mark == 0 ==> state != 2
    decreases |s| - i
  {
    var c := Char(s, i);
    if state == 0 then
      if c == '0' && i < |s| then Run(s, 1, i + 1)
      else if c == '1' && i < |s| then Run(s, 2, i + 1)
      else -1
    else if state == 1 then
      if c == '0' && i < |s| then Run(s, 1, i + 1)
      else if c == '1' && i < |s| then Run(s, 2, i + 1)
      else if c == '\0' then 0
      else -1
    else if c == '\0' then 1
    else -1
  }

  /** Started in state 1 or 2 instead of 0, the automaton accepts the empty token, which is neither 0 nor 1. */
  lemma UninitialisedStart()
    ensures !IsZero("") && !IsOne("")
    ensures Run("", 1, 0) == 0 && Run("", 2, 0) == 1 && Run("", 0, 0) == -1
  {
  }
}
