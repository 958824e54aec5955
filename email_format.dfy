/** The e-mail pattern /^[^\s@]+@[^\s@]+\.[^\s@]+$/, which the user schema's validator and the
    signup form's validateEmail both test. */
module EmailFormat {
  import opened Js

  /** A character of the class [^\s@]. */
  predicate Plain(c: char) {
    !IsWhitespace(c) && c != '@'
  }

  /** Every character other than the one at a is in [^\s@]. */
  predicate PlainExcept(s: string, a: int) {
    forall i :: 0 <= i < |s| && i != a ==> Plain(s[i])
  }

  /** The pattern, read as a statement about positions: an '@' at a and a '.' at d cut s into three
      non-empty runs of [^\s@] (the '.' itself is in [^\s@] too, so any '.' of the domain may serve). */
  predicate Matches(s: string) {
    exists a, d | 0 < a && a + 1 < d < |s| - 1 :: s[a] == '@' && s[d] == '.' && PlainExcept(s, a)
  }

  function CountOf(s: string, c: char): nat {
    if s == [] then 0 else (if s[0] == c then 1 else 0) + CountOf(s[1..], c)
  }

  /** The index of the first c in s, or |s| when there is none. */
  function FirstIndex(s: string, c: char): (r: nat)
    ensures r <= |s|
    ensures r < |s| ==> s[r] == c
    ensures forall i :: 0 <= i < r ==> s[i] != c
  {
    if s == [] then 0 else if s[0] == c then 0 else 1 + FirstIndex(s[1..], c)
  }

  /** A '.' in the domain that is neither its first nor its last character. */
  predicate HasInnerDot(domain: string) {
    exists k | 0 < k < |domain| - 1 :: domain[k] == '.'
  }

  /** The same pattern told as the form's rules: no whitespace, exactly one '@', a non-empty local
      part, and a '.' inside the domain. */
  predicate Shape(s: string) {
    && NoWhitespace(s)
    && CountOf(s, '@') == 1
    && var a := FirstIndex(s, '@');
       0 < a < |s| && HasInnerDot(s[a + 1..])
  }

  lemma {:induction false} CountZero(s: string, c: char)
    requires forall i :: 0 <= i < |s| ==> s[i] != c
    ensures CountOf(s, c) == 0
  {
    if s != [] {
      CountZero(s[1..], c);
    }
  }

  lemma {:induction false} CountPositive(s: string, c: char, i: nat)
    requires i < |s| && s[i] == c
    ensures CountOf(s, c) >= 1
  {
    if i > 0 {
      CountPositive(s[1..], c, i - 1);
    }
  }

  lemma {:induction false} CountTwo(s: string, c: char, i: nat, j: nat)
    requires i < j < |s| && s[i] == c && s[j] == c
    ensures CountOf(s, c) >= 2
  {
    if i == 0 {
      CountPositive(s[1..], c, j - 1);
    } else {
      CountTwo(s[1..], c, i - 1, j - 1);
    }
  }

  lemma {:induction false} CountSingle(s: string, c: char, a: nat)
    requires a < |s| && s[a] == c
    requires forall i :: 0 <= i < |s| && i != a ==> s[i] != c
    ensures CountOf(s, c) == 1 && FirstIndex(s, c) == a
  {
    if a == 0 {
      CountZero(s[1..], c);
    } else {
      CountSingle(s[1..], c, a - 1);
    }
  }

  /** The pattern holds exactly when the form's rules do. */
  lemma MatchesIffShape(s: string)
    ensures Matches(s) <==> Shape(s)
  {
    if Matches(s) {
      var a, d :| 0 < a && a + 1 < d < |s| - 1 && s[a] == '@' && s[d] == '.' && PlainExcept(s, a);
      CountSingle(s, '@', a);
      var dom := s[a + 1..];
      assert dom[d - a - 1] == '.';
      assert HasInnerDot(dom);
    }
    if Shape(s) {
      var a := FirstIndex(s, '@');
      var dom := s[a + 1..];
      var k :| 0 < k < |dom| - 1 && dom[k] == '.';
      forall i | 0 <= i < |s| && i != a
        ensures Plain(s[i])
      {
        if s[i] == '@' {
          if i < a {
          } else {
            CountTwo(s, '@', a, i);
          }
        }
      }
      assert s[a + 1 + k] == '.';
    }
  }

  /** Every match has no whitespace and exactly one '@', at FirstIndex. */
  lemma MatchesAt(s: string) returns (a: nat)
    requires Matches(s)
    ensures NoWhitespace(s) && 0 < a < |s| && s[a] == '@' && a == FirstIndex(s, '@')
    ensures forall i :: 0 <= i < |s| && i != a ==> s[i] != '@'
  {
    MatchesIffShape(s);
    a := FirstIndex(s, '@');
    forall i | 0 <= i < |s| && i != a
      ensures s[i] != '@'
    {
      if s[i] == '@' && i > a {
        CountTwo(s, '@', a, i);
      }
    }
  }
}
