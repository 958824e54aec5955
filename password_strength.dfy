/** Password feedback and strength labels. The zxcvbn estimate itself (its score and its warning) is
    not modelled: callers pass it in. */
module PasswordStrength {
  import opened Js

  /** The five explicit rules, in the order their sentences are appended. */
  datatype Rule = MinLength | Uppercase | Lowercase | Digit | Special

  const Rules: seq<Rule> := [MinLength, Uppercase, Lowercase, Digit, Special]

  function Rank(rule: Rule): nat {
    match rule
    case MinLength => 0
    case Uppercase => 1
    case Lowercase => 2
    case Digit => 3
    case Special => 4
  }

  predicate IsAsciiAlnum(c: char) {
    'A' <= c <= 'Z' || 'a' <= c <= 'z' || '0' <= c <= '9'
  }

  /** Whether the password meets the rule: the length, and the tests /[A-Z]/, /[a-z]/, /[0-9]/ and
      /[^A-Za-z0-9]/. */
  predicate Satisfied(password: string, rule: Rule) {
    match rule
    case MinLength => |password| >= 12
    case Uppercase => exists i | 0 <= i < |password| :: 'A' <= password[i] <= 'Z'
    case Lowercase => exists i | 0 <= i < |password| :: 'a' <= password[i] <= 'z'
    case Digit => exists i | 0 <= i < |password| :: '0' <= password[i] <= '9'
    case Special => exists i | 0 <= i < |password| :: !IsAsciiAlnum(password[i])
  }

  /** The sentence appended for an unmet rule. Each is written as a space, a leading word and the
      rest, which together spell the source's literal; the split lets the verifier see the first two
      characters of the longer sentences. */
  function Sentence(rule: Rule): string {
    match rule
    case MinLength => " " + "Password" + " should be at least 12 characters long."
    case Uppercase => " " + "Include" + " at least one uppercase letter."
    case Lowercase => " " + "Include" + " at least one lowercase letter."
    case Digit => " " + "Include" + " at least one number."
    case Special => " " + "Include" + " at least one special character."
  }

  /** The rules of rs that the password does not meet, in the order of rs. */
  function Unmet(password: string, rs: seq<Rule>): seq<Rule> {
    if rs == [] then []
    else (if Satisfied(password, rs[0]) then [] else [rs[0]]) + Unmet(password, rs[1..])
  }

  function Sentences(rs: seq<Rule>): string {
    if rs == [] then "" else Sentence(rs[0]) + Sentences(rs[1..])
  }

  /** getPasswordFeedback, as a specification: the zxcvbn warning followed by the sentence of every
      unmet rule in the fixed order, trimmed. */
  function Feedback(password: string, warning: string): string {
    Trim(warning + Sentences(Unmet(password, Rules)))
  }

  /** getPasswordFeedback as the source builds it: the warning, then one conditional append per rule,
      then a trim. The ghost list holds the rules checked so far. */
  method GetPasswordFeedback(password: string, warning: string) returns (feedback: string)
    ensures feedback == Feedback(password, warning)
  {
    feedback := warning;
    ghost var checked: seq<Rule> := [];
    assert feedback == warning + Sentences(Unmet(password, checked));
    feedback := AppendIfUnmet(password, feedback, warning, checked, MinLength);
    checked := checked + [MinLength];
    feedback := AppendIfUnmet(password, feedback, warning, checked, Uppercase);
    checked := checked + [Uppercase];
    feedback := AppendIfUnmet(password, feedback, warning, checked, Lowercase);
    checked := checked + [Lowercase];
    feedback := AppendIfUnmet(password, feedback, warning, checked, Digit);
    checked := checked + [Digit];
    feedback := AppendIfUnmet(password, feedback, warning, checked, Special);
    checked := checked + [Special];
    assert checked == Rules;
    feedback := Trim(feedback);
  }

  /** One conditional append of the builder: the rule's sentence is added when the password misses
      the rule, which extends the feedback over the rules checked so far by that rule. */
  method AppendIfUnmet(password: string, feedback: string, ghost warning: string, ghost checked: seq<Rule>,
                       rule: Rule) returns (r: string)
    requires feedback == warning + Sentences(Unmet(password, checked))
    ensures r == warning + Sentences(Unmet(password, checked + [rule]))
  {
    if !Satisfied(password, rule) {
      AdvanceUnmet(password, warning, checked, rule);
      r := feedback + Sentence(rule);
    } else {
      AdvanceMet(password, checked, rule);
      r := feedback;
    }
  }

  /** One step of the builder, for an unmet rule: appending its sentence extends the feedback over
      the rules checked so far to the feedback over one rule more. */
  lemma AdvanceUnmet(password: string, warning: string, checked: seq<Rule>, rule: Rule)
    requires !Satisfied(password, rule)
    ensures warning + Sentences(Unmet(password, checked)) + Sentence(rule)
         == warning + Sentences(Unmet(password, checked + [rule]))
  {
    var before := Unmet(password, checked);
    UnmetStep(password, checked, rule);
    assert Unmet(password, checked + [rule]) == before + [rule];
    SentencesAppend(before, rule);
  }

  /** One step of the builder, for a met rule: the feedback stays as it is. */
  lemma AdvanceMet(password: string, checked: seq<Rule>, rule: Rule)
    requires Satisfied(password, rule)
    ensures Unmet(password, checked + [rule]) == Unmet(password, checked)
  {
    UnmetStep(password, checked, rule);
    assert Unmet(password, checked) + [] == Unmet(password, checked);
  }

  lemma {:induction false} SentencesAppend(rs: seq<Rule>, rule: Rule)
    ensures Sentences(rs + [rule]) == Sentences(rs) + Sentence(rule)
  {
    if rs != [] {
      assert (rs + [rule])[1..] == rs[1..] + [rule];
      SentencesAppend(rs[1..], rule);
    }
  }

  lemma {:induction false} UnmetStep(password: string, rs: seq<Rule>, rule: Rule)
    ensures Unmet(password, rs + [rule])
         == Unmet(password, rs) + (if Satisfied(password, rule) then [] else [rule])
  {
    if rs != [] {
      assert (rs + [rule])[1..] == rs[1..] + [rule];
      UnmetStep(password, rs[1..], rule);
    } else {
      assert [rule][1..] == [];
    }
  }

  /** A rule's sentence is in the feedback list exactly when the password misses the rule. */
  lemma {:induction false} UnmetIff(password: string, rs: seq<Rule>, rule: Rule)
    ensures rule in Unmet(password, rs) <==> rule in rs && !Satisfied(password, rule)
  {
    if rs != [] {
      UnmetIff(password, rs[1..], rule);
      assert rs == [rs[0]] + rs[1..];
    }
  }

  predicate Ordered(rs: seq<Rule>) {
    forall i, j :: 0 <= i < j < |rs| ==> Rank(rs[i]) < Rank(rs[j])
  }

  /** The sentences keep the fixed order length, upper, lower, digit, special. */
  lemma {:induction false} UnmetOrdered(password: string, rs: seq<Rule>)
    requires Ordered(rs)
    ensures Ordered(Unmet(password, rs))
  {
    if rs != [] {
      UnmetOrdered(password, rs[1..]);
      var u := Unmet(password, rs);
      var tail := Unmet(password, rs[1..]);
      if !Satisfied(password, rs[0]) {
        assert u == [rs[0]] + tail;
        forall i, j | 0 <= i < j < |u|
          ensures Rank(u[i]) < Rank(u[j])
        {
          assert u[j] == tail[j - 1];
          if i > 0 {
            assert u[i] == tail[i - 1];
          } else {
            UnmetIff(password, rs[1..], tail[j - 1]);
            var k :| 0 <= k < |rs[1..]| && rs[1..][k] == tail[j - 1];
            assert rs[k + 1] == tail[j - 1];
          }
        }
      } else {
        assert u == tail;
      }
    }
  }

  /** The five fixed rules, in their order. */
  lemma RulesOrdered()
    ensures Ordered(Rules)
  {
  }

  /** The sentences of the feedback getPasswordFeedback builds keep the order length, upper, lower,
      digit, special. */
  lemma FeedbackOrdered(password: string)
    ensures Ordered(Unmet(password, Rules))
  {
    RulesOrdered();
    UnmetOrdered(password, Rules);
  }

  lemma SentenceShape(rule: Rule)
    ensures var s := Sentence(rule); |s| >= 2 && s[0] == ' ' && !IsWhitespace(s[1]) && s[|s| - 1] == '.'
  {
    var word := if rule == MinLength then "Password" else "Include";
    assert Sentence(rule)[1] == word[0];
  }

  lemma {:induction false} SentencesEnds(rs: seq<Rule>)
    requires rs != []
    ensures var s := Sentences(rs); |s| >= 2 && s[0] == ' ' && !IsWhitespace(s[1]) && s[|s| - 1] == '.'
  {
    var first := Sentence(rs[0]);
    var s := Sentences(rs);
    SentenceShape(rs[0]);
    assert s == first + Sentences(rs[1..]);
    assert s[1] == first[1];
    if rs[1..] != [] {
      SentencesEnds(rs[1..]);
      var rest := Sentences(rs[1..]);
      assert s[|s| - 1] == rest[|rest| - 1];
    } else {
      assert s == first;
    }
  }

  /** Without a zxcvbn warning: nothing when every rule is met, otherwise the sentences of the
      unmet rules with the leading space removed. */
  lemma FeedbackWithoutWarning(password: string)
    ensures (forall rule :: Satisfied(password, rule)) ==> Feedback(password, "") == ""
    ensures Unmet(password, Rules) != [] ==>
      Feedback(password, "") == Sentences(Unmet(password, Rules))[1..]
  {
    var u := Unmet(password, Rules);
    assert "" + Sentences(u) == Sentences(u);
    if forall rule :: Satisfied(password, rule) {
      if u != [] {
        UnmetIff(password, Rules, u[0]);
      }
    }
    if u != [] {
      var s := Sentences(u);
      SentencesEnds(u);
      assert TrimStart(s[1..]) == s[1..];
      assert TrimStart(s) == s[1..];
      assert TrimEnd(s[1..]) == s[1..];
    }
  }

  /** getPasswordStrengthText: a label for the scores 0 to 4, nothing (undefined) otherwise. */
  function StrengthText(score: int): Option<string> {
    match score
    case 0 => Some("Very Weak")
    case 1 => Some("Weak")
    case 2 => Some("Fair")
    case 3 => Some("Strong")
    case 4 => Some("Very Strong")
    case _ => None
  }

  /** Labels exist for 0..4 only, differ from one another, and the scores that pass the strength
      gate (3 and 4) are exactly those labelled Strong or Very Strong. */
  lemma StrengthTextLabels(a: int, b: int)
    ensures StrengthText(a).Some? <==> 0 <= a <= 4
    ensures StrengthText(a).Some? && StrengthText(a) == StrengthText(b) ==> a == b
    ensures 0 <= a <= 4 ==> (a >= 3 <==> StrengthText(a) in {Some("Strong"), Some("Very Strong")})
  {
  }
}
