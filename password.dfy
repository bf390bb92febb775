/** Password strength rules (`backend/src/utils/password.utils.js`). The five
    regular expressions are character-class searches over ASCII ranges. */
module PasswordPolicy {
  import opened Common

  predicate IsUpper(c: char) { 'A' <= c <= 'Z' }
  predicate IsLower(c: char) { 'a' <= c <= 'z' }
  /** `[^A-Za-z0-9]`: anything outside the ASCII letters and digits. */
  predicate IsSpecial(c: char) { !IsUpper(c) && !IsLower(c) && !IsDigit(c) }

  predicate HasUpper(s: string) { exists i :: 0 <= i < |s| && IsUpper(s[i]) }
  predicate HasLower(s: string) { exists i :: 0 <= i < |s| && IsLower(s[i]) }
  predicate HasDigit(s: string) { exists i :: 0 <= i < |s| && IsDigit(s[i]) }
  predicate HasSpecial(s: string) { exists i :: 0 <= i < |s| && IsSpecial(s[i]) }

  /** What every policy in the system accepts: at least 8 characters and one
      of each class. */
  predicate Acceptable(s: string) {
    |s| >= 8 && HasUpper(s) && HasLower(s) && HasDigit(s) && HasSpecial(s)
  }

  /** The five rules, in the order they are checked. */
  datatype Rule = Length | Upper | Lower | Digit | Special

  const ORDER := [Length, Upper, Lower, Digit, Special]

  function Message(rule: Rule): string {
    match rule
    case Length => "Mínimo 8 caracteres"
    case Upper => "Debe incluir al menos una mayúscula"
    case Lower => "Debe incluir al menos una minúscula"
    case Digit => "Debe incluir al menos un número"
    case Special => "Debe incluir al menos un carácter especial"
  }

  /** Different rules have different messages. */
  lemma MessageInjective(a: Rule, b: Rule)
    requires a != b
    ensures Message(a) != Message(b)
  {
    if (a == Upper && b == Lower) || (a == Lower && b == Upper) {
      assert Message(a)[27] != Message(b)[27];
    } else {
      assert |Message(a)| != |Message(b)|;
    }
  }

  /** The position of a rule in the checking order. */
  function Rank(rule: Rule): nat {
    match rule
    case Length => 0
    case Upper => 1
    case Lower => 2
    case Digit => 3
    case Special => 4
  }

  /** Rules listed strictly in checking order (so also without repeats). */
  predicate InOrder(rules: seq<Rule>) {
    forall i, j :: 0 <= i < j < |rules| ==> Rank(rules[i]) < Rank(rules[j])
  }

  datatype Strength = Strength(valid: bool, errors: seq<string>)

  /** The text the regular expressions see: a missing password is tested as
      the string "undefined". */
  function Tested(password: Option<string>): string {
    if password.None? then "undefined" else password.value
  }

  /** Whether `password` breaks `rule`. */
  predicate Violated(password: Option<string>, rule: Rule) {
    var s := Tested(password);
    match rule
    case Length => password.None? || |password.value| < 8
    case Upper => !HasUpper(s)
    case Lower => !HasLower(s)
    case Digit => !HasDigit(s)
    case Special => !HasSpecial(s)
  }

  /** The entries of `rules` that `broken` selects, in their original order. */
  function Filter(broken: Rule -> bool, rules: seq<Rule>): (r: seq<Rule>)
    ensures |r| <= |rules|
    ensures forall x :: x in r <==> x in rules && broken(x)
  {
    if rules == [] then []
    else (if broken(rules[0]) then [rules[0]] else []) + Filter(broken, rules[1..])
  }

  lemma InOrderTail(rules: seq<Rule>)
    requires InOrder(rules) && rules != []
    ensures InOrder(rules[1..])
    ensures forall y :: y in rules[1..] ==> Rank(rules[0]) < Rank(y)
  {
    forall y | y in rules[1..] ensures Rank(rules[0]) < Rank(y) {
      var k :| 0 <= k < |rules[1..]| && rules[1..][k] == y;
      assert y == rules[k + 1];
    }
  }

  lemma InOrderCons(x: Rule, rest: seq<Rule>)
    requires InOrder(rest) && forall y :: y in rest ==> Rank(x) < Rank(y)
    ensures InOrder([x] + rest)
  {
    var r := [x] + rest;
    forall i, j | 0 <= i < j < |r| ensures Rank(r[i]) < Rank(r[j]) {
      assert r[j] == rest[j - 1] && r[j] in rest;
      if i > 0 {
        assert r[i] == rest[i - 1];
      }
    }
  }

  /** Filtering keeps the checking order. */
  lemma {:induction false} FilterInOrder(broken: Rule -> bool, rules: seq<Rule>)
    requires InOrder(rules)
    ensures InOrder(Filter(broken, rules))
  {
    if rules != [] {
      InOrderTail(rules);
      FilterInOrder(broken, rules[1..]);
      if broken(rules[0]) {
        InOrderCons(rules[0], Filter(broken, rules[1..]));
      } else {
        assert Filter(broken, rules) == [] + Filter(broken, rules[1..]);
      }
    }
  }

  /** The broken rules, in rule order. */
  function FailedRules(password: Option<string>): (rules: seq<Rule>)
    ensures |rules| <= 5 && InOrder(rules)
    ensures forall rule :: rule in rules <==> Violated(password, rule)
  {
    var broken := rule => Violated(password, rule);
    SelectFromOrder(broken);
    Filter(broken, ORDER)
  }

  /** Filtering the full rule list keeps exactly the selected rules, in order. */
  lemma SelectFromOrder(broken: Rule -> bool)
    ensures forall rule :: rule in Filter(broken, ORDER) <==> broken(rule)
    ensures |Filter(broken, ORDER)| <= 5 && InOrder(Filter(broken, ORDER))
  {
    forall rule ensures rule in ORDER {
      assert ORDER[Rank(rule)] == rule;
    }
    assert InOrder(ORDER);
    FilterInOrder(broken, ORDER);
  }

  function Messages(rules: seq<Rule>): (ms: seq<string>)
    ensures |ms| == |rules|
    ensures forall i :: 0 <= i < |rules| ==> ms[i] == Message(rules[i])
  {
    if rules == [] then [] else [Message(rules[0])] + Messages(rules[1..])
  }

  /** A rule's message is listed exactly when the rule is. */
  lemma MessagesMembers(rules: seq<Rule>)
    ensures forall rule :: Message(rule) in Messages(rules) <==> rule in rules
  {
    var errors := Messages(rules);
    forall rule ensures Message(rule) in errors <==> rule in rules {
      if Message(rule) in errors {
        var i :| 0 <= i < |errors| && errors[i] == Message(rule);
        if rules[i] != rule { MessageInjective(rules[i], rule); }
      }
      if rule in rules {
        var i :| 0 <= i < |rules| && rules[i] == rule;
        assert errors[i] == Message(rule);
      }
    }
  }

  lemma EmptyIffNoRule(rules: seq<Rule>)
    ensures rules == [] <==> Length !in rules && Upper !in rules && Lower !in rules
                             && Digit !in rules && Special !in rules
  {
    if rules != [] {
      var r := rules[0];
      assert r in rules;
      assert r == Length || r == Upper || r == Lower || r == Digit || r == Special by {
        match r
        case Length =>
        case Upper =>
        case Lower =>
        case Digit =>
        case Special =>
      }
    }
  }

  /** A password is acceptable exactly when it breaks no rule. */
  lemma AcceptableIffNoRuleBroken(password: Option<string>)
    ensures (password.Some? && Acceptable(password.value)) <==>
            !Violated(password, Length) && !Violated(password, Upper) && !Violated(password, Lower)
            && !Violated(password, Digit) && !Violated(password, Special)
  {
  }

  /** `validatePasswordStrength(password)`: one message per broken rule, in
      rule order; valid exactly when there is none, which is exactly when the
      password is acceptable. */
  function ValidatePasswordStrength(password: Option<string>): (r: Strength)
    ensures r.valid <==> r.errors == []
    ensures |r.errors| <= 5
  {
    var errors := Messages(FailedRules(password));
    Strength(|errors| == 0, errors)
  }

  /** A password passes exactly when it is acceptable. */
  lemma StrengthAccepts(password: Option<string>)
    ensures ValidatePasswordStrength(password).valid <==> password.Some? && Acceptable(password.value)
  {
    AcceptableIffNoRuleBroken(password);
    EmptyIffNoRule(FailedRules(password));
  }

  /** The messages listed are exactly those of the broken rules. */
  lemma StrengthMessages(password: Option<string>)
    ensures forall rule :: Message(rule) in ValidatePasswordStrength(password).errors <==> Violated(password, rule)
  {
    MessagesMembers(FailedRules(password));
  }

  /** The messages are listed in rule order. */
  lemma StrengthInOrder(password: Option<string>)
    ensures exists rules :: InOrder(rules) && ValidatePasswordStrength(password).errors == Messages(rules)
  {
    var rules := FailedRules(password);
    assert InOrder(rules) && ValidatePasswordStrength(password).errors == Messages(rules);
  }

  /** A missing password breaks four rules: the text tested, "undefined",
      has lower-case letters. */
  lemma MissingPassword()
    ensures forall rule :: Message(rule) in ValidatePasswordStrength(None).errors <==> rule != Lower
  {
    StrengthMessages(None);
    var s := Tested(None);
    assert IsLower(s[0]);
    assert !HasUpper(s) && !HasDigit(s) && !HasSpecial(s) by {
      forall i | 0 <= i < |s| ensures !IsUpper(s[i]) && !IsDigit(s[i]) && IsLower(s[i]) {}
    }
  }

  /** An accented letter is special, not upper or lower case. */
  lemma AccentedLetterIsSpecial(s: string, i: nat)
    requires i < |s| && (s[i] == 'á' || s[i] == 'Ñ' || s[i] == 'é')
    ensures HasSpecial(s) && !IsUpper(s[i]) && !IsLower(s[i])
  {
  }
}
