/** The password rule shared by the register and login pages:
    `/^(?=.*[a-z])(?=.*[A-Z])(?=.*\d)(?=.*[@$!%*?&])[A-Za-z\d@$!%*?&]{8,}$/`. */
module PasswordPolicy {
  import opened Js

  /** The four classes the lookaheads ask for. */
  datatype CharClass = Lower | Upper | Digit | Special

  predicate InClass(c: char, k: CharClass) {
    match k
    case Lower => 'a' <= c <= 'z'
    case Upper => 'A' <= c <= 'Z'
    case Digit => '0' <= c <= '9'
    case Special => c in "@$!%*?&"
  }

  /** `[A-Za-z\d@$!%*?&]`. */
  predicate Allowed(c: char) {
    InClass(c, Lower) || InClass(c, Upper) || InClass(c, Digit) || InClass(c, Special)
  }

  /** `(?=.*X)` at the start of the input: a character of class X that can be reached
      over characters `.` matches, i.e. anything but a line terminator. */
  ghost predicate Lookahead(s: string, k: CharClass) {
    exists i | 0 <= i < |s| :: InClass(s[i], k) && forall j | 0 <= j < i :: !IsLineTerminator(s[j])
  }

  /** What the regular expression accepts, clause by clause: the four lookaheads, then
      eight or more allowed characters running to the end of the input. */
  ghost predicate RegexMatches(s: string) {
    && Lookahead(s, Lower) && Lookahead(s, Upper) && Lookahead(s, Digit) && Lookahead(s, Special)
    && |s| >= 8 && forall i | 0 <= i < |s| :: Allowed(s[i])
  }

  predicate Has(s: string, k: CharClass) {
    exists i | 0 <= i < |s| :: InClass(s[i], k)
  }

  /** The classes met in one pass over a string, and whether every character is allowed. */
  datatype Seen = Seen(lower: bool, upper: bool, digit: bool, special: bool, allAllowed: bool)

  function Scan(s: string): (r: Seen)
    ensures r.lower == Has(s, Lower) && r.upper == Has(s, Upper)
    ensures r.digit == Has(s, Digit) && r.special == Has(s, Special)
    ensures r.allAllowed <==> forall i | 0 <= i < |s| :: Allowed(s[i])
  {
    if s == [] then Seen(false, false, false, false, true)
    else
      var init := s[..|s| - 1];
      var c := s[|s| - 1];
      var p := Scan(init);
      assert forall i | 0 <= i < |init| :: init[i] == s[i];
      Seen(p.lower || InClass(c, Lower), p.upper || InClass(c, Upper),
           p.digit || InClass(c, Digit), p.special || InClass(c, Special),
           p.allAllowed && Allowed(c))
  }

  /** `passwordRegex.test(password)`, computed in one pass; it agrees with the regular
      expression on every string. */
  function Accepts(password: string): (ok: bool)
    ensures ok <==> RegexMatches(password)
    ensures ok ==> |password| >= 8
    ensures ok ==> Has(password, Lower) && Has(password, Upper) && Has(password, Digit) && Has(password, Special)
  {
    var seen := Scan(password);
    RegexAsClasses(password);
    |password| >= 8 && seen.allAllowed && seen.lower && seen.upper && seen.digit && seen.special
  }

  /** Over allowed characters `.*` never stops early, so a lookahead finds a class
      exactly when the string contains it. */
  lemma LookaheadOverAllowed(s: string, k: CharClass)
    requires forall i | 0 <= i < |s| :: Allowed(s[i])
    ensures Lookahead(s, k) <==> Has(s, k)
  {
    if Has(s, k) {
      var i :| 0 <= i < |s| && InClass(s[i], k);
      forall j | 0 <= j < i
        ensures !IsLineTerminator(s[j])
      {
        AllowedIsNotTerminator(s[j]);
      }
    }
  }

  lemma AllowedIsNotTerminator(c: char)
    requires Allowed(c)
    ensures !IsLineTerminator(c)
  {
    if InClass(c, Special) {
      assert c in {'@', '$', '!', '%', '*', '?', '&'};
    }
  }

  /** The regular expression accepts a string exactly when it is eight or more allowed
      characters that include each of the four classes. */
  lemma RegexAsClasses(s: string)
    ensures RegexMatches(s) <==>
      && |s| >= 8 && (forall i | 0 <= i < |s| :: Allowed(s[i]))
      && Has(s, Lower) && Has(s, Upper) && Has(s, Digit) && Has(s, Special)
  {
    if forall i | 0 <= i < |s| :: Allowed(s[i]) {
      LookaheadOverAllowed(s, Lower);
      LookaheadOverAllowed(s, Upper);
      LookaheadOverAllowed(s, Digit);
      LookaheadOverAllowed(s, Special);
    }
  }

  /** A character outside the allowed set, such as a space, `#` or `-`, rejects the password. */
  lemma ForeignCharacterRejects(s: string, i: nat)
    requires i < |s| && !Allowed(s[i])
    ensures !Accepts(s)
  {
  }

  /** Eight characters covering the four classes are enough. */
  lemma ShortestAccepted()
    ensures Accepts("Abcdef1!")
  {
    var s := "Abcdef1!";
    assert InClass(s[1], Lower) && InClass(s[0], Upper) && InClass(s[6], Digit) && InClass(s[7], Special);
    assert forall i | 0 <= i < |s| :: Allowed(s[i]);
    RegexAsClasses(s);
    assert RegexMatches(s);
  }
}
