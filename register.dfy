/**
 * The registration form's `validateForm`: five checks in a fixed order,
 * the first failing one reported with its own message.
 */
module Register {
  import opened JsText
  import opened Seqs

  // ---------------------------------------------------------------------
  // The email pattern `^[^\s@]+@[^\s@]+\.[^\s@]+$`

  /** A character of the class `[^\s@]`. */
  predicate IsEmailChar(c: char) {
    !IsJsSpace(c) && c != '@'
  }

  predicate AllEmailChars(s: string) {
    forall k :: 0 <= k < |s| ==> IsEmailChar(s[k])
  }

  /**
   * The pattern, read as a language: a non-empty run of class characters,
   * '@', a non-empty run, '.', and a non-empty run, filling the whole
   * string.
   */
  ghost predicate MatchesEmailPattern(e: string) {
    exists i, j :: 0 < i && i + 1 < j && j + 1 < |e| && e[i] == '@' && e[j] == '.'
      && AllEmailChars(e[..i]) && AllEmailChars(e[i + 1..j]) && AllEmailChars(e[j + 1..])
  }

  /** The position of the first `c` in `s`, or -1. */
  function IndexOf(s: string, c: char): (i: int)
    ensures -1 <= i < |s|
    ensures i == -1 <==> c !in s
    ensures i >= 0 ==> s[i] == c && c !in s[..i]
    decreases |s|
  {
    if s == [] then -1
    else if s[0] == c then 0
    else
      var k := IndexOf(s[1..], c);
      assert s == [s[0]] + s[1..];
      if k == -1 then -1
      else
        assert s[..k + 1] == [s[0]] + s[1..][..k];
        k + 1
  }

  /**
   * `emailRegex.test(email)`, decided in one pass: the first '@' ends a
   * non-empty local part, and the rest has at least three characters, no
   * '@' or white space, and a '.' that is neither its first nor its last.
   */
  function EmailMatches(e: string): bool {
    var at := IndexOf(e, '@');
    var domain := e[at + 1..];
    at >= 1 && AllEmailChars(e[..at]) && |domain| >= 3 && AllEmailChars(domain) && '.' in domain[1..|domain| - 1]
  }

  lemma DotIsEmailChar()
    ensures IsEmailChar('.')
  {
  }

  /** What the one-pass decision accepts matches the pattern. */
  lemma EmailMatchesIsSound(e: string)
    requires EmailMatches(e)
    ensures MatchesEmailPattern(e)
  {
    var at := IndexOf(e, '@');
    var domain := e[at + 1..];
    var inner := domain[1..|domain| - 1];
    var m :| 0 <= m < |inner| && inner[m] == '.';
    var i, j := at, at + 2 + m;
    assert e[j] == '.';
    assert e[i + 1..j] == domain[..m + 1];
    assert e[j + 1..] == domain[m + 2..];
    assert AllEmailChars(e[i + 1..j]);
    assert AllEmailChars(e[j + 1..]);
  }

  /** An '@' preceded only by class characters is the first one. */
  lemma FirstAt(e: string, i: int)
    requires 0 <= i < |e| && e[i] == '@' && AllEmailChars(e[..i])
    ensures IndexOf(e, '@') == i
  {
  }

  /** Two runs of class characters joined by '.' are one run. */
  lemma JoinedByDot(before: string, after: string)
    requires AllEmailChars(before) && AllEmailChars(after)
    ensures AllEmailChars(before + ['.'] + after)
  {
    DotIsEmailChar();
    var joined := before + ['.'] + after;
    forall k | 0 <= k < |joined| ensures IsEmailChar(joined[k]) {
      if k < |before| {
        assert joined[k] == before[k];
      } else if k > |before| {
        assert joined[k] == after[k - |before| - 1];
      }
    }
  }

  /** An address split as the pattern demands, at '@' position `i` and '.' position `j`, is accepted. */
  lemma EmailMatchesAt(e: string, i: int, j: int)
    requires 0 < i && i + 1 < j && j + 1 < |e| && e[i] == '@' && e[j] == '.'
    requires AllEmailChars(e[..i]) && AllEmailChars(e[i + 1..j]) && AllEmailChars(e[j + 1..])
    ensures EmailMatches(e)
  {
    FirstAt(e, i);
    var before, after := e[i + 1..j], e[j + 1..];
    JoinedByDot(before, after);
    var domain := e[i + 1..];
    assert domain == before + ['.'] + after;
    var inner := domain[1..|domain| - 1];
    assert inner[|before| - 1] == '.';
  }

  /** What matches the pattern the one-pass decision accepts. */
  lemma EmailMatchesIsComplete(e: string)
    requires MatchesEmailPattern(e)
    ensures EmailMatches(e)
  {
    var i, j :| 0 < i && i + 1 < j && j + 1 < |e| && e[i] == '@' && e[j] == '.'
      && AllEmailChars(e[..i]) && AllEmailChars(e[i + 1..j]) && AllEmailChars(e[j + 1..]);
    EmailMatchesAt(e, i, j);
  }

  /** The one-pass decision is exactly the pattern, in both directions. */
  lemma EmailMatchesIsPattern(e: string)
    ensures EmailMatches(e) <==> MatchesEmailPattern(e)
  {
    if EmailMatches(e) {
      EmailMatchesIsSound(e);
    }
    if MatchesEmailPattern(e) {
      EmailMatchesIsComplete(e);
    }
  }

  /** A matching address holds exactly one '@' and no white space. */
  lemma EmailPatternHasOneAt(e: string)
    requires MatchesEmailPattern(e)
    ensures '@' in e
    ensures forall k :: 0 <= k < |e| && e[k] == '@' ==> k == IndexOf(e, '@')
    ensures forall k :: 0 <= k < |e| ==> !IsJsSpace(e[k])
  {
    EmailMatchesIsPattern(e);
    var at := IndexOf(e, '@');
    var domain := e[at + 1..];
    forall k | 0 <= k < |e| ensures !IsJsSpace(e[k]) && (e[k] == '@' ==> k == at) {
      if k < at {
        assert e[k] == e[..at][k];
      } else if k > at {
        assert e[k] == domain[k - at - 1];
      }
    }
  }

  // ---------------------------------------------------------------------
  // The phone check `/^\d{10,15}$/.test(phone.replace(/[^\d]/g, ''))`

  /** `phone.replace(/[^\d]/g, '')`: the digits of `phone`, in order. */
  function PhoneDigits(phone: string): (d: string)
    ensures AllDigits(d) && |d| <= |phone|
    ensures forall c :: c in d <==> c in phone && IsDigit(c)
    ensures IsSubsequence(d, phone)
    ensures |d| == |set k: nat | k < |phone| && IsDigit(phone[k])|
  {
    FilterLengthIsPositionCount(IsDigit, phone);
    assert Positions(IsDigit, phone) == set k: nat | k < |phone| && IsDigit(phone[k]);
    Filter(IsDigit, phone)
  }

  /** 10 to 15 digits once everything else is deleted. */
  predicate PhoneMatches(phone: string) {
    10 <= |PhoneDigits(phone)| <= 15
  }

  /** A formatting character (space, dash, bracket, '+') anywhere in the number changes nothing. */
  lemma FormattingIsIgnored(a: string, c: char, b: string)
    requires !IsDigit(c)
    ensures PhoneDigits(a + [c] + b) == PhoneDigits(a + b)
    ensures PhoneMatches(a + [c] + b) == PhoneMatches(a + b)
  {
    var withC := a + [c] + b;
    FilterConcat(IsDigit, a + [c], b);
    FilterConcat(IsDigit, a, [c]);
    FilterConcat(IsDigit, a, b);
    assert Filter(IsDigit, [c]) == [] by {
      assert [c][1..] == [];
    }
    assert Filter(IsDigit, a + [c]) == Filter(IsDigit, a);
  }

  // ---------------------------------------------------------------------
  // validateForm

  /** The six field values of the registration form. */
  datatype RegistrationForm = RegistrationForm(
    firstName: string, lastName: string, email: string, phone: string, password: string, confirmPassword: string)

  datatype Validation = Pass | Fail(message: string)

  const MsgEmpty := "Please fill in all fields"
  const MsgEmail := "Please enter a valid email address"
  const MsgPhone := "Please enter a valid phone number"
  const MsgLength := "Password must be at least 6 characters long"
  const MsgMismatch := "Passwords do not match"

  /** Every field has a value: an empty string is falsy. */
  predicate AllFilled(f: RegistrationForm) {
    f.firstName != "" && f.lastName != "" && f.email != "" && f.phone != "" && f.password != "" && f.confirmPassword != ""
  }

  /** `validateForm(...)`: the checks in order, stopping at the first failure. */
  function ValidateForm(f: RegistrationForm): (v: Validation)
    ensures v == Pass <==>
      AllFilled(f) && MatchesEmailPattern(f.email) && PhoneMatches(f.phone)
      && |f.password| >= 6 && f.password == f.confirmPassword
    ensures !AllFilled(f) ==> v == Fail(MsgEmpty)
    ensures AllFilled(f) && !MatchesEmailPattern(f.email) ==> v == Fail(MsgEmail)
    ensures AllFilled(f) && MatchesEmailPattern(f.email) && !PhoneMatches(f.phone) ==> v == Fail(MsgPhone)
    ensures AllFilled(f) && MatchesEmailPattern(f.email) && PhoneMatches(f.phone) && |f.password| < 6 ==>
      v == Fail(MsgLength)
    ensures (AllFilled(f) && MatchesEmailPattern(f.email) && PhoneMatches(f.phone) && |f.password| >= 6
             && f.password != f.confirmPassword) ==> v == Fail(MsgMismatch)
  {
    EmailMatchesIsPattern(f.email);
    if !AllFilled(f) then Fail(MsgEmpty)
    else if !EmailMatches(f.email) then Fail(MsgEmail)
    else if !PhoneMatches(f.phone) then Fail(MsgPhone)
    else if |f.password| < 6 then Fail(MsgLength)
    else if f.password != f.confirmPassword then Fail(MsgMismatch)
    else Pass
  }

  /** An empty field is reported as such, whatever else is wrong with the form. */
  lemma EmptyFieldWins(f: RegistrationForm)
    requires f.email == "" || f.password == ""
    ensures ValidateForm(f) == Fail(MsgEmpty)
  {
  }
}
