// The support page's contact form: every field must be filled in and the email must look
// like an address before the message is sent and the form cleared.

module Support {
  import opened Text

  // ---- the email pattern ---------------------------------------------------------

  /** No '@' other than the one at `i`. */
  predicate OnlyAtSignAt(s: string, i: int)
  {
    forall j :: 0 <= j < |s| && s[j] == '@' ==> j == i
  }

  /** `/^[^\s@]+@[^\s@]+\.[^\s@]+$/`: no whitespace, a single '@' with something before it,
      and after it a '.' with something on both sides. */
  predicate EmailPattern(s: string)
  {
    NoSpace(s)
    && exists i, k :: 0 < i && i + 1 < k < |s| - 1 && s[i] == '@' && s[k] == '.' && OnlyAtSignAt(s, i)
  }

  /** A domain with a '.' that is neither its first nor its last character. */
  predicate DotInside(d: string)
  {
    |d| >= 3 && '.' in d[1..|d| - 1]
  }

  /** The pattern, checked from the first '@'. */
  predicate ValidEmail(s: string)
  {
    NoSpace(s) && '@' in s
    && var i := FirstIndex(s, '@');
       i > 0 && '@' !in s[i + 1..] && DotInside(s[i + 1..])
  }

  lemma ValidEmailIsPattern(s: string)
    ensures ValidEmail(s) <==> EmailPattern(s)
  {
    if ValidEmail(s) {
      ValidEmailFitsPattern(s);
    }
    if EmailPattern(s) {
      PatternIsValidEmail(s);
    }
  }

  lemma ValidEmailFitsPattern(s: string)
    requires ValidEmail(s)
    ensures EmailPattern(s)
  {
    var i := FirstIndex(s, '@');
    var d := s[i + 1..];
    var m := FirstIndex(d[1..|d| - 1], '.');
    var k := i + 2 + m;
    assert s[k] == d[1..|d| - 1][m];
    SingleAtSign(s, i);
    assert 0 < i && i + 1 < k < |s| - 1 && s[i] == '@' && s[k] == '.' && OnlyAtSignAt(s, i);
  }

  /** An '@' with none before it and none after it is the only one. */
  lemma SingleAtSign(s: string, i: int)
    requires 0 <= i < |s| && '@' !in s[..i] && '@' !in s[i + 1..]
    ensures OnlyAtSignAt(s, i)
  {
  }

  lemma PatternIsValidEmail(s: string)
    requires EmailPattern(s)
    ensures ValidEmail(s)
  {
    var i, k :| 0 < i && i + 1 < k < |s| - 1 && s[i] == '@' && s[k] == '.' && OnlyAtSignAt(s, i);
    assert s[i] in s;
    assert FirstIndex(s, '@') == i;
    var d := s[i + 1..];
    assert forall m :: 0 <= m < |d| ==> d[m] == s[i + 1 + m];
    assert d[1..|d| - 1][k - i - 2] == '.';
  }

  /** An address that fits the pattern is never blank. */
  lemma PatternIsNotBlank(s: string)
    ensures EmailPattern(s) ==> !AllSpace(s)
  {
    if EmailPattern(s) {
      var i, k :| 0 < i && i + 1 < k < |s| - 1 && s[i] == '@' && s[k] == '.' && OnlyAtSignAt(s, i);
      assert !IsSpace(s[i]);
    }
  }

  // ---- submitting ------------------------------------------------------------------

  datatype Outcome = MissingFields | InvalidEmail | Sent

  /** `handleSubmit`'s checks: a blank field stops it first, then an email off the pattern;
      the pattern is matched against the email as typed, not trimmed. */
  function Validate(name: string, email: string, message: string): (r: Outcome)
    ensures r == MissingFields <==> AllSpace(name) || AllSpace(email) || AllSpace(message)
    ensures r == InvalidEmail <==> !AllSpace(name) && !AllSpace(email) && !AllSpace(message) && !EmailPattern(email)
    ensures r == Sent <==> !AllSpace(name) && !AllSpace(message) && EmailPattern(email)
  {
    BlankIffAllSpace(name);
    BlankIffAllSpace(email);
    BlankIffAllSpace(message);
    ValidEmailIsPattern(email);
    PatternIsNotBlank(email);
    if Trim(name) == [] || Trim(email) == [] || Trim(message) == [] then MissingFields
    else if !ValidEmail(email) then InvalidEmail
    else Sent
  }

  /** A message is sent only with a name, a message and an email that fits the pattern, and
      an email that fits it is never the reason for a blank-field rejection. */
  lemma BlankCheckFirst(name: string, email: string, message: string)
    requires AllSpace(name) || AllSpace(message)
    ensures Validate(name, email, message) == MissingFields
  {
  }

  /** An address padded with a space passes the blank check and then fails the pattern. */
  lemma PaddedEmailRejected()
    ensures Validate("Ann", " ann@mail.com", "Hi") == InvalidEmail
  {
    var name, email, message := "Ann", " ann@mail.com", "Hi";
    assert !IsSpace(name[0]) && !IsSpace(message[0]) && !IsSpace(email[1]);
    assert IsSpace(email[0]);
    assert !NoSpace(email);
    assert !AllSpace(name) && !AllSpace(email) && !AllSpace(message) && !EmailPattern(email);
  }

  /** The form's fields. */
  class SupportForm {
    var name: string
    var email: string
    var message: string
    var isSubmitting: bool

    constructor ()
      ensures name == [] && email == [] && message == [] && !isSubmitting
    {
      name, email, message := [], [], [];
      isSubmitting := false;
    }

    /** `handleSubmit`: a rejection leaves the form as it was; a message sent clears the
        three fields and ends with the form no longer submitting. */
    method Submit() returns (outcome: Outcome)
      modifies this
      ensures outcome == Validate(old(name), old(email), old(message))
      ensures outcome != Sent ==>
        name == old(name) && email == old(email) && message == old(message) && isSubmitting == old(isSubmitting)
      ensures outcome == Sent ==> name == [] && email == [] && message == [] && !isSubmitting
    {
      outcome := Validate(name, email, message);
      if outcome != Sent {
        return;
      }
      isSubmitting := true;
      name, email, message := [], [], [];
      isSubmitting := false;
    }
  }

  /** Once a message is sent, submitting again is refused as blank. */
  method SubmitTwice(form: SupportForm) returns (first: Outcome, second: Outcome)
    modifies form
    ensures first == Sent ==> second == MissingFields
  {
    first := form.Submit();
    second := form.Submit();
  }
}
