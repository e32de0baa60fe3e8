/** The decision part of `AuthSystem.validateField` and `isValidEmail` in
    public/javascripts/app.js: a value is trimmed, then one else-if chain picks
    at most one message. Showing and clearing the message on the page is left
    to the DOM and not modelled. */
module FieldValidation {
  import opened JsBuiltins

  datatype FieldResult = Valid | Invalid(message: string)

  const RequiredMessage := "This field is required"
  const EmailMessage := "Please enter a valid email address"
  const PasswordMessage := "Password must be at least 6 characters long"
  const AgeMessage := "Please enter a valid age (13-120)"

  /** A run of `[^\s@]`: neither whitespace nor '@'. */
  ghost predicate Plain(t: string) {
    forall k :: 0 <= k < |t| ==> !IsWhitespace(t[k]) && t[k] != '@'
  }

  /** `s` is `L@M.R` with L, M and R non-empty runs of `[^\s@]`, the '@' at
      `at` and the '.' at `dot`. */
  ghost predicate EmailShape(s: string, at: int, dot: int) {
    && 0 < at && at + 1 < dot && dot + 1 < |s|
    && s[at] == '@' && s[dot] == '.'
    && Plain(s[..at]) && Plain(s[at + 1..dot]) && Plain(s[dot + 1..])
  }

  /** What `/^[^\s@]+@[^\s@]+\.[^\s@]+$/` accepts. */
  ghost predicate AnchoredEmail(s: string) {
    exists at, dot :: EmailShape(s, at, dot)
  }

  /** `isValidEmail`: no whitespace anywhere, exactly one '@' and it is not
      first, and after it a '.' with at least one character on each side. */
  function IsValidEmail(s: string): (b: bool)
    ensures b <==> AnchoredEmail(s)
  {
    var b :=
      && (forall k | 0 <= k < |s| :: !IsWhitespace(s[k]))
      && exists at | 0 < at < |s| ::
           && s[at] == '@'
           && (forall k | 0 <= k < |s| && k != at :: s[k] != '@')
           && exists dot | at + 1 < dot < |s| - 1 :: s[dot] == '.';
    assert b ==> AnchoredEmail(s) by {
      if b {
        var at :| 0 < at < |s| && s[at] == '@' && (forall k | 0 <= k < |s| && k != at :: s[k] != '@')
                  && exists dot | at + 1 < dot < |s| - 1 :: s[dot] == '.';
        var dot :| at + 1 < dot < |s| - 1 && s[dot] == '.';
        ShapeFromChars(s, at, dot);
      }
    }
    assert AnchoredEmail(s) ==> b by {
      if AnchoredEmail(s) {
        var at, dot :| EmailShape(s, at, dot);
        CharsFromShape(s, at, dot);
      }
    }
    b
  }

  lemma ShapeFromChars(s: string, at: int, dot: int)
    requires forall k :: 0 <= k < |s| ==> !IsWhitespace(s[k])
    requires 0 < at && at + 1 < dot < |s| - 1 && s[at] == '@' && s[dot] == '.'
    requires forall k :: 0 <= k < |s| && k != at ==> s[k] != '@'
    ensures EmailShape(s, at, dot)
  {
    var left, middle, right := s[..at], s[at + 1..dot], s[dot + 1..];
    assert forall k :: 0 <= k < |left| ==> left[k] == s[k];
    assert forall k :: 0 <= k < |middle| ==> middle[k] == s[at + 1 + k];
    assert forall k :: 0 <= k < |right| ==> right[k] == s[dot + 1 + k];
  }

  lemma CharsFromShape(s: string, at: int, dot: int)
    requires EmailShape(s, at, dot)
    ensures forall k :: 0 <= k < |s| ==> !IsWhitespace(s[k]) && (k != at ==> s[k] != '@')
  {
    forall k | 0 <= k < |s| ensures !IsWhitespace(s[k]) && (k != at ==> s[k] != '@') {
      if k < at {
        assert s[k] == s[..at][k];
      } else if at < k < dot {
        assert s[k] == s[at + 1..dot][k - at - 1];
      } else if dot < k {
        assert s[k] == s[dot + 1..][k - dot - 1];
      }
    }
  }

  /** `parseInt(value)` is a number outside 13..120 (NaN is not). */
  predicate AgeOutOfRange(v: string) {
    var n := ParseInt(v);
    n.Int? && (n.value < 13 || n.value > 120)
  }

  /** `validateField` on a field with the given raw value, `type` and `name`. */
  function ValidateField(raw: string, fieldType: string, name: string): (r: FieldResult)
    // blank wins over every other rule
    ensures AllWhitespace(raw) ==> r == Invalid(RequiredMessage)
    ensures r == Invalid(EmailMessage) <==>
      !AllWhitespace(raw) && fieldType == "email" && !AnchoredEmail(Trim(raw))
    ensures r == Invalid(PasswordMessage) <==>
      !AllWhitespace(raw) && fieldType == "password" && |Trim(raw)| < 6
    // the age rule is reached by every field that passed the rules above it
    ensures r == Invalid(AgeMessage) <==>
      && !AllWhitespace(raw)
      && (fieldType == "email" ==> AnchoredEmail(Trim(raw)))
      && (fieldType == "password" ==> |Trim(raw)| >= 6)
      && name == "age" && AgeOutOfRange(Trim(raw))
    ensures r.Valid? <==>
      && !AllWhitespace(raw)
      && (fieldType == "email" ==> AnchoredEmail(Trim(raw)))
      && (fieldType == "password" ==> |Trim(raw)| >= 6)
      && !(name == "age" && AgeOutOfRange(Trim(raw)))
    ensures r.Invalid? ==> r.message in {RequiredMessage, EmailMessage, PasswordMessage, AgeMessage}
  {
    var value := Trim(raw);
    if value == [] then Invalid(RequiredMessage)
    else if fieldType == "email" && !IsValidEmail(value) then Invalid(EmailMessage)
    else if fieldType == "password" && |value| < 6 then Invalid(PasswordMessage)
    else if name == "age" && AgeOutOfRange(value) then Invalid(AgeMessage)
    else Valid
  }

  /** A non-blank field that is neither of email nor of password type and is
      not named "age" always passes. */
  lemma OrdinaryFieldValid(raw: string, fieldType: string, name: string)
    requires !AllWhitespace(raw)
    requires fieldType != "email" && fieldType != "password" && name != "age"
    ensures ValidateField(raw, fieldType, name) == Valid
  {
  }

  /** An age written as a plain integer passes exactly inside 13..120. */
  lemma AgeRange(n: int, tail: string, fieldType: string)
    requires fieldType != "email" && fieldType != "password"
    requires tail == [] || (!IsDigit(tail[0]) && !IsWhitespace(tail[|tail| - 1]))
    requires n == 0 && tail != [] ==> tail[0] != 'x' && tail[0] != 'X'
    ensures ValidateField(ShowInt(n) + tail, fieldType, "age") == if 13 <= n <= 120 then Valid else Invalid(AgeMessage)
  {
    var s := ShowInt(n) + tail;
    assert !AllWhitespace(s) && Trim(s) == s by {
      ShowIntEnds(n);
      assert s[0] == ShowInt(n)[0];
      assert tail == [] ==> s[|s| - 1] == ShowInt(n)[|ShowInt(n)| - 1];
      assert tail != [] ==> s[|s| - 1] == tail[|tail| - 1];
      TrimUnpadded(s);
    }
    ParseIntShowPrefix(n, tail);
    AgeRule(s, fieldType, n);
  }

  /** The age rule on its own: with the value's leading number `n`, a field
      that is not of email or password type passes exactly inside 13..120. */
  lemma AgeRule(raw: string, fieldType: string, n: int)
    requires fieldType != "email" && fieldType != "password"
    requires !AllWhitespace(raw) && ParseInt(Trim(raw)) == Int(n)
    ensures ValidateField(raw, fieldType, "age") == if 13 <= n <= 120 then Valid else Invalid(AgeMessage)
  {
  }

  /** A value that does not start with a digit or a sign parses to NaN, and NaN
      is never out of range: the age rule lets it through. */
  lemma AgeNonNumeric(raw: string, fieldType: string)
    requires fieldType != "email" && fieldType != "password"
    requires !AllWhitespace(raw)
    requires var v := Trim(raw); !IsDigit(v[0]) && v[0] != '-' && v[0] != '+'
    ensures ValidateField(raw, fieldType, "age") == Valid
  {
    var v := Trim(raw);
    assert LeadingSpace(v) == 0;
    ParseIntNonNumeric(v);
  }

  /** Because the chain is one else-if, an email-typed field named "age" whose
      value is a well-formed address starting with a number still meets the
      age rule ("5@b.co" is refused as an age). */
  lemma EmailFieldNamedAge(n: int, rest: string)
    requires AnchoredEmail(ShowInt(n) + rest)
    requires rest != [] && rest[0] == '@'
    ensures ValidateField(ShowInt(n) + rest, "email", "age") == if 13 <= n <= 120 then Valid else Invalid(AgeMessage)
  {
    var s := ShowInt(n) + rest;
    assert !AllWhitespace(s) && Trim(s) == s by {
      var at, dot :| EmailShape(s, at, dot);
      CharsFromShape(s, at, dot);
      TrimUnpadded(s);
    }
    ParseIntShowPrefix(n, rest);
  }
}
