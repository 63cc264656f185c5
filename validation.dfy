/** The form's local validation: five checks in a fixed order, the first one
    that fails decides the message, and a form that passes all five is valid.
    The two regular expressions of the component are written out as matchers
    over strings, each proved equal to a declarative description of the strings
    it accepts. */
module Validation {
  import opened RegistrationForm

  const AllFieldsRequired: string := "All fields are required"
  const InvalidEmail: string := "Enter a valid email"
  const InvalidPhone: string := "Enter a valid 10-digit phone number"
  const ShortPassword: string := "Password must be at least 6 characters"
  const PasswordMismatch: string := "Passwords do not match"

  const MinPasswordLength: nat := 6

  /** `null` (valid) or the message of the first failing check. */
  datatype ValidationResult = Valid | Invalid(message: string)

  // ---------------------------------------------------------------------------
  // Check 1: no field is empty (an empty string is falsy)

  predicate AllFilled(f: Form) {
    forall k :: f.Get(k) != ""
  }

  /** The universal statement in terms of the seven fields, one by one. */
  lemma AllFilledFields(f: Form)
    ensures AllFilled(f) <==> f.name != "" && f.email != "" && f.phone != "" && f.gender != ""
                              && f.dob != "" && f.password != "" && f.confirm != ""
  {
    if !AllFilled(f) {
      var k :| f.Get(k) == "";
      match k
      case Name =>
      case Email =>
      case Phone =>
      case Gender =>
      case Dob =>
      case Password =>
      case Confirm =>
    } else {
      assert f.Get(Name) != "" && f.Get(Email) != "" && f.Get(Phone) != "" && f.Get(Gender) != "";
      assert f.Get(Dob) != "" && f.Get(Password) != "" && f.Get(Confirm) != "";
    }
  }

  // ---------------------------------------------------------------------------
  // Check 2: the email matches /^[^\s@]+@[^\s@]+\.[^\s@]+$/

  /** ECMAScript's `\s`: the WhiteSpace and LineTerminator code points
      (tab, line feed, vertical tab, form feed, carriage return, the space
      separators of Unicode, the line and paragraph separators and the byte
      order mark). */
  predicate IsWhitespace(c: char) {
    var n := c as int;
    (0x09 <= n <= 0x0D) || n == 0x20 || n == 0xA0 || n == 0x1680 || (0x2000 <= n <= 0x200A)
    || n == 0x2028 || n == 0x2029 || n == 0x202F || n == 0x205F || n == 0x3000 || n == 0xFEFF
  }

  /** A member of the character class `[^\s@]`. */
  predicate Plain(c: char) {
    !IsWhitespace(c) && c != '@'
  }

  predicate AllPlain(s: string) {
    forall i :: 0 <= i < |s| ==> Plain(s[i])
  }

  function Assemble(a: string, b: string, c: string): string {
    a + "@" + b + "." + c
  }

  /** What the email pattern describes: a local part, `@`, a domain label, a
      dot and a last part, all three non-empty and free of whitespace and `@`. */
  ghost predicate IsEmail(s: string) {
    exists a, b, c :: a != [] && b != [] && c != [] && AllPlain(a) && AllPlain(b) && AllPlain(c)
                      && s == Assemble(a, b, c)
  }

  /** The position of the first `c` in `s`, or `|s|` when there is none. */
  function IndexOf(s: string, c: char): (i: nat)
    ensures i <= |s|
    ensures i < |s| ==> s[i] == c
    ensures forall k :: 0 <= k < i ==> s[k] != c
  {
    if s == [] || s[0] == c then 0 else 1 + IndexOf(s[1..], c)
  }

  /** `[^\s@]+\.[^\s@]+$` on what follows the `@`: only plain characters, and
      a dot that is neither the first nor the last of them. */
  predicate MatchesDomain(d: string) {
    AllPlain(d) && |d| >= 3 && '.' in d[1..|d| - 1]
  }

  /** The email matcher: the first `@` is preceded by a non-empty run of plain
      characters (so it is the only `@` before the domain) and followed by a
      domain that matches. */
  predicate MatchesEmail(s: string) {
    var i := IndexOf(s, '@');
    0 < i < |s| && AllPlain(s[..i]) && MatchesDomain(s[i + 1..])
  }

  lemma MatchesAssembled(a: string, b: string, c: string)
    requires a != [] && b != [] && c != []
    requires AllPlain(a) && AllPlain(b) && AllPlain(c)
    ensures MatchesEmail(Assemble(a, b, c))
  {
    var s := Assemble(a, b, c);
    var i := IndexOf(s, '@');
    assert s[|a|] == '@';
    assert forall k :: 0 <= k < |a| ==> s[k] == a[k];
    assert i == |a|;
    assert s[..i] == a;
    var d := s[i + 1..];
    assert d == b + "." + c;
    assert Plain('.');
    assert forall k :: 0 <= k < |d| ==> Plain(d[k]) by {
      forall k | 0 <= k < |d| ensures Plain(d[k]) {
        if k < |b| {
          assert d[k] == b[k];
        } else if k > |b| {
          assert d[k] == c[k - |b| - 1];
        }
      }
    }
    assert d[1..|d| - 1][|b| - 1] == '.';
  }

  /** Everything the pattern describes is accepted by the matcher. */
  lemma EmailComplete(s: string)
    requires IsEmail(s)
    ensures MatchesEmail(s)
  {
    var a, b, c :| a != [] && b != [] && c != [] && AllPlain(a) && AllPlain(b) && AllPlain(c)
                   && s == Assemble(a, b, c);
    MatchesAssembled(a, b, c);
  }

  /** Everything the matcher accepts is described by the pattern. */
  lemma EmailSound(s: string)
    requires MatchesEmail(s)
    ensures IsEmail(s)
  {
    var i := IndexOf(s, '@');
    var d := s[i + 1..];
    var inner := d[1..|d| - 1];
    var m :| 0 <= m < |inner| && inner[m] == '.';
    var j := m + 1;
    assert d[j] == '.';
    var a, b, c := s[..i], d[..j], d[j + 1..];
    assert AllPlain(b) by {
      forall k | 0 <= k < |b| ensures Plain(b[k]) { assert b[k] == d[k]; }
    }
    assert AllPlain(c) by {
      forall k | 0 <= k < |c| ensures Plain(c[k]) { assert c[k] == d[j + 1 + k]; }
    }
    assert d == b + "." + c;
    assert s == a + "@" + d by {
      assert s == s[..i] + [s[i]] + s[i + 1..];
    }
    assert s == Assemble(a, b, c);
  }

  /** The matcher accepts exactly the strings the email pattern describes. */
  lemma MatchesEmailIff(s: string)
    ensures MatchesEmail(s) <==> IsEmail(s)
  {
    if MatchesEmail(s) { EmailSound(s); }
    if IsEmail(s) { EmailComplete(s); }
  }

  /** An accepted email holds exactly one `@`. */
  lemma EmailHasOneAt(s: string)
    requires IsEmail(s)
    ensures multiset(s)['@'] == 1
  {
    var a, b, c :| a != [] && b != [] && c != [] && AllPlain(a) && AllPlain(b) && AllPlain(c)
                   && s == Assemble(a, b, c);
    assert s == a + ['@'] + b + ['.'] + c;
  }

  // ---------------------------------------------------------------------------
  // Check 3: the phone matches /^[6-9]\d{9}$/

  /** `\d`: an ASCII decimal digit. */
  predicate IsDigit(c: char) {
    '0' <= c <= '9'
  }

  /** What the phone pattern describes: ten digits, the first from 6 to 9. */
  predicate IsPhone(s: string) {
    |s| == 10 && '6' <= s[0] <= '9' && forall i :: 0 <= i < |s| ==> IsDigit(s[i])
  }

  /** `\d{n}$`: exactly `n` digits and then the end of the input. */
  predicate Digits(s: string, n: nat)
    decreases n
  {
    if n == 0 then s == [] else s != [] && IsDigit(s[0]) && Digits(s[1..], n - 1)
  }

  /** The phone matcher: one digit from 6 to 9, then `\d{9}$`. */
  predicate MatchesPhone(s: string) {
    s != [] && '6' <= s[0] <= '9' && Digits(s[1..], 9)
  }

  lemma {:induction false} DigitsIff(s: string, n: nat)
    ensures Digits(s, n) <==> |s| == n && forall i :: 0 <= i < |s| ==> IsDigit(s[i])
    decreases n
  {
    if n > 0 && s != [] {
      DigitsIff(s[1..], n - 1);
      if IsDigit(s[0]) && forall i :: 0 <= i < |s[1..]| ==> IsDigit(s[1..][i]) {
        forall i | 0 <= i < |s| ensures IsDigit(s[i]) {
          if i > 0 { assert s[i] == s[1..][i - 1]; }
        }
      }
    }
  }

  /** The matcher accepts exactly the strings the phone pattern describes. */
  lemma MatchesPhoneIff(s: string)
    ensures MatchesPhone(s) <==> IsPhone(s)
  {
    if s != [] {
      DigitsIff(s[1..], 9);
      if IsPhone(s) {
        assert forall i :: 0 <= i < |s[1..]| ==> s[1..][i] == s[i + 1];
      }
    }
  }

  // ---------------------------------------------------------------------------
  // Check 4: `password.length`, which counts UTF-16 code units

  /** The length of `s` as a JavaScript string: one code unit per character of
      the Basic Multilingual Plane, two (a surrogate pair) per character above it. */
  function Utf16Length(s: string): (n: nat)
    ensures |s| <= n <= 2 * |s|
  {
    if s == [] then 0 else (if s[0] as int < 0x1_0000 then 1 else 2) + Utf16Length(s[1..])
  }

  /** For text within the Basic Multilingual Plane, such as ASCII, the
      JavaScript length is the number of characters. */
  lemma {:induction false} Utf16LengthOfBmp(s: string)
    requires forall i :: 0 <= i < |s| ==> s[i] as int < 0x1_0000
    ensures Utf16Length(s) == |s|
  {
    if s != [] {
      assert forall i :: 0 <= i < |s[1..]| ==> s[1..][i] == s[i + 1];
      Utf16LengthOfBmp(s[1..]);
    }
  }

  // ---------------------------------------------------------------------------
  // The five checks in order

  /** `validate()`: the first failing check's message, or valid. Each message
      is returned exactly when every earlier check passes and its own fails. */
  function Validate(f: Form): (r: ValidationResult)
    ensures r == Invalid(AllFieldsRequired) <==> !AllFilled(f)
    ensures r == Invalid(InvalidEmail) <==> AllFilled(f) && !IsEmail(f.email)
    ensures r == Invalid(InvalidPhone) <==> AllFilled(f) && IsEmail(f.email) && !IsPhone(f.phone)
    ensures r == Invalid(ShortPassword) <==>
              AllFilled(f) && IsEmail(f.email) && IsPhone(f.phone)
              && Utf16Length(f.password) < MinPasswordLength
    ensures r == Invalid(PasswordMismatch) <==>
              AllFilled(f) && IsEmail(f.email) && IsPhone(f.phone)
              && Utf16Length(f.password) >= MinPasswordLength && f.password != f.confirm
    ensures r == Valid <==>
              AllFilled(f) && IsEmail(f.email) && IsPhone(f.phone)
              && Utf16Length(f.password) >= MinPasswordLength && f.password == f.confirm
  {
    AllFilledFields(f);
    MatchesEmailIff(f.email);
    MatchesPhoneIff(f.phone);
    if f.name == "" || f.email == "" || f.phone == "" || f.gender == "" || f.dob == ""
       || f.password == "" || f.confirm == "" then
      Invalid(AllFieldsRequired)
    else if !MatchesEmail(f.email) then
      Invalid(InvalidEmail)
    else if !MatchesPhone(f.phone) then
      Invalid(InvalidPhone)
    else if Utf16Length(f.password) < MinPasswordLength then
      Invalid(ShortPassword)
    else if f.password != f.confirm then
      Invalid(PasswordMismatch)
    else
      Valid
  }

  /** An empty field decides the result, whatever the other fields hold. */
  lemma EmptyFieldWins(f: Form, k: Field, v: string)
    ensures Validate(f.With(k, "")) == Invalid(AllFieldsRequired)
  {
    assert f.With(k, "").Get(k) == "";
  }

  /** The freshly reset form fails the first check. */
  lemma InitialIsIncomplete()
    ensures Validate(Initial()) == Invalid(AllFieldsRequired)
  {
    assert Initial().Get(Name) == "";
  }

  /** Sample inputs: a leading 9 is a valid phone start, a leading 5 is not. */
  lemma PhoneSamples()
    ensures MatchesPhone("9876543210")
    ensures !MatchesPhone("5551234567")
  {
    MatchesPhoneIff("9876543210");
    MatchesPhoneIff("5551234567");
  }

  /** A completely filled-in sample form passes all five checks. */
  lemma SampleFormIsValid()
    ensures Validate(Form("Jane Doe", "jane@example.com", "9876543210", "female", "2000-01-01",
                          "secret1", "secret1")) == Valid
  {
    var f := Form("Jane Doe", "jane@example.com", "9876543210", "female", "2000-01-01",
                  "secret1", "secret1");
    AllFilledFields(f);
    SampleEmail();
    assert IsPhone(f.phone);
    Utf16LengthOfBmp(f.password);
  }

  lemma SampleEmail()
    ensures IsEmail("jane@example.com")
  {
    assert AllPlain("jane") && AllPlain("example") && AllPlain("com");
    assert "jane@example.com" == Assemble("jane", "example", "com");
  }

  /** A password of three characters fails the length check, and a confirmation
      that differs from a long enough password fails the last check. */
  lemma PasswordSamples()
    ensures Validate(Form("Jane Doe", "jane@example.com", "9876543210", "female", "2000-01-01",
                          "abc", "abc")) == Invalid(ShortPassword)
    ensures Validate(Form("Jane Doe", "jane@example.com", "9876543210", "female", "2000-01-01",
                          "abcdef", "abcxyz")) == Invalid(PasswordMismatch)
  {
    var f := Form("Jane Doe", "jane@example.com", "9876543210", "female", "2000-01-01",
                  "abc", "abc");
    var g := f.(password := "abcdef", confirm := "abcxyz");
    SampleEmail();
    assert IsPhone(f.phone);
    Utf16LengthOfBmp(f.password);
    Utf16LengthOfBmp(g.password);
    AllFilledFields(f);
    AllFilledFields(g);
  }
}
