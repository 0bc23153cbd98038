/**
 * The registration validator (backend/src/utils.js): four checks in a fixed order,
 * the first failure's message is returned, and `None` (JavaScript `null`) means valid.
 * Each regular expression is given twice: as the match the expression describes
 * (`EmailPattern`, `PasswordPattern`) and as a character scan (`IsEmail`, `IsPassword`),
 * and the two are proved to agree.
 */
module Register {
  import opened Wrappers

  /** The request body; an absent field is `None`. */
  datatype RegisterForm = RegisterForm(name: Option<string>, email: Option<string>,
                                       password: Option<string>, address: Option<string>)

  const NameError := "Name must be between 20 and 60 characters"
  const EmailError := "Invalid email"
  const PasswordError := "Password must be 8–16 chars, include an uppercase and a special character"
  const AddressError := "Address must be <= 400 characters"

  /** The characters of the JavaScript class `\s`. */
  predicate IsWhitespace(c: char)
  {
    c == '\t' || c == '\n' || c == '\U{000B}' || c == '\U{000C}' || c == '\r' || c == ' '
    || c == '\U{00A0}' || c == '\U{1680}' || ('\U{2000}' <= c <= '\U{200A}')
    || c == '\U{2028}' || c == '\U{2029}' || c == '\U{202F}' || c == '\U{205F}'
    || c == '\U{3000}' || c == '\U{FEFF}'
  }

  /** The characters that `.` does not match (no `s` flag). */
  predicate IsLineTerminator(c: char)
  {
    c == '\n' || c == '\r' || c == '\U{2028}' || c == '\U{2029}'
  }

  predicate IsUpper(c: char)
  {
    'A' <= c <= 'Z'
  }

  /** The class `[!@#$%^&*()_+\-=\[\]{};':"\\|,.<>\/?]`. */
  predicate IsSpecial(c: char)
  {
    c in "!@#$%^&*()_+-=[]{};':\"\\|,.<>/?"
  }

  /** The class `[^\s@]`. */
  predicate IsEmailChar(c: char)
  {
    !IsWhitespace(c) && c != '@'
  }

  // ---------------------------------------------------------------------------
  // The email pattern /^[^\s@]+@[^\s@]+\.[^\s@]+$/

  /** A match of the email pattern: an '@' at `at` and a '.' at `dot`, each part non-empty, every other character in `[^\s@]`. */
  ghost predicate EmailPattern(s: string)
  {
    exists at, dot :: 0 < at && at + 1 < dot && dot + 1 < |s| && s[at] == '@' && s[dot] == '.'
                      && forall k :: 0 <= k < |s| && k != at ==> IsEmailChar(s[k])
  }

  function Count(s: string, c: char): (n: nat)
    ensures n <= |s|
  {
    if s == [] then 0 else (if s[0] == c then 1 else 0) + Count(s[1..], c)
  }

  function IndexOf(s: string, c: char): (i: nat)
    ensures i <= |s|
    ensures i < |s| ==> s[i] == c
    ensures forall k :: 0 <= k < i ==> s[k] != c
  {
    if s == [] then 0 else if s[0] == c then 0 else 1 + IndexOf(s[1..], c)
  }

  /** The scan: no whitespace, exactly one '@', a non-empty local part, and a '.' strictly inside the domain. */
  predicate IsEmail(s: string)
  {
    && (forall k :: 0 <= k < |s| ==> !IsWhitespace(s[k]))
    && Count(s, '@') == 1
    && var at := IndexOf(s, '@');
       0 < at && exists dot :: at + 1 < dot < |s| - 1 && s[dot] == '.'
  }

  /** A character occurs exactly once at `i` iff it is counted once and found first at `i`. */
  lemma {:induction false} CountOnce(s: string, c: char, i: int)
    requires 0 <= i < |s| && s[i] == c
    ensures (Count(s, c) == 1) <==> (forall k :: 0 <= k < |s| && k != i ==> s[k] != c)
    decreases |s|
  {
    if i == 0 {
      CountNone(s[1..], c);
      assert forall k :: 0 < k < |s| ==> s[k] == s[1..][k - 1];
    } else {
      CountOnce(s[1..], c, i - 1);
      CountNone(s[1..], c);
      assert forall k :: 0 < k < |s| ==> s[k] == s[1..][k - 1];
    }
  }

  lemma {:induction false} CountNone(s: string, c: char)
    ensures (Count(s, c) == 0) <==> (forall k :: 0 <= k < |s| ==> s[k] != c)
    decreases |s|
  {
    if s != [] {
      CountNone(s[1..], c);
      assert forall k :: 0 < k < |s| ==> s[k] == s[1..][k - 1];
    }
  }

  /** The scan accepts exactly the strings the email pattern matches. */
  lemma EmailScanMatchesPattern(s: string)
    ensures IsEmail(s) <==> EmailPattern(s)
  {
    if IsEmail(s) {
      var at := IndexOf(s, '@');
      CountOnce(s, '@', at);
      var dot :| at + 1 < dot < |s| - 1 && s[dot] == '.';
      assert forall k :: 0 <= k < |s| && k != at ==> IsEmailChar(s[k]);
    }
    if EmailPattern(s) {
      var at, dot :| 0 < at && at + 1 < dot && dot + 1 < |s| && s[at] == '@' && s[dot] == '.'
                     && forall k :: 0 <= k < |s| && k != at ==> IsEmailChar(s[k]);
      CountOnce(s, '@', at);
      assert IndexOf(s, '@') == at;
      assert forall k :: 0 <= k < |s| ==> !IsWhitespace(s[k]);
    }
  }

  // ---------------------------------------------------------------------------
  // The password pattern /^(?=.*[A-Z])(?=.*[special]).{8,16}$/

  /** A match of the password pattern: each lookahead finds its character after a run of `.`, and the whole string is 8 to 16 `.` characters. */
  ghost predicate PasswordPattern(s: string)
  {
    && (exists i :: 0 <= i < |s| && IsUpper(s[i]) && forall k :: 0 <= k < i ==> !IsLineTerminator(s[k]))
    && (exists j :: 0 <= j < |s| && IsSpecial(s[j]) && forall k :: 0 <= k < j ==> !IsLineTerminator(s[k]))
    && 8 <= |s| <= 16
    && forall k :: 0 <= k < |s| ==> !IsLineTerminator(s[k])
  }

  function HasUpper(s: string): bool
  {
    s != [] && (IsUpper(s[0]) || HasUpper(s[1..]))
  }

  function HasSpecial(s: string): bool
  {
    s != [] && (IsSpecial(s[0]) || HasSpecial(s[1..]))
  }

  /** The scan: 8 to 16 characters, no line terminator, an uppercase letter and a special character somewhere. */
  predicate IsPassword(s: string)
  {
    && 8 <= |s| <= 16
    && (forall k :: 0 <= k < |s| ==> !IsLineTerminator(s[k]))
    && HasUpper(s)
    && HasSpecial(s)
  }

  lemma {:induction false} HasUpperIff(s: string)
    ensures HasUpper(s) <==> exists i :: 0 <= i < |s| && IsUpper(s[i])
    decreases |s|
  {
    if s != [] {
      HasUpperIff(s[1..]);
      assert forall k :: 0 < k < |s| ==> s[k] == s[1..][k - 1];
      if exists i :: 0 <= i < |s| && IsUpper(s[i]) {
        var i :| 0 <= i < |s| && IsUpper(s[i]);
        if i > 0 { assert IsUpper(s[1..][i - 1]); }
      }
    }
  }

  lemma {:induction false} HasSpecialIff(s: string)
    ensures HasSpecial(s) <==> exists i :: 0 <= i < |s| && IsSpecial(s[i])
    decreases |s|
  {
    if s != [] {
      HasSpecialIff(s[1..]);
      assert forall k :: 0 < k < |s| ==> s[k] == s[1..][k - 1];
      if exists i :: 0 <= i < |s| && IsSpecial(s[i]) {
        var i :| 0 <= i < |s| && IsSpecial(s[i]);
        if i > 0 { assert IsSpecial(s[1..][i - 1]); }
      }
    }
  }

  /** The scan accepts exactly the strings the password pattern matches. */
  lemma PasswordScanMatchesPattern(s: string)
    ensures IsPassword(s) <==> PasswordPattern(s)
  {
    HasUpperIff(s);
    HasSpecialIff(s);
  }

  // ---------------------------------------------------------------------------
  // validateRegister

  predicate NameOk(name: Option<string>)
  {
    name.Some? && name.value != "" && 20 <= |name.value| <= 60
  }

  predicate EmailOk(email: Option<string>)
  {
    email.Some? && email.value != "" && IsEmail(email.value)
  }

  predicate PasswordOk(password: Option<string>)
  {
    password.Some? && password.value != "" && IsPassword(password.value)
  }

  predicate AddressOk(address: Option<string>)
  {
    !(address.Some? && address.value != "" && |address.value| > 400)
  }

  /** `validateRegister`: the first failing check's message, or `None`. */
  function ValidateRegister(form: RegisterForm): Option<string>
  {
    if !NameOk(form.name) then Some(NameError)
    else if !EmailOk(form.email) then Some(EmailError)
    else if !PasswordOk(form.password) then Some(PasswordError)
    else if !AddressOk(form.address) then Some(AddressError)
    else None
  }

  /**
   * The validator's outcome in terms of the patterns themselves: valid exactly when the name has
   * 20 to 60 characters, the email matches the email pattern, the password matches the password
   * pattern and any address has at most 400 characters; otherwise the earliest failing check in the
   * order name, email, password, address names the error.
   */
  lemma ValidateRegisterSpec(form: RegisterForm)
    ensures ValidateRegister(form) == None <==>
              && form.name.Some? && 20 <= |form.name.value| <= 60
              && form.email.Some? && EmailPattern(form.email.value)
              && form.password.Some? && PasswordPattern(form.password.value)
              && (form.address.Some? ==> |form.address.value| <= 400)
    ensures ValidateRegister(form) == Some(NameError) <==>
              form.name.None? || |form.name.value| < 20 || |form.name.value| > 60
    ensures ValidateRegister(form) == Some(EmailError) <==>
              && form.name.Some? && 20 <= |form.name.value| <= 60
              && (form.email.None? || !EmailPattern(form.email.value))
    ensures ValidateRegister(form) == Some(PasswordError) <==>
              && form.name.Some? && 20 <= |form.name.value| <= 60
              && form.email.Some? && EmailPattern(form.email.value)
              && (form.password.None? || !PasswordPattern(form.password.value))
    ensures ValidateRegister(form) == Some(AddressError) <==>
              && form.name.Some? && 20 <= |form.name.value| <= 60
              && form.email.Some? && EmailPattern(form.email.value)
              && form.password.Some? && PasswordPattern(form.password.value)
              && form.address.Some? && |form.address.value| > 400
  {
    if form.email.Some? {
      EmailScanMatchesPattern(form.email.value);
      assert form.email.value == "" ==> !EmailPattern(form.email.value);
    }
    if form.password.Some? {
      PasswordScanMatchesPattern(form.password.value);
    }
  }

  /** The name check decides alone: a bad name is reported whatever the other fields hold. */
  lemma NameCheckFirst(form: RegisterForm, other: RegisterForm)
    requires form.name == other.name && !NameOk(form.name)
    ensures ValidateRegister(form) == ValidateRegister(other) == Some(NameError)
  {
  }

  /** The address is optional: leaving it out never makes a form invalid. */
  lemma AddressOptional(form: RegisterForm)
    requires form.address.None?
    ensures ValidateRegister(form) != Some(AddressError)
  {
  }
}
