/** The checks the citizens page runs on the "add citizen" form before it
    hands a new citizen to the registry: the email, phone and age
    predicates, and `validateCitizen`, which collects one message per
    offending field. */
module CitizenForm {
  import opened Records
  import opened Text

  /* ---------------------------------------------------------------- age */

  /** An age is accepted when it is positive and at most 150. An accepted
      age is never 0, so the falsy-age test `validateCitizen` makes before
      it rejects nothing more for a present age. */
  predicate ValidateAge(age: int)
    ensures ValidateAge(age) ==> age != 0
  {
    age > 0 && age <= 150
  }

  /* -------------------------------------------------------------- email */

  /** A run of `[^\s@]`: no '@' and no whitespace. */
  predicate Plain(s: string) {
    forall i :: 0 <= i < |s| ==> s[i] != '@' && !IsSpace(s[i])
  }

  /** `e` splits as `u@v.w` with `u`, `v`, `w` non-empty plain runs. */
  predicate EmailParts(e: string, u: string, v: string, w: string) {
    && |u| > 0 && |v| > 0 && |w| > 0
    && Plain(u) && Plain(v) && Plain(w)
    && e == u + "@" + v + "." + w
  }

  /** The language of `^[^\s@]+@[^\s@]+\.[^\s@]+$`. */
  ghost predicate MatchesEmailPattern(e: string) {
    exists u, v, w :: EmailParts(e, u, v, w)
  }

  /** The index of the first `c` in `s`, if any. */
  function IndexOf(s: string, c: char): (r: Option<nat>)
    ensures r.Some? ==> r.value < |s| && s[r.value] == c && forall i :: 0 <= i < r.value ==> s[i] != c
    ensures r.None? ==> forall i :: 0 <= i < |s| ==> s[i] != c
  {
    if s == [] then None
    else if s[0] == c then Some(0)
    else match IndexOf(s[1..], c)
      case None => None
      case Some(i) => Some(i + 1)
  }

  /** A '.' with at least one character on each side. */
  predicate HasInnerDot(d: string) {
    exists k | 1 <= k < |d| - 1 :: d[k] == '.'
  }

  /** `validateEmail`: exactly one '@', no whitespace, something before the
      '@', and after it a '.' with something on both sides. */
  predicate ValidateEmail(email: string)
    ensures ValidateEmail(email) ==> forall i :: 0 <= i < |email| ==> !IsSpace(email[i])
    ensures ValidateEmail(email) ==> exists at :: && 0 < at < |email| - 3 && email[at] == '@'
                                                  && forall i :: 0 <= i < |email| && email[i] == '@' ==> i == at
  {
    match IndexOf(email, '@')
    case None => false
    case Some(at) =>
      var local, domain := email[..at], email[at + 1..];
      |local| > 0 && Plain(local) && Plain(domain) && HasInnerDot(domain)
  }

  /** Cutting at an '@' and at an inner '.' after it yields the three runs
      of `u@v.w`. */
  lemma SplitAt(email: string, at: nat, k: nat)
    requires 0 < at < |email| && email[at] == '@'
    requires Plain(email[..at]) && Plain(email[at + 1..])
    requires 1 <= k < |email[at + 1..]| - 1 && email[at + 1..][k] == '.'
    ensures EmailParts(email, email[..at], email[at + 1..][..k], email[at + 1..][k + 1..])
  {
    var u, domain := email[..at], email[at + 1..];
    var v, w := domain[..k], domain[k + 1..];
    assert Plain(v) by {
      forall i | 0 <= i < |v| ensures v[i] != '@' && !IsSpace(v[i]) { assert v[i] == domain[i]; }
    }
    assert Plain(w) by {
      forall i | 0 <= i < |w| ensures w[i] != '@' && !IsSpace(w[i]) { assert w[i] == domain[k + 1 + i]; }
    }
    assert domain == v + "." + w;
    assert email == u + "@" + domain;
  }

  /** Every string the scanning check accepts splits as `u@v.w`. */
  lemma ValidEmailSplits(email: string)
    requires ValidateEmail(email)
    ensures MatchesEmailPattern(email)
  {
    var at := IndexOf(email, '@').value;
    var k :| 1 <= k < |email[at + 1..]| - 1 && email[at + 1..][k] == '.';
    SplitAt(email, at, k);
  }

  /** Every `u@v.w` string passes the scanning check. */
  lemma SplitEmailValid(email: string, u: string, v: string, w: string)
    requires EmailParts(email, u, v, w)
    ensures ValidateEmail(email)
  {
    var domain := v + "." + w;
    assert email == u + "@" + domain;
    assert email[|u|] == '@';
    assert forall i :: 0 <= i < |u| ==> email[i] == u[i];
    assert IndexOf(email, '@') == Some(|u|);
    assert email[..|u|] == u && email[|u| + 1..] == domain;
    assert domain[|v|] == '.';
    forall i | 0 <= i < |domain| ensures domain[i] != '@' && !IsSpace(domain[i]) {
      if i < |v| {
        assert domain[i] == v[i];
      } else if i > |v| {
        assert domain[i] == w[i - |v| - 1];
      }
    }
  }

  /** The scanning check accepts exactly the strings the email regular
      expression matches. */
  lemma ValidateEmailMatchesPattern(email: string)
    ensures ValidateEmail(email) <==> MatchesEmailPattern(email)
  {
    if ValidateEmail(email) {
      ValidEmailSplits(email);
    }
    if MatchesEmailPattern(email) {
      var u, v, w :| EmailParts(email, u, v, w);
      SplitEmailValid(email, u, v, w);
    }
  }

  /* -------------------------------------------------------------- phone */

  /** The input with every whitespace character removed. */
  function StripSpaces(s: string): (r: string)
    ensures |r| <= |s|
    ensures forall i :: 0 <= i < |r| ==> !IsSpace(r[i])
  {
    if s == [] then []
    else (if IsSpace(s[0]) then [] else [s[0]]) + StripSpaces(s[1..])
  }

  /** Stripping distributes over concatenation, so whitespace anywhere in
      the input is dropped independently of its neighbours. */
  lemma {:induction false} StripSpacesAppend(a: string, b: string)
    ensures StripSpaces(a + b) == StripSpaces(a) + StripSpaces(b)
    decreases |a|
  {
    if a != [] {
      var head := if IsSpace(a[0]) then [] else [a[0]];
      assert (a + b)[0] == a[0] && (a + b)[1..] == a[1..] + b;
      StripSpacesAppend(a[1..], b);
      calc {
        StripSpaces(a + b);
        head + StripSpaces(a[1..] + b);
        head + (StripSpaces(a[1..]) + StripSpaces(b));
        (head + StripSpaces(a[1..])) + StripSpaces(b);
        StripSpaces(a) + StripSpaces(b);
      }
    } else {
      assert a + b == b;
    }
  }

  /** `s` has the shape of template `t`, in which '#' stands for `\d`. */
  predicate FitsTemplate(s: string, t: string) {
    |s| == |t| && forall i :: 0 <= i < |s| ==> if t[i] == '#' then IsDigit(s[i]) else s[i] == t[i]
  }

  const ShortNumber := "###-####"
  const BracketedNumber := "(###)###-####"
  const TenDigits := "##########"

  /** One of `ddd-dddd`, `(ddd)ddd-dddd` or ten digits. */
  predicate PhoneShape(s: string) {
    FitsTemplate(s, ShortNumber) || FitsTemplate(s, BracketedNumber) || FitsTemplate(s, TenDigits)
  }

  /** `validatePhone`: the input with all whitespace dropped has one of the
      three shapes (the regular expression's optional `\s` has nothing left
      to match). */
  predicate ValidatePhone(phone: string)
    ensures ValidatePhone(phone) ==> |phone| >= 8
  {
    PhoneShape(StripSpaces(phone))
  }

  predicate AllDigits(s: string) {
    forall i :: 0 <= i < |s| ==> IsDigit(s[i])
  }

  /** The accepted shapes spelled out position by position. */
  lemma ValidatePhoneShapes(phone: string)
    ensures ValidatePhone(phone) <==>
      var s := StripSpaces(phone);
      || (|s| == 8 && AllDigits(s[..3]) && s[3] == '-' && AllDigits(s[4..]))
      || (|s| == 13 && s[0] == '(' && AllDigits(s[1..4]) && s[4] == ')' && AllDigits(s[5..8])
          && s[8] == '-' && AllDigits(s[9..]))
      || (|s| == 10 && AllDigits(s))
  {
    var s := StripSpaces(phone);
    assert ValidatePhone(phone) == PhoneShape(s);
    if |s| == 8 {
      assert FitsTemplate(s, ShortNumber) <==> AllDigits(s[..3]) && s[3] == '-' && AllDigits(s[4..]) by {
        if AllDigits(s[..3]) && s[3] == '-' && AllDigits(s[4..]) {
          forall i | 0 <= i < 8 ensures if ShortNumber[i] == '#' then IsDigit(s[i]) else s[i] == ShortNumber[i] {
            if i < 3 { assert s[i] == s[..3][i]; } else if i > 3 { assert s[i] == s[4..][i - 4]; }
          }
        }
      }
    }
    if |s| == 13 {
      assert FitsTemplate(s, BracketedNumber) <==>
               (s[0] == '(' && AllDigits(s[1..4]) && s[4] == ')' && AllDigits(s[5..8]) && s[8] == '-' && AllDigits(s[9..])) by {
        if s[0] == '(' && AllDigits(s[1..4]) && s[4] == ')' && AllDigits(s[5..8]) && s[8] == '-' && AllDigits(s[9..]) {
          forall i | 0 <= i < 13 ensures if BracketedNumber[i] == '#' then IsDigit(s[i]) else s[i] == BracketedNumber[i] {
            if 1 <= i < 4 { assert s[i] == s[1..4][i - 1]; }
            else if 5 <= i < 8 { assert s[i] == s[5..8][i - 5]; }
            else if i > 8 { assert s[i] == s[9..][i - 9]; }
          }
        }
      }
    }
  }

  /** Whitespace anywhere in the input never changes the verdict. */
  lemma ValidatePhoneIgnoresSpace(a: string, c: char, b: string)
    requires IsSpace(c)
    ensures ValidatePhone(a + [c] + b) == ValidatePhone(a + b)
  {
    StripSpacesAppend(a + [c], b);
    StripSpacesAppend(a, [c]);
    StripSpacesAppend(a, b);
    assert StripSpaces([c]) == [];
    assert StripSpaces(a + [c] + b) == StripSpaces(a + b);
  }

  /** Input without whitespace is left as it is. */
  lemma {:induction false} StripSpacesNone(s: string)
    requires forall i :: 0 <= i < |s| ==> !IsSpace(s[i])
    ensures StripSpaces(s) == s
  {
    if s != [] {
      StripSpacesNone(s[1..]);
    }
  }

  /* ----------------------------------------------------- validateCitizen */


  /** The messages the form shows next to a field. */
  datatype Message =
    | NameRequired | NameTooShort | AgeOutOfRange | NationalityRequired | DateOfBirthInvalid
    | AddressRequired | AddressTooShort | EmailRequired | EmailInvalid | PhoneRequired | PhoneInvalid
    | EmailExists
  {
    /** The text the page displays. */
    function Wording(): string {
      match this
      case NameRequired => "Name is required"
      case NameTooShort => "Name must be at least 2 characters"
      case AgeOutOfRange => "Age must be between 1 and 150"
      case NationalityRequired => "Nationality is required"
      case DateOfBirthInvalid => "Valid date of birth is required"
      case AddressRequired => "Address is required"
      case AddressTooShort => "Address must be at least 5 characters"
      case EmailRequired => "Email is required"
      case EmailInvalid => "Invalid email format"
      case PhoneRequired => "Phone number is required"
      case PhoneInvalid => "Invalid phone format (e.g., 555-1234 or (555) 123-4567)"
      case EmailExists => "Email already exists"
    }
  }

  /** A missing field: absent, or whitespace only. */
  predicate Blank(field: Option<string>) {
    field.None? || Trim(field.value) == ""
  }

  /** The citizen's email equals `email` after lower-casing both; an absent
      email matches nobody. */
  predicate SameEmail(c: Citizen, email: Option<string>) {
    email.Some? && Lower(c.email) == Lower(email.value)
  }

  /** The first listed citizen with the same email up to case, if any. */
  method FindByEmail(citizens: seq<Citizen>, email: Option<string>) returns (existing: Option<Citizen>)
    ensures existing.None? <==> forall c :: c in citizens ==> !SameEmail(c, email)
    ensures existing.Some? ==> exists i :: 0 <= i < |citizens| && citizens[i] == existing.value
                                         && SameEmail(citizens[i], email)
                                         && forall j :: 0 <= j < i ==> !SameEmail(citizens[j], email)
  {
    var i := 0;
    while i < |citizens|
      invariant 0 <= i <= |citizens|
      invariant forall j :: 0 <= j < i ==> !SameEmail(citizens[j], email)
    {
      if SameEmail(citizens[i], email) {
        return Some(citizens[i]);
      }
      i := i + 1;
    }
    return None;
  }

  /** The form's error record: at most one message per field, absent when
      the field passed. */
  datatype FormErrors = FormErrors(
    name: Option<Message>,
    age: Option<Message>,
    nationality: Option<Message>,
    dateOfBirth: Option<Message>,
    address: Option<Message>,
    email: Option<Message>,
    phone: Option<Message>)

  const NoErrors := FormErrors(None, None, None, None, None, None, None)

  /* The message each check records for its field, if any. */

  function NameMessage(name: Option<string>): Option<Message> {
    if Blank(name) then Some(NameRequired)
    else if |Trim(name.value)| < 2 then Some(NameTooShort)
    else None
  }

  /** A missing age and age 0 are both falsy. */
  function AgeMessage(age: Option<int>): Option<Message> {
    if age.None? || age.value == 0 || !ValidateAge(age.value) then Some(AgeOutOfRange) else None
  }

  function NationalityMessage(nationality: Option<string>): Option<Message> {
    if Blank(nationality) then Some(NationalityRequired) else None
  }

  function DateOfBirthMessage(dateOfBirth: Option<string>, dateOfBirthOk: string -> bool): Option<Message> {
    if !Truthy(dateOfBirth) || !dateOfBirthOk(dateOfBirth.value) then Some(DateOfBirthInvalid) else None
  }

  function AddressMessage(address: Option<string>): Option<Message> {
    if Blank(address) then Some(AddressRequired)
    else if |Trim(address.value)| < 5 then Some(AddressTooShort)
    else None
  }

  /** The format check applies to the untrimmed input. */
  function EmailMessage(email: Option<string>): Option<Message> {
    if Blank(email) then Some(EmailRequired)
    else if !ValidateEmail(email.value) then Some(EmailInvalid)
    else None
  }

  function PhoneMessage(phone: Option<string>): Option<Message> {
    if Blank(phone) then Some(PhoneRequired)
    else if !ValidatePhone(phone.value) then Some(PhoneInvalid)
    else None
  }

  /** `validateCitizen`: one message per offending field of the draft, the
      duplicate-email check overwriting the email format message; the draft
      is valid when no message was recorded. `citizens` is the list the page
      currently shows, and `dateOfBirthOk` stands for the page's
      clock-dependent date-of-birth check. */
  method ValidateCitizen(newCitizen: CitizenPatch, citizens: seq<Citizen>, dateOfBirthOk: string -> bool)
    returns (errors: FormErrors, valid: bool)
    ensures valid <==> errors == NoErrors
    ensures valid <==> AcceptableDraft(newCitizen, citizens, dateOfBirthOk)
    ensures errors.name == if Blank(newCitizen.name) then Some(NameRequired)
                           else if |Trim(newCitizen.name.value)| < 2 then Some(NameTooShort)
                           else None
    ensures errors.age.Some? <==> !(newCitizen.age.Some? && ValidateAge(newCitizen.age.value))
    ensures errors.age.Some? ==> errors.age.value == AgeOutOfRange
    ensures errors.nationality == if Blank(newCitizen.nationality) then Some(NationalityRequired) else None
    ensures errors.dateOfBirth.Some? <==> !(Truthy(newCitizen.dateOfBirth) && dateOfBirthOk(newCitizen.dateOfBirth.value))
    ensures errors.dateOfBirth.Some? ==> errors.dateOfBirth.value == DateOfBirthInvalid
    ensures errors.address == if Blank(newCitizen.address) then Some(AddressRequired)
                              else if |Trim(newCitizen.address.value)| < 5 then Some(AddressTooShort)
                              else None
    ensures errors.email == if exists c :: c in citizens && SameEmail(c, newCitizen.email) then Some(EmailExists)
                            else if Blank(newCitizen.email) then Some(EmailRequired)
                            else if !ValidateEmail(newCitizen.email.value) then Some(EmailInvalid)
                            else None
    ensures errors.phone == if Blank(newCitizen.phone) then Some(PhoneRequired)
                            else if !ValidatePhone(newCitizen.phone.value) then Some(PhoneInvalid)
                            else None
  {
    errors := NoErrors;
    errors := errors.(name := NameMessage(newCitizen.name));
    errors := errors.(age := AgeMessage(newCitizen.age));
    errors := errors.(nationality := NationalityMessage(newCitizen.nationality));
    errors := errors.(dateOfBirth := DateOfBirthMessage(newCitizen.dateOfBirth, dateOfBirthOk));
    errors := errors.(address := AddressMessage(newCitizen.address));
    errors := errors.(email := EmailMessage(newCitizen.email));
    errors := errors.(phone := PhoneMessage(newCitizen.phone));

    var existingCitizen := FindByEmail(citizens, newCitizen.email);
    if existingCitizen.Some? {
      errors := errors.(email := Some(EmailExists));
    }

    valid := errors == NoErrors;
    AcceptableDraftChecks(newCitizen, citizens, dateOfBirthOk);
  }

  /** What an accepted draft looks like, stated without the checks' own
      phrasing: a name of at least two characters and an address of at
      least five once trimmed, an age from 1 to 150, a nationality, a date
      of birth the page accepts, an email of the form `u@v.w` that no listed
      citizen has (up to case) and a phone number of one of the three
      shapes. */
  ghost predicate AcceptableDraft(d: CitizenPatch, citizens: seq<Citizen>, dateOfBirthOk: string -> bool) {
    && d.name.Some? && |Trim(d.name.value)| >= 2
    && d.age.Some? && 1 <= d.age.value <= 150
    && d.nationality.Some? && Trim(d.nationality.value) != ""
    && d.dateOfBirth.Some? && d.dateOfBirth.value != "" && dateOfBirthOk(d.dateOfBirth.value)
    && d.address.Some? && |Trim(d.address.value)| >= 5
    && d.email.Some? && MatchesEmailPattern(d.email.value)
    && (forall c :: c in citizens ==> Lower(c.email) != Lower(d.email.value))
    && d.phone.Some? && ValidatePhone(d.phone.value)
  }

  /** A string with a visible character does not trim to nothing. */
  lemma NotBlank(s: string, i: int)
    requires 0 <= i < |s| && !IsSpace(s[i])
    ensures Trim(s) != ""
  {
    TrimSpec(s);
  }

  /** Input that keeps something after whitespace is dropped has a visible
      character. */
  lemma {:induction false} StripSpacesVisible(s: string)
    requires StripSpaces(s) != []
    ensures exists i :: 0 <= i < |s| && !IsSpace(s[i])
  {
    if !IsSpace(s[0]) {
      assert 0 < |s|;
    } else {
      StripSpacesVisible(s[1..]);
      var i :| 0 <= i < |s[1..]| && !IsSpace(s[1..][i]);
      assert s[i + 1] == s[1..][i];
    }
  }

  /** The email checks pass exactly on an email of the form `u@v.w`: such
      an email is never blank, since its '@' is not whitespace. */
  lemma EmailAccepted(email: Option<string>)
    ensures EmailMessage(email).None? <==> email.Some? && MatchesEmailPattern(email.value)
  {
    if email.Some? {
      ValidateEmailMatchesPattern(email.value);
      if MatchesEmailPattern(email.value) {
        var u, v, w :| EmailParts(email.value, u, v, w);
        assert email.value[|u|] == '@';
        NotBlank(email.value, |u|);
      }
    }
  }

  /** The phone checks pass exactly on a number of one of the three shapes:
      such a number is never blank. */
  lemma PhoneAccepted(phone: Option<string>)
    ensures PhoneMessage(phone).None? <==> phone.Some? && ValidatePhone(phone.value)
  {
    if phone.Some? && ValidatePhone(phone.value) {
      StripSpacesVisible(phone.value);
      var i :| 0 <= i < |phone.value| && !IsSpace(phone.value[i]);
      NotBlank(phone.value, i);
    }
  }

  /** The field checks pass exactly on an acceptable draft. */
  lemma AcceptableDraftChecks(d: CitizenPatch, citizens: seq<Citizen>, dateOfBirthOk: string -> bool)
    ensures AcceptableDraft(d, citizens, dateOfBirthOk) <==>
      && NameMessage(d.name).None? && AgeMessage(d.age).None? && NationalityMessage(d.nationality).None?
      && DateOfBirthMessage(d.dateOfBirth, dateOfBirthOk).None? && AddressMessage(d.address).None?
      && EmailMessage(d.email).None? && PhoneMessage(d.phone).None?
      && (forall c :: c in citizens ==> !SameEmail(c, d.email))
  {
    EmailAccepted(d.email);
    PhoneAccepted(d.phone);
  }


  /** Every `ddd-dddd` number is accepted, as the message's `555-1234`. */
  lemma ShortNumberAccepted(x: string, z: string)
    requires |x| == 3 && |z| == 4 && AllDigits(x) && AllDigits(z)
    ensures ValidatePhone(x + "-" + z)
  {
    var s := x + "-" + z;
    forall i | 0 <= i < |s| ensures !IsSpace(s[i]) && (if ShortNumber[i] == '#' then IsDigit(s[i]) else s[i] == ShortNumber[i]) {
      if i < 3 { assert s[i] == x[i]; } else if i > 3 { assert s[i] == z[i - 4]; }
    }
    StripSpacesNone(s);
    assert FitsTemplate(s, ShortNumber);
  }

  /** `(ddd)ddd-dddd` fits its template and holds no whitespace. */
  lemma BracketedFits(x: string, y: string, z: string)
    requires |x| == 3 && |y| == 3 && |z| == 4 && AllDigits(x) && AllDigits(y) && AllDigits(z)
    ensures var s := "(" + x + ")" + y + "-" + z;
            FitsTemplate(s, BracketedNumber) && forall i :: 0 <= i < |s| ==> !IsSpace(s[i])
  {
    var s := "(" + x + ")" + y + "-" + z;
    forall i | 0 <= i < |s|
      ensures !IsSpace(s[i]) && (if BracketedNumber[i] == '#' then IsDigit(s[i]) else s[i] == BracketedNumber[i])
    {
      if 1 <= i < 4 { assert s[i] == x[i - 1]; }
      else if 5 <= i < 8 { assert s[i] == y[i - 5]; }
      else if i > 8 { assert s[i] == z[i - 9]; }
    }
  }

  /** Every `(ddd) ddd-dddd` number is accepted, with or without the space,
      as the message's `(555) 123-4567`. */
  lemma BracketedNumberAccepted(x: string, y: string, z: string)
    requires |x| == 3 && |y| == 3 && |z| == 4 && AllDigits(x) && AllDigits(y) && AllDigits(z)
    ensures ValidatePhone("(" + x + ")" + y + "-" + z)
    ensures ValidatePhone("(" + x + ") " + y + "-" + z)
  {
    var s := "(" + x + ")" + y + "-" + z;
    BracketedFits(x, y, z);
    StripSpacesNone(s);
    var head, tail := "(" + x + ")", y + "-" + z;
    assert s == head + tail;
    assert "(" + x + ") " + y + "-" + z == head + [' '] + tail;
    ValidatePhoneIgnoresSpace(head, ' ', tail);
  }

  /** Seven bare digits fit none of the shapes: the short form needs its
      dash. */
  lemma SevenDigitsRejected(s: string)
    requires |s| == 7 && AllDigits(s)
    ensures !ValidatePhone(s)
  {
    StripSpacesNone(s);
  }
}
