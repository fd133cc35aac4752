/** The request bodies of the user endpoints and their validation: the
    creation body with its length bounds and its phone and password
    validators, and the partial-update body whose fields are each either
    left out or sent (possibly as null). The unconstrained request shapes the
    router imports are the same datatypes without the validity predicates. */
module Schemas {
  import opened Wrappers
  import opened Text
  import opened DbModels

  /** One field of a partial-update body: not sent (`Unset`, dropped by
      `dict(exclude_unset=True)`) or sent with a value, which may be null. */
  datatype Patch<T> = Unset | Set(value: T)

  /** `UserCreate`: the profile plus the plaintext password. */
  datatype UserCreate = UserCreate(
    firstName: string,
    lastName: string,
    email: string,
    phone: Option<string>,
    address: Option<string>,
    city: Option<string>,
    state: Option<string>,
    zipCode: Option<string>,
    password: string)

  /** `UserUpdate`: every profile field optional, and a field the client did
      not send is distinguished from one sent as null. */
  datatype UserUpdate = UserUpdate(
    firstName: Patch<Option<string>>,
    lastName: Patch<Option<string>>,
    email: Patch<Option<string>>,
    phone: Patch<Option<string>>,
    address: Patch<Option<string>>,
    city: Patch<Option<string>>,
    state: Patch<Option<string>>,
    zipCode: Patch<Option<string>>)

  const NoChanges: UserUpdate := UserUpdate(Unset, Unset, Unset, Unset, Unset, Unset, Unset, Unset)

  /** The patch an update body carries for column `f`. */
  function PatchOf(u: UserUpdate, f: Field): Patch<Option<string>>
  {
    match f
    case FirstName => u.firstName
    case LastName => u.lastName
    case Email => u.email
    case Phone => u.phone
    case Address => u.address
    case City => u.city
    case State => u.state
    case ZipCode => u.zipCode
  }

  /** The columns of `UserUpdate` in declaration order. */
  const UpdateFields: seq<Field> := [FirstName, LastName, Email, Phone, Address, City, State, ZipCode]

  predicate Distinct<T(==)>(s: seq<T>)
  {
    forall i, j :: 0 <= i < j < |s| ==> s[i] != s[j]
  }

  /** Every column appears in `UpdateFields`. */
  lemma UpdateFieldsComplete()
    ensures forall f: Field :: f in UpdateFields
  {
    forall f: Field ensures f in UpdateFields {
      match f
      case FirstName => assert UpdateFields[0] == f;
      case LastName => assert UpdateFields[1] == f;
      case Email => assert UpdateFields[2] == f;
      case Phone => assert UpdateFields[3] == f;
      case Address => assert UpdateFields[4] == f;
      case City => assert UpdateFields[5] == f;
      case State => assert UpdateFields[6] == f;
      case ZipCode => assert UpdateFields[7] == f;
    }
  }

  /** The sent fields among `fs`, in the order of `fs`. */
  function SentAmong(u: UserUpdate, fs: seq<Field>): (items: seq<(Field, Option<string>)>)
    requires Distinct(fs)
    ensures forall f, v :: (f, v) in items <==> f in fs && PatchOf(u, f) == Set(v)
    ensures forall i :: 0 <= i < |items| ==> items[i].0 in fs
    ensures forall i, j :: 0 <= i < j < |items| ==> items[i].0 != items[j].0
  {
    if fs == [] then []
    else
      var p := PatchOf(u, fs[0]);
      var rest := SentAmong(u, fs[1..]);
      assert fs[0] !in fs[1..];
      (if p.Set? then [(fs[0], p.value)] else []) + rest
  }

  /** `update.dict(exclude_unset=True).items()`: the fields the client sent,
      each once, with the values sent, in declaration order. */
  function SetFields(u: UserUpdate): (items: seq<(Field, Option<string>)>)
    ensures forall f, v :: (f, v) in items <==> PatchOf(u, f) == Set(v)
    ensures forall i, j :: 0 <= i < j < |items| ==> items[i].0 != items[j].0
  {
    UpdateFieldsComplete();
    SentAmong(u, UpdateFields)
  }

  /** The eight profile columns a creation body fills. */
  function CreateProfile(c: UserCreate): Profile
  {
    Profile(Some(c.firstName), Some(c.lastName), Some(c.email), c.phone, c.address, c.city, c.state, c.zipCode)
  }

  // ---------------------------------------------------------------------------
  // validate_phone

  const PhoneMessage: string := "Phone must contain only digits and formatting characters"

  /** `s.replace(c, '')` */
  function RemoveAll(s: string, c: char): (r: string)
    ensures forall x :: x in r <==> x in s && x != c
  {
    if s == [] then []
    else (if s[0] == c then [] else [s[0]]) + RemoveAll(s[1..], c)
  }

  /** The phone number with `-`, `(`, `)` and spaces removed, in that order. */
  function PhoneDigits(v: string): string
  {
    RemoveAll(RemoveAll(RemoveAll(RemoveAll(v, '-'), '('), ')'), ' ')
  }

  predicate IsPhoneFormatting(c: char)
  {
    c == '-' || c == '(' || c == ')' || c == ' '
  }

  /** Python's `str.isdigit()`: at least one character, all of them digits. */
  predicate IsDigitString(s: string)
  {
    |s| > 0 && AllDigits(s)
  }

  /** The `phone` validator: a missing or empty phone passes, otherwise what
      remains after removing the formatting characters must be digits. */
  function ValidatePhone(v: Option<string>): Result<Option<string>, string>
  {
    if v.Some? && v.value != "" && !IsDigitString(PhoneDigits(v.value)) then Failure(PhoneMessage)
    else Success(v)
  }

  /** A non-empty phone passes exactly when it is made of digits and
      formatting characters and holds at least one digit. */
  lemma ValidatePhoneAccepts(s: string)
    ensures ValidatePhone(Some(s)).Success? <==>
      s == [] || ((forall k :: 0 <= k < |s| ==> IsDigit(s[k]) || IsPhoneFormatting(s[k]))
                  && exists k :: 0 <= k < |s| && IsDigit(s[k]))
  {
    var d := PhoneDigits(s);
    assert forall x :: x in d <==> x in s && !IsPhoneFormatting(x);
    if s != [] {
      if IsDigitString(d) {
        forall k | 0 <= k < |s| ensures IsDigit(s[k]) || IsPhoneFormatting(s[k]) {
          if !IsPhoneFormatting(s[k]) {
            assert s[k] in d;
          }
        }
        assert d[0] in s;
      }
      if (forall k :: 0 <= k < |s| ==> IsDigit(s[k]) || IsPhoneFormatting(s[k]))
         && exists k :: 0 <= k < |s| && IsDigit(s[k]) {
        var k :| 0 <= k < |s| && IsDigit(s[k]);
        assert s[k] in d;
        forall i | 0 <= i < |d| ensures IsDigit(d[i]) {
          assert d[i] in s;
        }
      }
    }
  }

  /** The phone validator passes the value through unchanged. */
  lemma ValidatePhoneKeepsValue(v: Option<string>)
    ensures ValidatePhone(v).Success? ==> ValidatePhone(v).value == v
    ensures v.None? || v == Some("") ==> ValidatePhone(v).Success?
  {
  }

  // ---------------------------------------------------------------------------
  // password

  const PasswordTooShortMessage: string := "Password must be at least 8 characters long"
  const PasswordNoDigitMessage: string := "Password must contain at least one digit"
  const PasswordNoLetterMessage: string := "Password must contain at least one letter"
  const FieldTooShortMessage: string := "String should have at least 8 characters"
  const FieldTooLongMessage: string := "String should have at most 100 characters"

  predicate HasDigit(v: string)
  {
    exists k :: 0 <= k < |v| && IsDigit(v[k])
  }

  predicate HasLetter(v: string)
  {
    exists k :: 0 <= k < |v| && IsLetter(v[k])
  }

  /** The `password` validator: length first, then a digit, then a letter. */
  function ValidatePassword(v: string): Result<string, string>
  {
    if |v| < 8 then Failure(PasswordTooShortMessage)
    else if !HasDigit(v) then Failure(PasswordNoDigitMessage)
    else if !HasLetter(v) then Failure(PasswordNoLetterMessage)
    else Success(v)
  }

  /** The password field: the `Field(min_length=8, max_length=100)` bounds
      are checked before the validator runs. */
  function PasswordField(v: string): (r: Result<string, string>)
    ensures r.Success? <==> 8 <= |v| <= 100 && HasDigit(v) && HasLetter(v)
    ensures r.Success? ==> r.value == v
  {
    if |v| < 8 then Failure(FieldTooShortMessage)
    else if |v| > 100 then Failure(FieldTooLongMessage)
    else ValidatePassword(v)
  }

  /** Because the field bounds run first, the validator's own length message
      is never what a client sees. */
  lemma PasswordLengthMessageUnreachable(v: string)
    ensures PasswordField(v) != Failure(PasswordTooShortMessage)
  {
    assert FieldTooShortMessage != PasswordTooShortMessage by {
      assert FieldTooShortMessage[0] != PasswordTooShortMessage[0];
    }
  }

  /** The validators report the first failing check: a short password is
      reported as short whatever it contains, and one without a digit as
      such whether or not it holds a letter. */
  lemma ValidatePasswordOrder(v: string)
    ensures |v| < 8 ==> ValidatePassword(v) == Failure(PasswordTooShortMessage)
    ensures |v| >= 8 && !HasDigit(v) ==> ValidatePassword(v) == Failure(PasswordNoDigitMessage)
    ensures ValidatePassword(v).Success? <==> |v| >= 8 && HasDigit(v) && HasLetter(v)
  {
  }

  // ---------------------------------------------------------------------------
  // The declared bounds of the bodies

  predicate LengthBetween(s: string, min: nat, max: nat)
  {
    min <= |s| <= max
  }

  /** `UserBase`: names of 1 to 100 characters, the optional columns within
      their bounds, and a phone the phone validator accepts. */
  predicate ValidUserBase(c: UserCreate)
  {
    && LengthBetween(c.firstName, 1, 100) && LengthBetween(c.lastName, 1, 100)
    && FitsIn(c.phone, 20) && FitsIn(c.address, 255) && FitsIn(c.city, 100)
    && FitsIn(c.state, 2) && FitsIn(c.zipCode, 10)
    && ValidatePhone(c.phone).Success?
  }

  /** `UserCreate`: a valid base plus a password the password field accepts. */
  predicate ValidUserCreate(c: UserCreate)
  {
    ValidUserBase(c) && PasswordField(c.password).Success?
  }

  predicate PatchFits(p: Patch<Option<string>>, min: nat, max: nat)
  {
    p.Unset? || p.value.None? || LengthBetween(p.value.value, min, max)
  }

  /** `UserUpdate`: each sent, non-null value within the same bounds as in
      `UserBase`; the phone validator does not apply, since `UserUpdate` does
      not inherit from `UserBase`. */
  predicate ValidUserUpdate(u: UserUpdate)
  {
    && PatchFits(u.firstName, 1, 100) && PatchFits(u.lastName, 1, 100)
    && PatchFits(u.phone, 0, 20) && PatchFits(u.address, 0, 255) && PatchFits(u.city, 0, 100)
    && PatchFits(u.state, 0, 2) && PatchFits(u.zipCode, 0, 10)
  }

  /** An update body may carry a phone the creation body would refuse. */
  lemma UpdateSkipsPhoneValidator()
    ensures var u := NoChanges.(phone := Set(Some("x")));
      ValidUserUpdate(u) && ValidatePhone(Some("x")).Failure?
  {
    assert PhoneDigits("x") == "x";
  }

  /** The creation body's bounds are within the columns' bounds: a valid
      body whose email fits its column yields a profile every column accepts. */
  lemma CreateBoundsFitColumns(c: UserCreate, hashedPassword: Option<string>)
    requires ValidUserBase(c) && |c.email| <= 255
    requires FitsIn(hashedPassword, HashedPasswordMaxLength)
    ensures forall id, s, t0, t1 :: RowError(User(id, CreateProfile(c), hashedPassword, s, t0, t1)) == None
  {
  }
}
