/**
 * The profile form of the welcome page: the front-end validation of its four
 * fields and the condition that enables its submit button.
 */
module Welcome {
  import opened Wrappers

  const MinLength := 4
  const MaxLength := 50
  const PhoneField := "PhoneNumber"

  /** A character of the class `[a-zA-ZÀ-ÿ]`, code points U+00C0 to U+00FF included. */
  predicate IsFormLetter(c: char) {
    ('a' <= c <= 'z') || ('A' <= c <= 'Z') || ('À' <= c <= 'ÿ')
  }

  predicate IsDigit(c: char) {
    '0' <= c <= '9'
  }

  /** `/^[a-zA-ZÀ-ÿ]+$/.test(v)`: one or more characters, all of the class. */
  predicate OnlyLetters(v: string) {
    |v| > 0 && forall i :: 0 <= i < |v| ==> IsFormLetter(v[i])
  }

  /** `/^[0-9]+$/.test(v)`. */
  predicate OnlyDigits(v: string) {
    |v| > 0 && forall i :: 0 <= i < |v| ==> IsDigit(v[i])
  }

  /** The character class a field must keep to: digits for the phone number, letters otherwise. */
  predicate CharactersAllowed(value: string, fieldName: string) {
    if fieldName == PhoneField then OnlyDigits(value) else OnlyLetters(value)
  }

  /**
   * The error message for `value` in the field `fieldName`, or None when the
   * value is accepted. The checks apply in order and the first that fails decides.
   */
  function ValidateInput(value: string, fieldName: string): (r: Option<string>)
    ensures r.None? <==> MinLength <= |value| <= MaxLength && CharactersAllowed(value, fieldName)
    ensures value == [] ==> r == Some(fieldName + " is required")
    ensures 0 < |value| < MinLength ==> r == Some(fieldName + " must be at least 4 characters long")
    ensures |value| > MaxLength ==> r == Some(fieldName + " must be less than 50 characters long")
    ensures MinLength <= |value| <= MaxLength && fieldName != PhoneField && !OnlyLetters(value)
            ==> r == Some(fieldName + " can only contain letters")
    ensures MinLength <= |value| <= MaxLength && fieldName == PhoneField && !OnlyDigits(value)
            ==> r == Some(fieldName + " can only contain numbers")
  {
    if value == [] then
      Some(fieldName + " is required")
    else if |value| < MinLength then
      Some(fieldName + " must be at least 4 characters long")
    else if |value| > MaxLength then
      Some(fieldName + " must be less than 50 characters long")
    else if !OnlyLetters(value) && fieldName != PhoneField then
      Some(fieldName + " can only contain letters")
    else if !OnlyDigits(value) && fieldName == PhoneField then
      Some(fieldName + " can only contain numbers")
    else
      None
  }

  /** The submit button is disabled while any of the four fields has a message. */
  function SubmitDisabled(firstName: string, lastName: string, speciality: string, phoneNumber: string): (r: bool)
    ensures !r <==> (CharactersAllowed(firstName, "Name") && MinLength <= |firstName| <= MaxLength)
                    && (CharactersAllowed(lastName, "Lastname") && MinLength <= |lastName| <= MaxLength)
                    && (CharactersAllowed(speciality, "Speciality") && MinLength <= |speciality| <= MaxLength)
                    && (OnlyDigits(phoneNumber) && MinLength <= |phoneNumber| <= MaxLength)
  {
    ValidateInput(firstName, "Name").Some?
    || ValidateInput(lastName, "Lastname").Some?
    || ValidateInput(speciality, "Speciality").Some?
    || ValidateInput(phoneNumber, PhoneField).Some?
  }

  /** A value of exactly fifty characters passes the length checks. */
  lemma FiftyCharactersAccepted(value: string)
    requires |value| == MaxLength && OnlyLetters(value)
    ensures ValidateInput(value, "Name") == None
  {
  }

  /**
   * The range `À-ÿ` of the letter class also holds U+00D7 (×) and U+00F7 (÷),
   * so a name made of letters and these signs is accepted.
   */
  lemma {:induction false} LetterClassAdmitsSigns(prefix: string)
    requires |prefix| == 3 && OnlyLetters(prefix)
    ensures ValidateInput(prefix + "×", "Name") == None
    ensures ValidateInput(prefix + "÷", "Lastname") == None
  {
    var a, b := prefix + "×", prefix + "÷";
    assert forall i :: 0 <= i < |a| ==> IsFormLetter(a[i]) by {
      forall i | 0 <= i < |a| ensures IsFormLetter(a[i]) {
        if i < 3 { assert a[i] == prefix[i]; }
      }
    }
    assert forall i :: 0 <= i < |b| ==> IsFormLetter(b[i]) by {
      forall i | 0 <= i < |b| ensures IsFormLetter(b[i]) {
        if i < 3 { assert b[i] == prefix[i]; }
      }
    }
  }

  /** A phone number with a letter in it draws the numbers message, never the letters one. */
  lemma PhoneNumberSkipsLetterCheck(value: string, k: nat)
    requires MinLength <= |value| <= MaxLength && k < |value| && !IsDigit(value[k])
    ensures ValidateInput(value, PhoneField) == Some(PhoneField + " can only contain numbers")
  {
  }
}
