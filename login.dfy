// The sign-in screen (views/Login.tsx): the PIN boxes that keep only digits,
// the validations run on submit in their fixed order, the sign-up toggle and the
// admin/employee tabs. The one-second delay before the validations run is the gap
// between `Submit` and `Complete`; the values validated are those `Submit` captured.

module Login {
  import opened Types
  import opened Seqs
  import Text

  function IsDigitChar(c: char): bool { Text.IsDigit(c) }

  /** A value the PIN boxes can hold: digits only, at most six of them. */
  predicate PinShaped(pin: string)
  {
    |pin| <= 6 && forall i :: 0 <= i < |pin| ==> Text.IsDigit(pin[i])
  }

  /** `value.replace(/[^0-9]/g, '').slice(0, 6)`: the first six digits typed, in order. */
  function SanitizePin(value: string): (r: string)
    ensures PinShaped(r)
    ensures |r| == Min(|Filter(IsDigitChar, value)|, 6)
    ensures r == Filter(IsDigitChar, value)[..|r|]
    ensures forall c :: c in r ==> c in value
  {
    var digits := Filter(IsDigitChar, value);
    assert forall i :: 0 <= i < |digits| ==> digits[i] in digits;
    digits[..Min(|digits|, 6)]
  }

  /** A value is kept exactly as typed when it is already at most six digits. */
  lemma SanitizeFixpoint(value: string)
    ensures SanitizePin(value) == value <==> PinShaped(value)
  {
    FilterAllPass(IsDigitChar, value);
  }

  /** A value of digits only is cut to its first six. */
  lemma SanitizeDigits(value: string)
    requires forall i :: 0 <= i < |value| ==> Text.IsDigit(value[i])
    ensures SanitizePin(value) == value[..Min(|value|, 6)]
  {
    FilterAllPass(IsDigitChar, value);
  }

  /** A character that is not a digit is ignored wherever it is typed. */
  lemma SanitizeIgnoresNonDigit(u: string, c: char, v: string)
    requires !Text.IsDigit(c)
    ensures SanitizePin(u + [c] + v) == SanitizePin(u + v)
  {
    FilterAppend(IsDigitChar, u + [c], v);
    FilterAppend(IsDigitChar, u, [c]);
    FilterAppend(IsDigitChar, u, v);
    assert Filter(IsDigitChar, [c]) == [];
    assert Filter(IsDigitChar, u) + [] == Filter(IsDigitChar, u);
  }

  /** Sanitising twice is sanitising once. */
  lemma SanitizeIdempotent(value: string)
    ensures SanitizePin(SanitizePin(value)) == SanitizePin(value)
  {
    SanitizeFixpoint(SanitizePin(value));
  }

  const EmployeeIdRequired := "Employee ID is required."
  const PinLength := "PIN must be between 4 and 6 digits."
  const PinMismatch := "PINs do not match."
  const BadCredentials := "Please check your credentials."

  /** The validations the delayed submit runs, in order; the first that fails gives its message,
      and `None` means the sign-in goes ahead. */
  function Validate(mode: LoginMode, isSignup: bool, email: string, password: string,
                    empId: string, empPin: string, confirmPin: string): (r: Option<string>)
    ensures mode == EmployeeMode ==>
      (r == Some(EmployeeIdRequired) <==> Text.Trim(empId) == "")
    ensures mode == EmployeeMode && Text.Trim(empId) != "" ==>
      (r == Some(PinLength) <==> |empPin| < 4)
    ensures mode == EmployeeMode && Text.Trim(empId) != "" && |empPin| >= 4 ==>
      (r == Some(PinMismatch) <==> isSignup && empPin != confirmPin)
    ensures mode == EmployeeMode ==>
      (r.None? <==> Text.Trim(empId) != "" && |empPin| >= 4 && (isSignup ==> empPin == confirmPin))
    ensures mode == AdminMode ==>
      (r.None? <==> email != "" && |password| >= 4) && (r.Some? ==> r.value == BadCredentials)
  {
    match mode
    case EmployeeMode =>
      if Text.Trim(empId) == "" then Some(EmployeeIdRequired)
      else if |empPin| < 4 then Some(PinLength)
      else if isSignup && empPin != confirmPin then Some(PinMismatch)
      else None
    case AdminMode =>
      if email == "" || |password| < 4 then Some(BadCredentials) else None
  }

  /** An employee sign-in that passes has a PIN of four to six digits, when the PIN came
      through the PIN box. */
  lemma EmployeePinAccepted(isSignup: bool, email: string, password: string, empId: string,
                            empPin: string, confirmPin: string)
    requires PinShaped(empPin)
    requires Validate(EmployeeMode, isSignup, email, password, empId, empPin, confirmPin).None?
    ensures 4 <= |empPin| <= 6
    ensures forall i :: 0 <= i < |empPin| ==> Text.IsDigit(empPin[i])
  {
  }

  /** The values the delayed submit validates: the form's fields when submit was pressed. */
  datatype Submitted = Submitted(mode: LoginMode, isSignup: bool, email: string, password: string,
                                 empId: string, empPin: string, confirmPin: string)

  /** Which PIN box a keystroke goes to. */
  datatype PinField = PinEntry | ConfirmEntry

  /** The sign-in form's state. The name, organisation and display-name boxes of the sign-up
      form are not consulted by any validation and are not modelled. */
  class LoginForm {
    var mode: LoginMode
    var isSignup: bool
    var email: string
    var password: string
    var empId: string
    var empPin: string
    var confirmPin: string
    var loading: bool
    var error: string

    /** Both PIN boxes only ever hold what the sanitiser lets through. */
    ghost predicate Valid()
      reads this
    {
      PinShaped(empPin) && PinShaped(confirmPin)
    }

    constructor ()
      ensures Valid()
      ensures mode == AdminMode && !isSignup
      ensures email == "admin@techcorp.com" && password == ""
      ensures empId == "emp-101" && empPin == "" && confirmPin == ""
      ensures !loading && error == ""
    {
      mode := AdminMode;
      isSignup := false;
      email := "admin@techcorp.com";
      password := "";
      empId := "emp-101";
      empPin := "";
      confirmPin := "";
      loading := false;
      error := "";
    }

    /** A keystroke in a PIN box: the box keeps the sanitised value. */
    method PinChange(field: PinField, value: string)
      requires Valid()
      modifies this
      ensures Valid()
      ensures field == PinEntry ==> empPin == SanitizePin(value) && confirmPin == old(confirmPin)
      ensures field == ConfirmEntry ==> confirmPin == SanitizePin(value) && empPin == old(empPin)
      ensures mode == old(mode) && isSignup == old(isSignup) && email == old(email)
      ensures password == old(password) && empId == old(empId)
      ensures loading == old(loading) && error == old(error)
    {
      match field
      case PinEntry => empPin := SanitizePin(value);
      case ConfirmEntry => confirmPin := SanitizePin(value);
    }

    method SetEmail(value: string)
      modifies this
      ensures email == value
      ensures mode == old(mode) && isSignup == old(isSignup) && password == old(password)
      ensures empId == old(empId) && empPin == old(empPin) && confirmPin == old(confirmPin)
      ensures loading == old(loading) && error == old(error)
    {
      email := value;
    }

    method SetPassword(value: string)
      modifies this
      ensures password == value
      ensures mode == old(mode) && isSignup == old(isSignup) && email == old(email)
      ensures empId == old(empId) && empPin == old(empPin) && confirmPin == old(confirmPin)
      ensures loading == old(loading) && error == old(error)
    {
      password := value;
    }

    method SetEmpId(value: string)
      modifies this
      ensures empId == value
      ensures mode == old(mode) && isSignup == old(isSignup) && email == old(email)
      ensures password == old(password) && empPin == old(empPin) && confirmPin == old(confirmPin)
      ensures loading == old(loading) && error == old(error)
    {
      empId := value;
    }

    /** A tab switches the form and clears the message; what was typed stays. */
    method SelectTab(m: LoginMode)
      modifies this
      ensures mode == m && error == ""
      ensures isSignup == old(isSignup) && email == old(email) && password == old(password)
      ensures empId == old(empId) && empPin == old(empPin) && confirmPin == old(confirmPin)
      ensures loading == old(loading)
    {
      mode := m;
      error := "";
    }

    /** Switching between sign-in and sign-up clears the message and every secret, and keeps
        the email and the employee id. */
    method ToggleSignup()
      modifies this
      ensures Valid()
      ensures isSignup == !old(isSignup)
      ensures error == "" && password == "" && empPin == "" && confirmPin == ""
      ensures mode == old(mode) && email == old(email) && empId == old(empId)
      ensures loading == old(loading)
    {
      isSignup := !isSignup;
      error := "";
      password := "";
      empPin := "";
      confirmPin := "";
    }

    /** Pressing the submit button: the message clears and the form shows it is busy. The
        delayed part runs later on `sub`, the fields as they are now: the timer's callback
        captures them, and the tabs and boxes stay live while it waits. */
    method Submit() returns (sub: Submitted)
      requires Valid()
      modifies this
      ensures Valid()
      ensures sub == Submitted(mode, isSignup, email, password, empId, empPin, confirmPin)
      ensures PinShaped(sub.empPin) && PinShaped(sub.confirmPin)
      ensures error == "" && loading
      ensures mode == old(mode) && isSignup == old(isSignup) && email == old(email)
      ensures password == old(password) && empId == old(empId)
      ensures empPin == old(empPin) && confirmPin == old(confirmPin)
    {
      error := "";
      loading := true;
      sub := Submitted(mode, isSignup, email, password, empId, empPin, confirmPin);
    }

    /** The delayed part of the submit: the validations run on the submitted values, whatever
        the form holds by now. The user is signed in, in the submitted mode, exactly when no
        validation fails; otherwise the first failing validation's message is shown. Either way
        the form stops being busy, and no field changes. */
    method Complete(sub: Submitted) returns (signedIn: Option<LoginMode>)
      modifies this
      ensures var v := Validate(sub.mode, sub.isSignup, sub.email, sub.password, sub.empId,
                                sub.empPin, sub.confirmPin);
        (signedIn.Some? <==> v.None?) &&
        (signedIn.Some? ==> signedIn.value == sub.mode && error == old(error)) &&
        (v.Some? ==> error == v.value)
      ensures signedIn == Some(EmployeeMode) && PinShaped(sub.empPin) ==> 4 <= |sub.empPin| <= 6
      ensures !loading
      ensures mode == old(mode) && isSignup == old(isSignup) && email == old(email)
      ensures password == old(password) && empId == old(empId)
      ensures empPin == old(empPin) && confirmPin == old(confirmPin)
    {
      var v := Validate(sub.mode, sub.isSignup, sub.email, sub.password, sub.empId, sub.empPin,
                        sub.confirmPin);
      loading := false;
      if v.Some? {
        error := v.value;
        signedIn := None;
      } else {
        if sub.mode == EmployeeMode && PinShaped(sub.empPin) {
          EmployeePinAccepted(sub.isSignup, sub.email, sub.password, sub.empId, sub.empPin,
                              sub.confirmPin);
        }
        signedIn := Some(sub.mode);
      }
    }
  }
}
