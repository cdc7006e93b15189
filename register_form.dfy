/**
 * The registration form of RegisterForm.jsx: the client-side rules,
 * the state updates of `handleChange`, `validateForm` and `handleSubmit`,
 * and the mapping of a server error onto the form. The network call is a
 * parameter: the reply of the register request.
 */
module RegisterForm {
  import opened Common
  import Errors
  import Auth

  const UsernameTooShort: string := "Usuario debe tener al menos 3 caracteres"
  const UsernameCharset: string := "Solo letras, números y guión bajo"
  const EmailInvalid: string := "Email inválido"
  const PasswordTooShort: string := "Mínimo 8 caracteres"
  const PasswordWeak: string := "Debe incluir mayúscula, minúscula y número"
  const PasswordsDiffer: string := "Las contraseñas no coinciden"
  const RegisterFallback: string := "Error al registrar usuario"

  datatype FormData = FormData(username: string, email: string, password: string, confirmPassword: string)

  datatype FieldName = Username | Email | Password | ConfirmPassword

  /** The `name` attribute of the input, which is also the key of its error. */
  function Key(f: FieldName): string
  {
    match f
    case Username => "username"
    case Email => "email"
    case Password => "password"
    case ConfirmPassword => "confirmPassword"
  }

  function Get(d: FormData, f: FieldName): string
  {
    match f
    case Username => d.username
    case Email => d.email
    case Password => d.password
    case ConfirmPassword => d.confirmPassword
  }

  /** `{ ...prev, [name]: value }`. */
  function WithField(d: FormData, f: FieldName, v: string): (r: FormData)
    ensures forall g :: Get(r, g) == (if g == f then v else Get(d, g))
  {
    match f
    case Username => d.(username := v)
    case Email => d.(email := v)
    case Password => d.(password := v)
    case ConfirmPassword => d.(confirmPassword := v)
  }

  // ---------------------------------------------------------------------------
  // The rules (RegisterForm.jsx:36-58).

  predicate IsWordChar(c: char)
  {
    IsLower(c) || IsUpper(c) || IsDigit(c) || c == '_'
  }

  /** The username's error, if any: length first, then `^[a-zA-Z0-9_]+$`. */
  function UsernameError(u: string): (e: Option<string>)
    ensures |u| < 3 ==> e == Some(UsernameTooShort)
    ensures |u| >= 3 ==> (e.None? <==> forall i :: 0 <= i < |u| ==> IsWordChar(u[i]))
    ensures |u| >= 3 && e.Some? ==> e.value == UsernameCharset
  {
    if |u| < 3 then Some(UsernameTooShort)
    else if !(forall i :: 0 <= i < |u| ==> IsWordChar(u[i])) then Some(UsernameCharset)
    else None
  }

  /** `[^\s@]+`: one or more characters, none of them whitespace or '@'. */
  predicate Plain(t: string)
  {
    |t| > 0 && forall j :: 0 <= j < |t| ==> !IsSpace(t[j]) && t[j] != '@'
  }

  /** `^[^\s@]+@[^\s@]+\.[^\s@]+$`, as a split of the whole string into its five pieces. */
  predicate EmailPattern(s: string)
  {
    exists i, k :: 0 <= i < k < |s| && Plain(s[..i]) && s[i] == '@' && Plain(s[i + 1..k]) && s[k] == '.' && Plain(s[k + 1..])
  }

  /** The same set described directly: no whitespace, one '@' not at the start, and a '.' strictly inside the domain. */
  predicate EmailShape(s: string)
  {
    && (forall j :: 0 <= j < |s| ==> !IsSpace(s[j]))
    && exists i :: 0 < i < |s| && s[i] == '@' && (forall j :: 0 <= j < |s| && s[j] == '@' ==> j == i)
         && exists k :: i + 1 < k < |s| - 1 && s[k] == '.'
  }

  lemma {:induction false} EmailPatternGivesShape(s: string, i: int, k: int)
    requires 0 <= i < k < |s| && Plain(s[..i]) && s[i] == '@' && Plain(s[i + 1..k]) && s[k] == '.' && Plain(s[k + 1..])
    ensures EmailShape(s)
  {
    forall j | 0 <= j < |s| ensures !IsSpace(s[j]) && (s[j] == '@' ==> j == i) {
      if j < i {
        assert s[..i][j] == s[j];
      } else if i < j < k {
        assert s[i + 1..k][j - i - 1] == s[j];
      } else if j > k {
        assert s[k + 1..][j - k - 1] == s[j];
      }
    }
  }

  lemma {:induction false} EmailShapeGivesPattern(s: string, i: int, k: int)
    requires forall j :: 0 <= j < |s| ==> !IsSpace(s[j])
    requires 0 < i < |s| && s[i] == '@' && (forall j :: 0 <= j < |s| && s[j] == '@' ==> j == i)
    requires i + 1 < k < |s| - 1 && s[k] == '.'
    ensures EmailPattern(s)
  {
    forall j | 0 <= j < |s[..i]| ensures !IsSpace(s[..i][j]) && s[..i][j] != '@' {
      assert s[..i][j] == s[j];
    }
    var mid, tail := s[i + 1..k], s[k + 1..];
    forall j | 0 <= j < |mid| ensures !IsSpace(mid[j]) && mid[j] != '@' {
      assert mid[j] == s[j + i + 1];
    }
    forall j | 0 <= j < |tail| ensures !IsSpace(tail[j]) && tail[j] != '@' {
      assert tail[j] == s[j + k + 1];
    }
    assert Plain(s[..i]) && Plain(s[i + 1..k]) && Plain(s[k + 1..]);
  }

  /**
   * The email pattern accepts exactly the strings without whitespace that
   * hold a single '@', not first, followed by a domain with a '.' that is
   * neither its first nor its last character.
   */
  lemma {:induction false} EmailPatternMeaning(s: string)
    ensures EmailPattern(s) <==> EmailShape(s)
  {
    if EmailPattern(s) {
      var i, k :| 0 <= i < k < |s| && Plain(s[..i]) && s[i] == '@' && Plain(s[i + 1..k]) && s[k] == '.' && Plain(s[k + 1..]);
      EmailPatternGivesShape(s, i, k);
    }
    if EmailShape(s) {
      var i :| 0 < i < |s| && s[i] == '@' && (forall j :: 0 <= j < |s| && s[j] == '@' ==> j == i)
               && exists k :: i + 1 < k < |s| - 1 && s[k] == '.';
      var k :| i + 1 < k < |s| - 1 && s[k] == '.';
      EmailShapeGivesPattern(s, i, k);
    }
  }

  /** `(?=.*P)` at position p: a character satisfying P lies ahead on the same line (`.` stops at line terminators). */
  predicate AheadOnLine(s: string, p: nat, kind: char -> bool)
  {
    exists q :: p <= q < |s| && kind(s[q]) && forall r :: p <= r < q ==> !IsLineTerminator(s[r])
  }

  /** The unanchored `(?=.*[a-z])(?=.*[A-Z])(?=.*\d)` succeeds at some position. */
  predicate PasswordPattern(s: string)
  {
    exists p :: 0 <= p <= |s| && AheadOnLine(s, p, IsLower) && AheadOnLine(s, p, IsUpper) && AheadOnLine(s, p, IsDigit)
  }

  /** The password's error, if any: length first, then the three lookaheads. */
  function PasswordError(pw: string): (e: Option<string>)
    ensures |pw| < 8 ==> e == Some(PasswordTooShort)
    ensures |pw| >= 8 ==> (e.None? <==> PasswordPattern(pw))
    ensures |pw| >= 8 && e.Some? ==> e.value == PasswordWeak
  {
    if |pw| < 8 then Some(PasswordTooShort)
    else if !PasswordPattern(pw) then Some(PasswordWeak)
    else None
  }

  /** On a single line the pattern asks for one lowercase letter, one uppercase letter and one digit, anywhere. */
  lemma {:induction false} PasswordPatternOnOneLine(s: string)
    requires forall i :: 0 <= i < |s| ==> !IsLineTerminator(s[i])
    ensures PasswordPattern(s) <==>
      (exists i :: 0 <= i < |s| && IsLower(s[i])) &&
      (exists i :: 0 <= i < |s| && IsUpper(s[i])) &&
      (exists i :: 0 <= i < |s| && IsDigit(s[i]))
  {
    if (exists i :: 0 <= i < |s| && IsLower(s[i])) &&
       (exists i :: 0 <= i < |s| && IsUpper(s[i])) &&
       (exists i :: 0 <= i < |s| && IsDigit(s[i])) {
      var a :| 0 <= a < |s| && IsLower(s[a]);
      var b :| 0 <= b < |s| && IsUpper(s[b]);
      var c :| 0 <= c < |s| && IsDigit(s[c]);
      assert AheadOnLine(s, 0, IsLower) && AheadOnLine(s, 0, IsUpper) && AheadOnLine(s, 0, IsDigit);
    }
  }

  /** No line terminator among the characters from `p` up to `e`. */
  predicate OneLine(s: string, p: int, e: int)
  {
    0 <= p <= e <= |s| && forall r :: p <= r < e ==> !IsLineTerminator(s[r])
  }

  /** The characters from `p` up to `e` lie on one line and hold a lowercase letter, an uppercase letter and a digit. */
  predicate SegmentHasAll(s: string, p: int, e: int)
  {
    && OneLine(s, p, e)
    && (exists q :: p <= q < e && IsLower(s[q]))
    && (exists q :: p <= q < e && IsUpper(s[q]))
    && (exists q :: p <= q < e && IsDigit(s[q]))
  }

  /**
   * The lookaheads only see the rest of the current line, so the pattern
   * holds exactly when one stretch of text without a line terminator holds
   * all three classes: classes split across a line break never satisfy it.
   */
  lemma {:induction false} PasswordPatternIsPerLine(s: string)
    ensures PasswordPattern(s) <==> exists p, e :: SegmentHasAll(s, p, e)
  {
    if PasswordPattern(s) {
      var p :| 0 <= p <= |s| && AheadOnLine(s, p, IsLower) && AheadOnLine(s, p, IsUpper) && AheadOnLine(s, p, IsDigit);
      var e := LookaheadsGiveSegment(s, p);
    }
    if exists p, e :: SegmentHasAll(s, p, e) {
      var p, e :| SegmentHasAll(s, p, e);
      SegmentGivesLookaheads(s, p, e);
    }
  }

  /** The match a lookahead found: the first `q` characters from `p` hold no line terminator. */
  lemma {:induction false} LookaheadMatch(s: string, p: nat, kind: char -> bool) returns (q: nat)
    requires AheadOnLine(s, p, kind)
    ensures p <= q < |s| && kind(s[q]) && OneLine(s, p, q)
    ensures !IsLineTerminator(s[q]) ==> OneLine(s, p, q + 1)
  {
    q :| p <= q < |s| && kind(s[q]) && forall r :: p <= r < q ==> !IsLineTerminator(s[r]);
  }

  /** Where the three lookaheads succeed, the text up to the farthest of their matches is one line holding all three. */
  lemma {:induction false} LookaheadsGiveSegment(s: string, p: nat) returns (e: int)
    requires p <= |s| && AheadOnLine(s, p, IsLower) && AheadOnLine(s, p, IsUpper) && AheadOnLine(s, p, IsDigit)
    ensures SegmentHasAll(s, p, e)
  {
    var q1 := LookaheadMatch(s, p, IsLower);
    var q2 := LookaheadMatch(s, p, IsUpper);
    var q3 := LookaheadMatch(s, p, IsDigit);
    assert IsLower(s[q1]) && IsUpper(s[q2]) && IsDigit(s[q3]);
    if q1 >= q2 && q1 >= q3 {
      e := q1 + 1;
    } else if q2 >= q3 {
      e := q2 + 1;
    } else {
      e := q3 + 1;
    }
    assert OneLine(s, p, e);
    assert p <= q1 < e && p <= q2 < e && p <= q3 < e;
  }

  /** A one-line stretch holding all three classes makes the three lookaheads succeed at its start. */
  lemma {:induction false} SegmentGivesLookaheads(s: string, p: int, e: int)
    requires SegmentHasAll(s, p, e)
    ensures PasswordPattern(s)
  {
    var q1 :| p <= q1 < e && IsLower(s[q1]);
    var q2 :| p <= q2 < e && IsUpper(s[q2]);
    var q3 :| p <= q3 < e && IsDigit(s[q3]);
    assert AheadOnLine(s, p, IsLower) && AheadOnLine(s, p, IsUpper) && AheadOnLine(s, p, IsDigit);
  }

  /** An instance: 'aB' and '1' on two lines do not satisfy the pattern, though all three classes occur. */

  lemma {:induction false} LineBreakDefeatsPattern()
    ensures !PasswordPattern("aB\n1cdefg")
  {
    var s := "aB\n1cdefg";
    forall q | 0 <= q < |s| ensures (IsDigit(s[q]) ==> q == 3) && (IsUpper(s[q]) ==> q == 1) {
    }
    assert IsLineTerminator(s[2]);
    forall p | 0 <= p <= |s| ensures !(AheadOnLine(s, p, IsUpper) && AheadOnLine(s, p, IsDigit)) {
      if p <= 2 {
        assert !AheadOnLine(s, p, IsDigit);
      } else {
        assert !AheadOnLine(s, p, IsUpper);
      }
    }
  }

  /** The errors `validateForm` records, keyed by field name. */
  function FormErrors(d: FormData): map<string, string>
  {
    var e1 := if UsernameError(d.username).Some? then map["username" := UsernameError(d.username).value] else map[];
    var e2 := if !EmailPattern(d.email) then e1["email" := EmailInvalid] else e1;
    var e3 := if PasswordError(d.password).Some? then e2["password" := PasswordError(d.password).value] else e2;
    if d.password != d.confirmPassword then e3["confirmPassword" := PasswordsDiffer] else e3
  }

  /** The form is accepted exactly when every rule passes. */
  predicate RulesPass(d: FormData)
  {
    UsernameError(d.username).None? && EmailPattern(d.email) && PasswordError(d.password).None?
      && d.password == d.confirmPassword
  }

  /**
   * One error per failing field and no other key; `validateForm` returns
   * true exactly when the map is empty, that is when every rule passes.
   */
  lemma {:induction false} FormErrorsMeaning(d: FormData)
    ensures var e := FormErrors(d);
      && e.Keys <= {"username", "email", "password", "confirmPassword"}
      && ("username" in e <==> UsernameError(d.username).Some?)
      && ("username" in e ==> e["username"] == UsernameError(d.username).value)
      && ("email" in e <==> !EmailPattern(d.email))
      && ("email" in e ==> e["email"] == EmailInvalid)
      && ("password" in e <==> PasswordError(d.password).Some?)
      && ("password" in e ==> e["password"] == PasswordError(d.password).value)
      && ("confirmPassword" in e <==> d.password != d.confirmPassword)
      && ("confirmPassword" in e ==> e["confirmPassword"] == PasswordsDiffer)
      && (|e| == 0 <==> RulesPass(d))
  {
    var e := FormErrors(d);
    if !RulesPass(d) {
      assert "username" in e || "email" in e || "password" in e || "confirmPassword" in e;
    }
  }

  // ---------------------------------------------------------------------------
  // Server errors (RegisterForm.jsx:90-100).

  /** The error `fetchApi` throws: `data.error` as its message and `data.details` as they came. */
  datatype ClientError = ClientError(message: string, details: Option<seq<Errors.FieldDetail>>)

  /** The error the client sees for a server answer. */
  function ClientErrorOf(body: Errors.ErrorBody): ClientError
  {
    ClientError(if body.error != "" then body.error else "Error en la petición", body.details)
  }

  /** `serverErrors[detail.field] = detail.message` for each detail in order: the last detail of a field wins. */
  function DetailsMap(details: seq<Errors.FieldDetail>): (m: map<string, string>)
    ensures forall k :: k in m <==> exists i :: 0 <= i < |details| && details[i].field == k
    decreases |details|
  {
    if details == [] then map[]
    else
      var last := details[|details| - 1];
      var prefix := details[..|details| - 1];
      var m := DetailsMap(prefix)[last.field := last.message];
      assert forall i :: 0 <= i < |prefix| ==> prefix[i] == details[i];
      m
  }

  /** Each field shows the message of its last detail. */
  lemma {:induction false} DetailsMapLastWins(details: seq<Errors.FieldDetail>, i: nat)
    requires i < |details|
    requires forall j :: i < j < |details| ==> details[j].field != details[i].field
    ensures DetailsMap(details)[details[i].field] == details[i].message
    decreases |details|
  {
    if i < |details| - 1 {
      var prefix := details[..|details| - 1];
      assert prefix[i] == details[i];
      DetailsMapLastWins(prefix, i);
    }
  }

  /** The `forEach` that builds `serverErrors`. */
  method DetailsToErrors(details: seq<Errors.FieldDetail>) returns (m: map<string, string>)
    ensures m == DetailsMap(details)
  {
    m := map[];
    for i := 0 to |details|
      invariant m == DetailsMap(details[..i])
    {
      assert details[..i + 1][..i] == details[..i];
      m := m[details[i].field := details[i].message];
    }
    assert details[..|details|] == details;
  }

  /** The field errors and general error the catch branch AS WRITTEN leaves: any `details` array, even empty, takes the field branch. */
  function ErrorStateAsWritten(err: ClientError): (st: (map<string, string>, string))
    ensures err.details.Some? ==> st.0 == DetailsMap(err.details.value) && st.1 == ""
    ensures err.details == Some([]) ==> st == (map[], "")
    ensures err.details.None? ==> st.0 == map[] && st.1 != ""
  {
    if err.details.Some? then (DetailsMap(err.details.value), "")
    else (map[], if err.message != "" then err.message else RegisterFallback)
  }

  /** The field errors and general error the catch branch leaves: non-empty details go to the fields, anything else to the general error. */
  function ErrorState(err: ClientError): (st: (map<string, string>, string))
    ensures err.details.Some? && err.details.value != [] ==> st.0 == DetailsMap(err.details.value) && st.1 == ""
    ensures !(err.details.Some? && err.details.value != []) ==>
      st.0 == map[] && st.1 == (if err.message != "" then err.message else RegisterFallback)
  {
    if err.details.Some? && err.details.value != [] then (DetailsMap(err.details.value), "")
    else (map[], if err.message != "" then err.message else RegisterFallback)
  }

  /** Something is on screen: the general alert, or a message under one of the four inputs. */
  predicate ShowsMessage(errors: map<string, string>, general: string)
  {
    general != "" ||
    exists f: FieldName :: Key(f) in errors && errors[Key(f)] != ""
  }

  /**
   * As written, the duplicate-registration error shows nothing: the server
   * sends `details: []` (the ValidationError default), an empty array is
   * truthy, so the field branch runs and sets no message at all.
   */
  lemma {:induction false} DuplicateRegistrationSilentAsWritten(development: bool)
    ensures var body := Errors.ErrorHandler(Errors.ValidationError(Auth.DuplicateUserMessage), development).body;
      var st := ErrorStateAsWritten(ClientErrorOf(body));
      !ShowsMessage(st.0, st.1)
  {
    var body := Errors.ErrorHandler(Errors.ValidationError(Auth.DuplicateUserMessage), development).body;
    Errors.DefaultDetailsAlwaysSent(Auth.DuplicateUserMessage, development);
    assert body.details == Some([]);
    var st := ErrorStateAsWritten(ClientErrorOf(body));
    assert st.0 == map[] && st.1 == "";
  }

  /**
   * With empty details treated as none, an error without field details
   * always puts a message on screen, and the duplicate-registration error
   * shows 'El usuario o email ya está registrado'.
   */
  lemma {:induction false} DuplicateRegistrationShown(err: ClientError, development: bool)
    ensures !(err.details.Some? && err.details.value != []) ==> ShowsMessage(ErrorState(err).0, ErrorState(err).1)
    ensures var body := Errors.ErrorHandler(Errors.ValidationError(Auth.DuplicateUserMessage), development).body;
      ErrorState(ClientErrorOf(body)) == (map[], Auth.DuplicateUserMessage)
  {
    Errors.DefaultDetailsAlwaysSent(Auth.DuplicateUserMessage, development);
  }

  // ---------------------------------------------------------------------------
  // The component's state.

  class Form {
    var formData: FormData
    var errors: map<string, string>
    var generalError: string
    var loading: bool
    var success: bool

    constructor ()
      ensures formData == FormData("", "", "", "") && errors == map[] && generalError == ""
      ensures !loading && !success
    {
      formData := FormData("", "", "", "");
      errors := map[];
      generalError := "";
      loading := false;
      success := false;
    }

    /**
     * `handleChange`: only the named field takes the new value; that field's
     * error, if set, is emptied and every other error stays; the general
     * error is cleared.
     */
    method HandleChange(name: FieldName, value: string)
      modifies this
      ensures formData == WithField(old(formData), name, value)
      ensures errors.Keys == old(errors).Keys
      ensures Key(name) in errors ==> errors[Key(name)] == ""
      ensures forall k :: k in errors && k != Key(name) ==> errors[k] == old(errors)[k]
      ensures generalError == ""
      ensures loading == old(loading) && success == old(success)
    {
      formData := WithField(formData, name, value);
      if Key(name) in errors && errors[Key(name)] != "" {
        errors := errors[Key(name) := ""];
      }
      generalError := "";
    }

    /** `validateForm`: records the errors of the current data and reports whether there were none. */
    method ValidateForm() returns (valid: bool)
      modifies this
      ensures errors == FormErrors(formData)
      ensures valid <==> RulesPass(formData)
      ensures formData == old(formData) && generalError == old(generalError)
      ensures loading == old(loading) && success == old(success)
    {
      ghost var d := formData;
      var newErrors: map<string, string> := map[];
      if |formData.username| < 3 {
        newErrors := newErrors["username" := UsernameTooShort];
      } else if !(forall i :: 0 <= i < |formData.username| ==> IsWordChar(formData.username[i])) {
        newErrors := newErrors["username" := UsernameCharset];
      }
      ghost var e1 := newErrors;
      assert e1 == if UsernameError(d.username).Some? then map["username" := UsernameError(d.username).value] else map[];
      if !EmailPattern(formData.email) {
        newErrors := newErrors["email" := EmailInvalid];
      }
      ghost var e2 := newErrors;
      assert e2 == if !EmailPattern(d.email) then e1["email" := EmailInvalid] else e1;
      if |formData.password| < 8 {
        newErrors := newErrors["password" := PasswordTooShort];
      } else if !PasswordPattern(formData.password) {
        newErrors := newErrors["password" := PasswordWeak];
      }
      ghost var e3 := newErrors;
      assert e3 == if PasswordError(d.password).Some? then e2["password" := PasswordError(d.password).value] else e2;
      if formData.password != formData.confirmPassword {
        newErrors := newErrors["confirmPassword" := PasswordsDiffer];
      }
      assert newErrors == if d.password != d.confirmPassword then e3["confirmPassword" := PasswordsDiffer] else e3;
      assert newErrors == FormErrors(d);
      errors := newErrors;
      FormErrorsMeaning(formData);
      valid := |newErrors| == 0;
    }

    /**
     * `handleSubmit` with the register request's outcome as a parameter
     * (`None` when it succeeds): invalid data stops before the request; a
     * success sets `success`; a failure maps its details onto the fields, or
     * shows its message.
     */
    method HandleSubmit(reply: Option<ClientError>)
      modifies this
      ensures formData == old(formData)
      ensures !RulesPass(formData) ==>
        errors == FormErrors(formData) && generalError == "" && success == old(success) && loading == old(loading)
      ensures RulesPass(formData) && reply.None? ==> success && errors == map[] && generalError == "" && !loading
      ensures RulesPass(formData) && reply.Some? ==>
        && errors == ErrorState(reply.value).0 && generalError == ErrorState(reply.value).1
        && success == old(success) && !loading
    {
      generalError := "";
      var valid := ValidateForm();
      if !valid {
        return;
      }
      loading := true;
      if reply.None? {
        success := true;
      } else {
        var err := reply.value;
        if err.details.Some? && err.details.value != [] {
          var serverErrors := DetailsToErrors(err.details.value);
          errors := serverErrors;
        } else {
          generalError := if err.message != "" then err.message else RegisterFallback;
        }
      }
      loading := false;
    }
  }
}
