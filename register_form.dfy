/**
 * The sign-up form: the issues its schema reports for each field, the message shown
 * under each field, and what a submission sends, shows and where it leads.
 */
module RegisterForm {
  import opened Types

  datatype RegisterValues = RegisterValues(name: string, email: string, password: string, confirmPassword: string)

  datatype Field = NameField | EmailField | PasswordField | ConfirmPasswordField

  /** One schema failure: the field it is reported on and its message. */
  datatype Issue = Issue(path: Field, message: string)

  const NameMin := 2
  const NameMax := 50
  const PasswordMin := 6
  const PasswordMax := 72

  const NameTooShort := "Name must be at least 2 characters."
  const NameTooLong := "Name must be at most 50 characters."
  const EmailInvalid := "Please enter a valid email address."
  const PasswordTooShort := "Password must be at least 6 characters."
  const PasswordTooLong := "Password must be at most 72 characters."
  const PasswordsDiffer := "Passwords do not match."

  /** A `.min(lo).max(hi)` string check on one field: each bound adds its message when it fails. */
  function LengthIssues(path: Field, s: string, lo: nat, hi: nat, tooShort: string, tooLong: string): seq<Issue>
  {
    (if |s| < lo then [Issue(path, tooShort)] else []) + (if |s| > hi then [Issue(path, tooLong)] else [])
  }

  /**
   * The schema's issues in the order they are reported: the fields in declaration
   * order, then the refinement that compares the two passwords, which reports on
   * `confirmPassword`. `emailValid` is the outcome of the email format check.
   */
  function Issues(v: RegisterValues, emailValid: bool): (issues: seq<Issue>)
    ensures issues == [] <==>
      NameMin <= |v.name| <= NameMax && emailValid &&
      PasswordMin <= |v.password| <= PasswordMax && v.password == v.confirmPassword
    ensures Issue(ConfirmPasswordField, PasswordsDiffer) in issues <==> v.password != v.confirmPassword
    ensures forall k :: 0 <= k < |issues| && issues[k].path == ConfirmPasswordField ==>
      issues[k].message == PasswordsDiffer
  {
    LengthIssues(NameField, v.name, NameMin, NameMax, NameTooShort, NameTooLong) +
    (if emailValid then [] else [Issue(EmailField, EmailInvalid)]) +
    LengthIssues(PasswordField, v.password, PasswordMin, PasswordMax, PasswordTooShort, PasswordTooLong) +
    (if v.password == v.confirmPassword then [] else [Issue(ConfirmPasswordField, PasswordsDiffer)])
  }

  /** The values `handleSubmit` passes on to `onSubmit`: those the schema reports nothing for. */
  predicate Accepted(v: RegisterValues, emailValid: bool): (b: bool)
    ensures b <==>
      NameMin <= |v.name| <= NameMax && emailValid &&
      PasswordMin <= |v.password| <= PasswordMax && v.password == v.confirmPassword
  {
    Issues(v, emailValid) == []
  }

  /** The message shown under a field: the first issue reported on its path. */
  function FirstError(issues: seq<Issue>, path: Field): (m: Option<string>)
    ensures m.None? <==> forall k :: 0 <= k < |issues| ==> issues[k].path != path
    ensures m.Some? ==>
      (exists k :: 0 <= k < |issues| && issues[k] == Issue(path, m.value) &&
        (forall j :: 0 <= j < k ==> issues[j].path != path))
  {
    if issues == [] then None
    else if issues[0].path == path then Some(issues[0].message)
    else
      var rest := FirstError(issues[1..], path);
      if rest.Some? then
        var k :| 0 <= k < |issues[1..]| && issues[1..][k] == Issue(path, rest.value) &&
          (forall j :: 0 <= j < k ==> issues[1..][j].path != path);
        assert issues[k + 1] == Issue(path, rest.value);
        rest
      else rest
  }

  /** The first issue of a concatenation comes from its first part when that part has one. */
  lemma {:induction false} FirstErrorAppend(a: seq<Issue>, b: seq<Issue>, path: Field)
    ensures FirstError(a + b, path) == if FirstError(a, path).Some? then FirstError(a, path) else FirstError(b, path)
  {
    if a == [] {
      assert a + b == b;
    } else {
      assert (a + b)[0] == a[0];
      assert (a + b)[1..] == a[1..] + b;
      FirstErrorAppend(a[1..], b, path);
    }
  }

  /** A length check reports only on its own field, and first the bound that fails. */
  lemma LengthFirstError(path: Field, s: string, lo: nat, hi: nat, tooShort: string, tooLong: string, q: Field)
    requires lo <= hi
    ensures FirstError(LengthIssues(path, s, lo, hi, tooShort, tooLong), q) ==
      if q != path then None else if |s| < lo then Some(tooShort) else if |s| > hi then Some(tooLong) else None
  {
  }

  /** The field's message comes from the first of the four checks that reports on it. */
  lemma IssuesFirstError(v: RegisterValues, emailValid: bool, path: Field)
    ensures var name := LengthIssues(NameField, v.name, NameMin, NameMax, NameTooShort, NameTooLong);
      var email: seq<Issue> := if emailValid then [] else [Issue(EmailField, EmailInvalid)];
      var password := LengthIssues(PasswordField, v.password, PasswordMin, PasswordMax, PasswordTooShort, PasswordTooLong);
      var confirm: seq<Issue> := if v.password == v.confirmPassword then [] else [Issue(ConfirmPasswordField, PasswordsDiffer)];
      FirstError(Issues(v, emailValid), path) ==
        if FirstError(name, path).Some? then FirstError(name, path)
        else if FirstError(email, path).Some? then FirstError(email, path)
        else if FirstError(password, path).Some? then FirstError(password, path)
        else FirstError(confirm, path)
  {
    var name := LengthIssues(NameField, v.name, NameMin, NameMax, NameTooShort, NameTooLong);
    var email: seq<Issue> := if emailValid then [] else [Issue(EmailField, EmailInvalid)];
    var password := LengthIssues(PasswordField, v.password, PasswordMin, PasswordMax, PasswordTooShort, PasswordTooLong);
    var confirm: seq<Issue> := if v.password == v.confirmPassword then [] else [Issue(ConfirmPasswordField, PasswordsDiffer)];
    FirstErrorAppend(name + email + password, confirm, path);
    FirstErrorAppend(name + email, password, path);
    FirstErrorAppend(name, email, path);
  }

  lemma NameMessage(v: RegisterValues, emailValid: bool)
    ensures FirstError(Issues(v, emailValid), NameField) ==
      if |v.name| < NameMin then Some(NameTooShort) else if |v.name| > NameMax then Some(NameTooLong) else None
  {
    IssuesFirstError(v, emailValid, NameField);
    LengthFirstError(NameField, v.name, NameMin, NameMax, NameTooShort, NameTooLong, NameField);
    LengthFirstError(PasswordField, v.password, PasswordMin, PasswordMax, PasswordTooShort, PasswordTooLong, NameField);
  }

  lemma EmailMessage(v: RegisterValues, emailValid: bool)
    ensures FirstError(Issues(v, emailValid), EmailField) == if emailValid then None else Some(EmailInvalid)
  {
    IssuesFirstError(v, emailValid, EmailField);
    LengthFirstError(NameField, v.name, NameMin, NameMax, NameTooShort, NameTooLong, EmailField);
    LengthFirstError(PasswordField, v.password, PasswordMin, PasswordMax, PasswordTooShort, PasswordTooLong, EmailField);
  }

  lemma PasswordMessage(v: RegisterValues, emailValid: bool)
    ensures FirstError(Issues(v, emailValid), PasswordField) ==
      if |v.password| < PasswordMin then Some(PasswordTooShort)
      else if |v.password| > PasswordMax then Some(PasswordTooLong)
      else None
  {
    IssuesFirstError(v, emailValid, PasswordField);
    LengthFirstError(NameField, v.name, NameMin, NameMax, NameTooShort, NameTooLong, PasswordField);
    LengthFirstError(PasswordField, v.password, PasswordMin, PasswordMax, PasswordTooShort, PasswordTooLong, PasswordField);
  }

  lemma ConfirmPasswordMessage(v: RegisterValues, emailValid: bool)
    ensures FirstError(Issues(v, emailValid), ConfirmPasswordField) ==
      if v.password == v.confirmPassword then None else Some(PasswordsDiffer)
  {
    IssuesFirstError(v, emailValid, ConfirmPasswordField);
    LengthFirstError(NameField, v.name, NameMin, NameMax, NameTooShort, NameTooLong, ConfirmPasswordField);
    LengthFirstError(PasswordField, v.password, PasswordMin, PasswordMax, PasswordTooShort, PasswordTooLong, ConfirmPasswordField);
  }

  /** Each field shows the message of its first failing check, and nothing when its checks pass. */
  lemma FieldMessages(v: RegisterValues, emailValid: bool)
    ensures FirstError(Issues(v, emailValid), NameField) ==
      if |v.name| < NameMin then Some(NameTooShort) else if |v.name| > NameMax then Some(NameTooLong) else None
    ensures FirstError(Issues(v, emailValid), EmailField) == if emailValid then None else Some(EmailInvalid)
    ensures FirstError(Issues(v, emailValid), PasswordField) ==
      if |v.password| < PasswordMin then Some(PasswordTooShort)
      else if |v.password| > PasswordMax then Some(PasswordTooLong)
      else None
    ensures FirstError(Issues(v, emailValid), ConfirmPasswordField) ==
      if v.password == v.confirmPassword then None else Some(PasswordsDiffer)
  {
    NameMessage(v, emailValid);
    EmailMessage(v, emailValid);
    PasswordMessage(v, emailValid);
    ConfirmPasswordMessage(v, emailValid);
  }

  // ---------------------------------------------------------------------------
  // Submission

  /** What `signUp` is called with: the name travels as the user's `full_name` metadata. */
  datatype SignUpRequest = SignUpRequest(email: string, password: string, fullName: string)

  /** How `signUp` settles: no error, an error object with a message, or a rejection. */
  datatype SignUpReply = SignedUp | SignUpError(message: string) | SignUpThrew

  const DashboardPath := "/dashboard"
  const WelcomeMessage := "Registration successful! Welcome aboard."
  const UnexpectedMessage := "An unexpected error occurred. Please try again."

  class RegisterFormState {
    var isLoading: bool
    var errors: seq<Issue>
    var toasts: seq<Toast>
    var location: string

    constructor (location: string)
      ensures !isLoading && errors == [] && toasts == [] && this.location == location
    {
      isLoading := false;
      errors := [];
      toasts := [];
      this.location := location;
    }

    /**
     * `onSubmit`: sends the sign-up request; an error reply is shown and the page
     * stays, success is welcomed and leads to the dashboard, a rejection is shown as
     * the generic failure.
     */
    method OnSubmit(data: RegisterValues, reply: SignUpReply) returns (sent: SignUpRequest)
      modifies this`isLoading, this`toasts, this`location
      ensures sent == SignUpRequest(data.email, data.password, data.name)
      ensures !isLoading
      ensures reply.SignedUp? ==> toasts == old(toasts) + [SuccessToast(WelcomeMessage)] && location == DashboardPath
      ensures reply.SignUpError? ==> toasts == old(toasts) + [ErrorToast(reply.message)] && location == old(location)
      ensures reply.SignUpThrew? ==> toasts == old(toasts) + [ErrorToast(UnexpectedMessage)] && location == old(location)
    {
      isLoading := true;
      sent := SignUpRequest(data.email, data.password, data.name);
      match reply {
        case SignUpError(message) =>
          toasts := toasts + [ErrorToast(message)];
        case SignedUp =>
          toasts := toasts + [SuccessToast(WelcomeMessage)];
          location := DashboardPath;
        case SignUpThrew =>
          toasts := toasts + [ErrorToast(UnexpectedMessage)];
      }
      isLoading := false;
    }

    /**
     * The form's submit handler: with issues, they are kept for display and nothing is
     * sent; without, the errors clear and `onSubmit` runs.
     */
    method HandleSubmit(data: RegisterValues, emailValid: bool, reply: SignUpReply) returns (sent: Option<SignUpRequest>)
      modifies this`isLoading, this`errors, this`toasts, this`location
      ensures !Accepted(data, emailValid) ==>
        sent == None && errors == Issues(data, emailValid) &&
        toasts == old(toasts) && location == old(location) && isLoading == old(isLoading)
      ensures Accepted(data, emailValid) ==>
        sent == Some(SignUpRequest(data.email, data.password, data.name)) && errors == [] && !isLoading
      ensures Accepted(data, emailValid) && reply.SignedUp? ==>
        toasts == old(toasts) + [SuccessToast(WelcomeMessage)] && location == DashboardPath
      ensures Accepted(data, emailValid) && reply.SignUpError? ==>
        toasts == old(toasts) + [ErrorToast(reply.message)] && location == old(location)
      ensures Accepted(data, emailValid) && reply.SignUpThrew? ==>
        toasts == old(toasts) + [ErrorToast(UnexpectedMessage)] && location == old(location)
    {
      var issues := Issues(data, emailValid);
      if issues != [] {
        errors := issues;
        sent := None;
        return;
      }
      errors := [];
      var request := OnSubmit(data, reply);
      sent := Some(request);
    }
  }
}
