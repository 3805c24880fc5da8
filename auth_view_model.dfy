/** `AuthViewModel`: validates the login and registration forms, then runs
    the repository call and settles `state` on its result. A launched
    coroutine is taken to run to completion; the repository's result and
    the platform's email matcher are parameters. `written` records every
    value written to the state flow, so that intermediate `Loading` writes
    are visible; `calls` records the repository calls made. */
module AuthViewModel {
  import opened Text
  import opened Models

  const AllFieldsRequired: string := "Todos los campos son obligatorios"
  const InvalidEmail: string := "Email inválido"
  const LoginFailed: string := "Credenciales inválidas"
  const RegisterFailed: string := "Error en el registro"

  datatype AuthState = Idle | Loading | Success | Error(msg: string)

  /** What a `Result`-returning repository call gave back: success, or a
      failure whose exception may carry a message. */
  datatype Outcome = Succeeded | Failed(message: Option<string>)

  datatype AuthCall = LoginCall(LoginRequest) | RegisterCall(RegisterRequest) | ClearSessionCall

  /** `result.fold(...)`: `Success`, or `Error` with the exception's message
      and `fallback` when it has none. */
  function Settle(outcome: Outcome, fallback: string): (s: AuthState)
    ensures outcome.Succeeded? <==> s == Success
    ensures outcome.Failed? && outcome.message.Some? ==> s == Error(outcome.message.value)
    ensures outcome.Failed? && outcome.message.None? ==> s == Error(fallback)
  {
    match outcome
    case Succeeded => Success
    case Failed(m) => Error(if m.Some? then m.value else fallback)
  }

  /** The error `login` reports before calling anything, if any. */
  function LoginFormError(email: string, pass: string): (e: Option<string>)
    ensures e.None? <==> !IsBlank(email) && !IsBlank(pass)
    ensures e.Some? ==> e.value == AllFieldsRequired
  {
    if IsBlank(email) || IsBlank(pass) then Some(AllFieldsRequired) else None
  }

  /** The error `register` reports before calling anything: blank fields
      first, then an email the matcher rejects. */
  function RegisterFormError(name: string, user: string, email: string, pass: string,
                             isEmail: string -> bool): (e: Option<string>)
    ensures (IsBlank(name) || IsBlank(user) || IsBlank(email) || IsBlank(pass)) ==> e == Some(AllFieldsRequired)
    ensures !(IsBlank(name) || IsBlank(user) || IsBlank(email) || IsBlank(pass)) && !isEmail(email) ==>
      e == Some(InvalidEmail)
    ensures e.None? <==> !IsBlank(name) && !IsBlank(user) && !IsBlank(email) && !IsBlank(pass) && isEmail(email)
  {
    if IsBlank(name) || IsBlank(user) || IsBlank(email) || IsBlank(pass) then Some(AllFieldsRequired)
    else if !isEmail(email) then Some(InvalidEmail)
    else None
  }

  /** A form that passed validation never trims to an empty field, so the
      request sent always has a non-empty email. */
  lemma ValidLoginSendsNonEmptyEmail(email: string, pass: string)
    requires LoginFormError(email, pass).None?
    ensures Trim(email) != "" && pass != ""
  {
    BlankIffTrimEmpty(email);
  }

  class AuthViewModel {
    var state: AuthState
    var written: seq<AuthState>
    var calls: seq<AuthCall>

    constructor ()
      ensures state == Idle && written == [] && calls == []
    {
      state := Idle;
      written := [];
      calls := [];
    }

    method SetState(s: AuthState)
      modifies this
      ensures state == s && written == old(written) + [s] && calls == old(calls)
    {
      state := s;
      written := written + [s];
    }

    /** `login`: blank fields are refused without a call; otherwise the
        trimmed email and the password as typed are sent. */
    method Login(email: string, pass: string, outcome: Outcome)
      modifies this
      ensures LoginFormError(email, pass).Some? ==>
        && state == Error(AllFieldsRequired)
        && written == old(written) + [state]
        && calls == old(calls)
      ensures LoginFormError(email, pass).None? ==>
        && state == Settle(outcome, LoginFailed)
        && written == old(written) + [Loading, state]
        && calls == old(calls) + [LoginCall(LoginRequest(Trim(email), pass))]
    {
      var error := LoginFormError(email, pass);
      if error.Some? {
        SetState(Error(error.value));
        return;
      }
      SetState(Loading);
      calls := calls + [LoginCall(LoginRequest(Trim(email), pass))];
      SetState(Settle(outcome, LoginFailed));
    }

    /** `register`: blank fields, then the email format, are checked before
        any call; name, username and email are sent trimmed, the password
        as typed. */
    method Register(name: string, user: string, email: string, pass: string,
                    isEmail: string -> bool, outcome: Outcome)
      modifies this
      ensures RegisterFormError(name, user, email, pass, isEmail).Some? ==>
        && state == Error(RegisterFormError(name, user, email, pass, isEmail).value)
        && written == old(written) + [state]
        && calls == old(calls)
      ensures RegisterFormError(name, user, email, pass, isEmail).None? ==>
        && state == Settle(outcome, RegisterFailed)
        && written == old(written) + [Loading, state]
        && calls == old(calls) + [RegisterCall(RegisterRequest(Trim(name), Trim(user), Trim(email), pass))]
    {
      var error := RegisterFormError(name, user, email, pass, isEmail);
      if error.Some? {
        SetState(Error(error.value));
        return;
      }
      SetState(Loading);
      calls := calls + [RegisterCall(RegisterRequest(Trim(name), Trim(user), Trim(email), pass))];
      SetState(Settle(outcome, RegisterFailed));
    }

    /** `logout`: clears the session, then goes back to `Idle`. */
    method Logout()
      modifies this
      ensures state == Idle
      ensures written == old(written) + [Idle]
      ensures calls == old(calls) + [ClearSessionCall]
    {
      calls := calls + [ClearSessionCall];
      SetState(Idle);
    }

    /** `resetState`. */
    method ResetState()
      modifies this
      ensures state == Idle && written == old(written) + [Idle] && calls == old(calls)
    {
      SetState(Idle);
    }
  }
}
