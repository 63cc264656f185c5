/** The `Register` component's state and its three event handlers. Each handler
    is one atomic update of the four state variables; the submit handler is
    also given in two halves, split where it awaits the server, so that the
    state while a request is in flight can be stated. */
module Component {
  import opened RegistrationForm
  import opened Validation

  /** A JavaScript value that is a string or `null`/`undefined`. */
  datatype Option<T> = None | Some(value: T)

  const RegisteredSuccessfully: string := "Registered successfully!"
  const RegistrationFailed: string := "Registration failed"
  const NetworkError: string := "Network error"

  /** How the awaited registration request ended. */
  datatype Outcome =
    /** a success status; the `message` field of the JSON body, if any */
    | Ok(message: Option<string>)
    /** a non-success status; the `message` field of the JSON body, if any */
    | NotOk(message: Option<string>)
    /** no usable response (the request or the body's JSON parsing threw);
        the thrown error's `message`, if any */
    | TransportFail(text: Option<string>)

  /** `m || fallback`: an absent or empty message is falsy and gives way. */
  function OrElse(m: Option<string>, fallback: string): (r: string)
    ensures r == fallback || (m == Some(r) && r != "")
    ensures m.Some? && m.value != "" ==> r == m.value
    ensures fallback != "" ==> r != ""
  {
    if m.Some? && m.value != "" then m.value else fallback
  }

  class Register {
    var form: Form
    var loading: bool
    var msg: Option<string>
    var err: Option<string>

    /** The status banner's invariant: at most one of the two messages is set,
        a set message is never blank, and no message is shown while a request
        is in flight. */
    predicate Valid()
      reads this
    {
      !(msg.Some? && err.Some?)
      && (msg.Some? ==> msg.value != "")
      && (err.Some? ==> err.value != "")
      && (loading ==> msg.None? && err.None?)
    }

    /** The initial state: the empty form, not loading, no messages. */
    constructor ()
      ensures Valid()
      ensures form == Initial() && !loading && msg == None && err == None
    {
      form := Initial();
      loading := false;
      msg := None;
      err := None;
    }

    /** `handleChange`: the edited field takes the new value, every other field
        keeps its value, both messages are cleared, `loading` is untouched. */
    method HandleChange(name: Field, value: string)
      requires Valid()
      modifies this
      ensures Valid()
      ensures form == old(form).With(name, value)
      ensures forall k :: k != name ==> form.Get(k) == old(form).Get(k)
      ensures form.Get(name) == value
      ensures msg == None && err == None && loading == old(loading)
    {
      form := form.With(name, value);
      err := None;
      msg := None;
    }

    /** The first half of `handleSubmit`, up to the request. An invalid form
        shows its validation message and sends nothing; a valid one starts
        loading and yields the request body. The form is never changed. */
    method BeginSubmit() returns (request: Option<Payload>)
      requires Valid() && !loading
      modifies this
      ensures Valid()
      ensures form == old(form) && msg == None
      ensures Validate(form).Invalid? ==>
                request == None && err == Some(Validate(form).message) && loading == old(loading)
      ensures Validate(form).Valid? ==>
                request == Some(ToPayload(form)) && err == None && loading
    {
      err := None;
      msg := None;
      var v := Validate(form);
      if v.Invalid? {
        err := Some(v.message);
        return None;
      }
      loading := true;
      request := Some(ToPayload(form));
    }

    /** The second half of `handleSubmit`, once the request has ended. Success
        shows the server's message or the default and resets the form; a
        failure shows the server's message, the error's text or a default and
        keeps the form. Loading ends on every path. */
    method FinishSubmit(outcome: Outcome)
      requires Valid() && loading
      modifies this
      ensures Valid() && !loading
      ensures match outcome
              case Ok(m) =>
                msg == Some(OrElse(m, RegisteredSuccessfully)) && err == None && form == Initial()
              case NotOk(m) =>
                err == Some(OrElse(m, RegistrationFailed)) && msg == None && form == old(form)
              case TransportFail(t) =>
                err == Some(OrElse(t, NetworkError)) && msg == None && form == old(form)
    {
      match outcome {
        case Ok(m) =>
          msg := Some(OrElse(m, RegisteredSuccessfully));
          form := Initial();
        case NotOk(m) =>
          // thrown as an Error whose message is then read back in the catch
          var thrown := OrElse(m, RegistrationFailed);
          err := Some(OrElse(Some(thrown), NetworkError));
        case TransportFail(t) =>
          err := Some(OrElse(t, NetworkError));
      }
      loading := false;
    }

    /** `handleSubmit` as one step, given how the request would end. */
    method HandleSubmit(outcome: Outcome) returns (request: Option<Payload>)
      requires Valid() && !loading
      modifies this
      ensures Valid() && !loading
      ensures request.Some? <==> Validate(old(form)).Valid?
      ensures Validate(old(form)).Invalid? ==>
                err == Some(Validate(old(form)).message) && msg == None && form == old(form)
      ensures Validate(old(form)).Valid? ==>
                request == Some(ToPayload(old(form)))
                && match outcome
                   case Ok(m) =>
                     msg == Some(OrElse(m, RegisteredSuccessfully)) && err == None
                     && form == Initial()
                   case NotOk(m) =>
                     err == Some(OrElse(m, RegistrationFailed)) && msg == None
                     && form == old(form)
                   case TransportFail(t) =>
                     err == Some(OrElse(t, NetworkError)) && msg == None && form == old(form)
    {
      request := BeginSubmit();
      if request.Some? {
        FinishSubmit(outcome);
      }
    }

    /** `handleReset`: the empty form and no messages; `loading` is untouched. */
    method HandleReset()
      requires Valid()
      modifies this
      ensures Valid()
      ensures form == Initial() && msg == None && err == None && loading == old(loading)
    {
      form := Initial();
      err := None;
      msg := None;
    }
  }

  /** A session driven through the handlers' contracts alone: the server
      refuses a complete and valid form, a second attempt succeeds and resets
      the form, and submitting the reset form fails validation without a
      request. */
  method SampleSession(f: Form, reason: string, welcome: string)
    requires Validate(f).Valid? && reason != "" && welcome != ""
  {
    var c := new Register();
    c.HandleChange(Name, f.name);
    c.HandleChange(Email, f.email);
    c.HandleChange(Phone, f.phone);
    c.HandleChange(Gender, f.gender);
    c.HandleChange(Dob, f.dob);
    c.HandleChange(Password, f.password);
    c.HandleChange(Confirm, f.confirm);
    assert c.form == f;

    var sent := c.HandleSubmit(NotOk(Some(reason)));
    assert sent == Some(ToPayload(f));
    assert c.err == Some(reason) && c.msg == None && c.form == f;

    sent := c.HandleSubmit(Ok(Some(welcome)));
    assert c.msg == Some(welcome) && c.err == None && c.form == Initial();

    InitialIsIncomplete();
    sent := c.HandleSubmit(TransportFail(None));
    assert sent == None && c.err == Some(AllFieldsRequired);

    c.HandleReset();
    assert c.err == None && c.msg == None && !c.loading && c.form == Initial();
  }
}
