/** The registration form's data: its seven string fields, the empty form the
    component starts from and resets to, and the request body built from it. */
module RegistrationForm {

  /** The `name` attribute of each input of the form. */
  datatype Field = Name | Email | Phone | Gender | Dob | Password | Confirm

  /** The component's `form` state: one string per input. */
  datatype Form = Form(name: string, email: string, phone: string, gender: string,
                       dob: string, password: string, confirm: string)
  {
    /** `form[k]` */
    function Get(k: Field): string {
      match k
      case Name => name
      case Email => email
      case Phone => phone
      case Gender => gender
      case Dob => dob
      case Password => password
      case Confirm => confirm
    }

    /** `{ ...form, [k]: v }`: the form with one field replaced. */
    function With(k: Field, v: string): (r: Form)
      ensures r.Get(k) == v
      ensures forall j :: j != k ==> r.Get(j) == Get(j)
    {
      match k
      case Name => this.(name := v)
      case Email => this.(email := v)
      case Phone => this.(phone := v)
      case Gender => this.(gender := v)
      case Dob => this.(dob := v)
      case Password => this.(password := v)
      case Confirm => this.(confirm := v)
    }
  }

  /** Two forms that agree on every field are the same form. */
  lemma FieldsDetermineForm(f: Form, g: Form)
    requires forall k :: f.Get(k) == g.Get(k)
    ensures f == g
  {
    assert f.Get(Name) == g.Get(Name) && f.Get(Email) == g.Get(Email);
    assert f.Get(Phone) == g.Get(Phone) && f.Get(Gender) == g.Get(Gender);
    assert f.Get(Dob) == g.Get(Dob) && f.Get(Password) == g.Get(Password);
    assert f.Get(Confirm) == g.Get(Confirm);
  }

  /** The constant `initial`: every field empty. */
  function Initial(): (f: Form)
    ensures forall k :: f.Get(k) == ""
  {
    Form("", "", "", "", "", "", "")
  }

  /** Replacing a field by the value it already holds changes nothing, and a
      second replacement of the same field overrides the first. */
  lemma WithLaws(f: Form, k: Field, v: string, w: string)
    ensures f.With(k, f.Get(k)) == f
    ensures f.With(k, v).With(k, w) == f.With(k, w)
  {
    FieldsDetermineForm(f.With(k, f.Get(k)), f);
    FieldsDetermineForm(f.With(k, v).With(k, w), f.With(k, w));
  }

  /** The JSON body of the registration request: every field except `confirm`. */
  datatype Payload = Payload(name: string, email: string, phone: string, gender: string,
                             dob: string, password: string)

  function ToPayload(f: Form): Payload {
    Payload(f.name, f.email, f.phone, f.gender, f.dob, f.password)
  }

  /** Two forms give the same request body exactly when they differ at most in
      `confirm`: the body carries every other field and never the confirmation. */
  lemma PayloadOmitsConfirm(f: Form, g: Form)
    ensures ToPayload(f) == ToPayload(g) <==> f.With(Confirm, g.confirm) == g
  {
    if ToPayload(f) == ToPayload(g) {
      assert forall k :: f.With(Confirm, g.confirm).Get(k) == g.Get(k);
      FieldsDetermineForm(f.With(Confirm, g.confirm), g);
    }
  }
}
