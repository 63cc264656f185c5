# Registration form: validation and component state

A model of the `Register` component of a client-side sign-up form
(`src/components/Register.jsx`). The component keeps four pieces of state:

- `form`: seven string fields (name, email, phone, gender, date of birth, password and password confirmation).
- `loading`: a busy flag.
- `msg`: an optional success message.
- `err`: an optional error message.

Three handlers change this state: a field edit, a submit that validates locally and then posts the form to a registration endpoint, and a reset.

The project has three modules:

- `RegistrationForm` (`form.dfy`): the form as a record of seven strings. It has field lookup and field replacement (the `{ ...prev, [name]: value }` spread), the empty `initial` form, and the request body, which holds every field except `confirm`.
- `Validation` (`validation.dfy`): `validate` as a pure function that runs five checks in a fixed order; the first failure wins.
  - The email regular expression `^[^\s@]+@[^\s@]+\.[^\s@]+$` is written out as a matcher, `MatchesEmail`. A lemma proves it accepts exactly the strings of the form `a + "@" + b + "." + c` (`IsEmail`), where `a`, `b` and `c` are non-empty and contain no whitespace and no `@`.
  - The phone regular expression `^[6-9]\d{9}$` is written out as a matcher, `MatchesPhone`. A lemma proves it accepts exactly ten ASCII digits whose first digit is 6 to 9 (`IsPhone`).
  - `\s` is ECMAScript's set of WhiteSpace and LineTerminator code points.
  - `password.length` is the UTF-16 length, `Utf16Length`.
- `Component` (`component.dfy`): the class `Register`, whose fields are the four state variables and whose methods are the handlers.
  - The network result is an input: `Outcome` is `Ok`, `NotOk` or `TransportFail`, each with an optional server message or error text.
  - JavaScript's `x || fallback` on these texts is `OrElse`: an absent or empty text falls back to the default.
  - The invariant `Valid()` says that at most one of `msg` and `err` is set, that a set message is never empty, and that no message is set while a request is in flight.
  - `handleSubmit` is modelled three times: as one atomic method, `HandleSubmit`, and as the two halves on either side of its `await`. `BeginSubmit` validates and starts loading; `FinishSubmit` applies the outcome and always clears `loading`. Splitting it lets the model state what holds while a request is in flight. `BeginSubmit` requires `!loading`, because the submit button is disabled while loading.

Notes on the code:

- The submit handler clears both messages before it validates (lines 40-41). On success it sets only `msg` (line 63), so the model's `err == None` after success follows from the invariant, because nothing sets `err` while loading.
- A non-success response goes through `throw new Error(data.message || 'Registration failed')` and then `error.message || 'Network error'`. The model runs both steps. The thrown message is never empty, so `'Network error'` is never shown for a server refusal.
- If a non-success response's body is not JSON, `res.json()` throws first. The banner then shows the JSON parser's error text, not `'Registration failed'`. The model covers this case as `TransportFail` with that text.
- Editing a field clears both messages (lines 22-23), and reset does not change `loading` (lines 72-76). The model follows the code on both points.

## Model

| member | source | states |
|---|---|---|
| `RegistrationForm.Initial` | src/components/Register.jsx:5-13 | every field of the initial form is the empty string |
| `RegistrationForm.Form.With` | src/components/Register.jsx:19-24 | after the spread update, the edited field holds the new value and every other field keeps its old value |
| `RegistrationForm.WithLaws` | src/components/Register.jsx:21 | writing back a field's own value changes nothing; a second write to the same field overrides the first |
| `RegistrationForm.PayloadOmitsConfirm` | src/components/Register.jsx:51-58 | two forms give the same request body exactly when they differ at most in `confirm`, so the body carries the six other fields and never the confirmation |
| `Validation.AllFilledFields` | src/components/Register.jsx:28-30 | "no field is empty", as a statement over every field name, is the same as the source's seven-way test |
| `Validation.EmptyFieldWins` | src/components/Register.jsx:28-30 | a form with any field emptied fails with "All fields are required", whatever the other fields hold |
| `Validation.InitialIsIncomplete` | src/components/Register.jsx:28-30 | the initial form fails with "All fields are required" |
| `Validation.IndexOf` | src/components/Register.jsx:31 | the result is the position of the first `@`, or the length when there is none |
| `Validation.MatchesAssembled` | src/components/Register.jsx:31 | the email matcher accepts every `a + "@" + b + "." + c` whose three parts are non-empty and free of whitespace and `@` |
| `Validation.EmailComplete` | src/components/Register.jsx:31 | every string the email pattern describes is accepted by the matcher |
| `Validation.EmailSound` | src/components/Register.jsx:31 | every string the email matcher accepts splits as such an `a + "@" + b + "." + c` |
| `Validation.MatchesEmailIff` | src/components/Register.jsx:31 | the email matcher accepts exactly the strings the pattern describes |
| `Validation.SampleEmail` | src/components/Register.jsx:31 | "jane@example.com" is a valid email |
| `Validation.EmailHasOneAt` | src/components/Register.jsx:31 | an accepted email contains exactly one `@` |
| `Validation.DigitsIff` | src/components/Register.jsx:32 | `\d{n}$` accepts exactly the strings of `n` ASCII digits |
| `Validation.MatchesPhoneIff` | src/components/Register.jsx:32 | the phone matcher accepts exactly the strings of length 10 whose characters are all `0`-`9` and whose first is `6`-`9` |
| `Validation.PhoneSamples` | src/components/Register.jsx:32 | "9876543210" passes the phone check and "5551234567" fails it |
| `Validation.Utf16Length` | src/components/Register.jsx:33 | a JavaScript string length lies between the number of characters and twice that number |
| `Validation.Utf16LengthOfBmp` | src/components/Register.jsx:33 | for text in the Basic Multilingual Plane, the JavaScript length is the number of characters |
| `Validation.PasswordSamples` | src/components/Register.jsx:33-34 | a 3-character password fails the length check; a confirmation that differs from a 6-character password fails the match check |
| `Validation.Validate` | src/components/Register.jsx:26-36 | first failure wins, in a fixed order: each of the five messages is returned exactly when every earlier check passes and its own check fails; the result is valid exactly when all fields are filled, the email and phone fit their patterns, the password is at least 6 long and equals the confirmation |
| `Validation.SampleFormIsValid` | src/components/Register.jsx:26-36 | the complete sample form (Jane Doe, jane@example.com, 9876543210, female, 2000-01-01, secret1 twice) is valid |
| `Component.OrElse` | src/components/Register.jsx:62-66 | the result is the fallback or the given non-empty text; a non-empty text wins; with a non-empty fallback the result is never empty |
| `Component.Register.constructor` | src/components/Register.jsx:14-17 | the component starts with the initial form, not loading, and no messages |
| `Component.Register.HandleChange` | src/components/Register.jsx:19-24 | only the edited field changes; both messages are cleared; `loading` is left alone; the banner invariant is kept |
| `Component.Register.BeginSubmit` | src/components/Register.jsx:38-59 | the form is unchanged and `msg` is cleared. An invalid form shows its validation message as `err`, sends no request and leaves `loading` alone. A valid form starts loading, clears `err` and yields the six-field request body |
| `Component.Register.FinishSubmit` | src/components/Register.jsx:61-69 | `Ok` shows the server message or "Registered successfully!", keeps `err` empty and resets the form. `NotOk` shows the server message or "Registration failed" as `err` and keeps the form. `TransportFail` shows the error text or "Network error" and keeps the form. `loading` is false on every path, and the banner invariant is kept |
| `Component.Register.HandleSubmit` | src/components/Register.jsx:38-70 | a request is made exactly when the form is valid. The other effects are those of the two halves combined: an invalid form gets its message, each outcome gets its message or default, only success resets the form, and `loading` is false at the end |
| `Component.Register.HandleReset` | src/components/Register.jsx:72-76 | the form becomes the initial form, both messages are cleared, and `loading` is left alone |

## Left out

- The HTTP request itself (`fetch`, its URL, method and headers) and `res.json()` (lines 48-61) are network I/O. Their result is the `Outcome` parameter. A body that fails to parse, or a thrown non-`Error` value, is a `TransportFail` carrying whatever text the thrown value has.
- `JSON.stringify` of the body is a library call. The body is the `Payload` record of six fields.
- `async`/`await` and React's batching of state updates: each handler, and each half of the submit handler, is one sequential update. Interleavings are modelled only through the split submit: field edits and resets may run between `BeginSubmit` and `FinishSubmit`.
- Rendering is left out: the JSX, the CSS, the radio buttons, the animated shapes, the banner markup (lines 78-167) and `e.preventDefault()`. The disabled submit button appears only as the `!loading` precondition of `BeginSubmit` and `HandleSubmit`.
- Component.Register.HandleChange takes one of the seven field names, not an arbitrary `name` attribute. Every input of the form carries one of those seven names.
- JavaScript strings can hold unpaired surrogates; a Dafny `string` cannot. The model covers only well-formed text. On such text the UTF-16 length is `Utf16Length` and both regular expressions behave as the code-unit matchers would.
- The server's `message` field is modelled as an optional string. A non-string value, which JavaScript would convert to text, is not modelled.
