/**
  The persisted auth store (src/store/useAuthStore.ts): three fields,
  `password`, `content` and `summary`, that every action overwrites
  together.
 */
module AuthStore {
  import opened DeviceData

  datatype AuthState = AuthState(
    password: Option<string>,
    content: Option<seq<MultimediaContent>>,
    summary: Option<Summary>)

  /** The initial state, and the one `onLogout` and a rejected login set. */
  const SignedOut := AuthState(None, None, None)

  /** The three fields are all null or all set. */
  predicate Coherent(st: AuthState)
  {
    (st.password.None? && st.content.None? && st.summary.None?)
    || (st.password.Some? && st.content.Some? && st.summary.Some?)
  }

  /**
    `onLogin(password)` and `onRequestDeviceData(password)`: a thrown login
    and a null response (whose `data.content` read throws) run no `set`; a
    response with both a content list and a summary signs in with the
    given password; any other response signs out.
   */
  function LoginTransition(st: AuthState, password: string, o: LoginOutcome): (r: AuthState)
    ensures o.LoginThrew? || o.data.None? ==> r == st
    ensures o.LoginReturned? && o.data.Some? ==>
      (r.password == Some(password) <==> o.data.value.content.Some? && o.data.value.summary.Some?)
    ensures o.LoginReturned? && o.data.Some? ==>
      (r == SignedOut <==> o.data.value.content.None? || o.data.value.summary.None?)
    ensures o.LoginReturned? && o.data.Some? && o.data.value.content.Some? && o.data.value.summary.Some? ==>
      r == AuthState(Some(password), o.data.value.content, o.data.value.summary)
  {
    match o
    case LoginThrew => st
    case LoginReturned(data) =>
      if data.None? then st
      else if data.value.content.Some? && data.value.summary.Some? then
        AuthState(Some(password), data.value.content, data.value.summary)
      else SignedOut
  }

  /** Every transition keeps the three fields together. */
  lemma LoginKeepsCoherent(st: AuthState, password: string, o: LoginOutcome)
    requires Coherent(st)
    ensures Coherent(LoginTransition(st, password, o))
  {
  }

  /** Replaying the same login answer changes nothing more. */
  lemma LoginIdempotent(st: AuthState, password: string, o: LoginOutcome)
    ensures LoginTransition(LoginTransition(st, password, o), password, o) == LoginTransition(st, password, o)
  {
  }

  class Store {
    var password: Option<string>
    var content: Option<seq<MultimediaContent>>
    var summary: Option<Summary>

    ghost function State(): AuthState
      reads this
    {
      AuthState(password, content, summary)
    }

    ghost predicate Valid()
      reads this
    {
      Coherent(State())
    }

    constructor ()
      ensures State() == SignedOut && Valid()
    {
      password, content, summary := None, None, None;
    }

    /** One `set({ password, content, summary })`. */
    method Set(st: AuthState)
      modifies this
      ensures State() == st
    {
      password, content, summary := st.password, st.content, st.summary;
    }

    /** `onRequestDeviceData`; `login` gives the outcome of the login call for each password. */
    method OnRequestDeviceData(pw: string, login: string -> LoginOutcome)
      modifies this
      ensures State() == LoginTransition(old(State()), pw, login(pw))
      ensures old(Valid()) ==> Valid()
    {
      var o := login(pw);
      if o.LoginReturned? && o.data.Some? {
        var data := o.data.value;
        if data.content.Some? && data.summary.Some? {
          Set(AuthState(Some(pw), data.content, data.summary));
        } else {
          Set(SignedOut);
        }
      }
    }

    /** `onLogin`: the same transition as `onRequestDeviceData` (its logging is not modelled). */
    method OnLogin(pw: string, login: string -> LoginOutcome)
      modifies this
      ensures State() == LoginTransition(old(State()), pw, login(pw))
      ensures old(Valid()) ==> Valid()
    {
      var o := login(pw);
      if o.LoginReturned? && o.data.Some? {
        var data := o.data.value;
        if data.content.Some? && data.summary.Some? {
          Set(AuthState(Some(pw), data.content, data.summary));
        } else {
          Set(SignedOut);
        }
      }
    }

    /** `onLogout`: from any state. */
    method OnLogout()
      modifies this
      ensures State() == SignedOut && Valid()
    {
      Set(SignedOut);
    }
  }
}
