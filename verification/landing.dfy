/** The public landing page: the "Signup for Demo" e-mail box and the navigation dropdowns. */
module Landing {
  import opened Wrappers
  import opened Identity
  import opened EmailPatterns

  datatype LandingState = LandingState(activeNavDropdown: Option<int>, email: string, emailError: string)

  const InitialLanding := LandingState(None, "", "")
  const InvalidDemoEmail := "Please enter a valid email address."

  /** Typing in the e-mail box: the text is taken and any shown error disappears. */
  function EditEmail(s: LandingState, v: string): (r: LandingState)
    ensures r.email == v && r.emailError == ""
    ensures r.activeNavDropdown == s.activeNavDropdown
  {
    if s.emailError != "" then s.(email := v, emailError := "") else s.(email := v)
  }

  /** The result of a click: the new state and, when the check passes, the username the Home page is opened with. */
  datatype DemoClick = DemoClick(state: LandingState, navigateWith: Option<string>)

  /**
   The "Signup for Demo" click: an empty address or one with no `\S+@\S+\.\S+` match anywhere
   shows the error and stays; otherwise the error is cleared and Home opens for the text before the first `@`.
   */
  function SignupForDemo(s: LandingState): (r: DemoClick)
    ensures !DemoEmailAccepted(s.email) ==> r == DemoClick(s.(emailError := InvalidDemoEmail), None)
    ensures DemoEmailAccepted(s.email) ==>
              r == DemoClick(s.(emailError := ""), Some(UsernameFromEmail(s.email)))
  {
    if !DemoEmailAccepted(s.email) then DemoClick(s.(emailError := InvalidDemoEmail), None)
    else DemoClick(s.(emailError := ""), Some(UsernameFromEmail(s.email)))
  }

  /** A navigation happens exactly when the unanchored expression matches somewhere in a non-empty address. */
  lemma NavigatesIffLooseMatch(s: LandingState)
    ensures SignupForDemo(s).navigateWith.Some? <==> s.email != [] && MatchesLoose(s.email)
  {
    DemoEmailIffLooseMatch(s.email);
  }

  /** An address the recruitment form would accept opens Home with its local part. */
  lemma WellFormedAddressNavigates(s: LandingState, local: string, domain: string)
    requires '@' !in local && s.email == local + "@" + domain && ValidateEmail(s.email)
    ensures SignupForDemo(s).navigateWith == Some(local)
  {
    StrictImpliesDemo(s.email);
    UsernameOfAddress(local, domain);
  }

  /** `handleToggle`: clicking the open dropdown closes it; clicking another opens that one. */
  function HandleToggle(active: Option<int>, index: int): (r: Option<int>)
    ensures active == Some(index) ==> r == None
    ensures active != Some(index) ==> r == Some(index)
  {
    if active == Some(index) then None else Some(index)
  }

  /** Toggling the same dropdown twice returns to where it started, from the closed state or from that dropdown open. */
  lemma ToggleTwice(active: Option<int>, index: int)
    requires active == None || active == Some(index)
    ensures HandleToggle(HandleToggle(active, index), index) == active
  {
  }

  /** From a different dropdown, two clicks leave everything closed instead. */
  lemma ToggleTwiceFromOther(j: int, index: int)
    requires j != index
    ensures HandleToggle(HandleToggle(Some(j), index), index) == None
  {
  }
}
