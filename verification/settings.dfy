/**
 The settings page: the profile defaults derived from the optional props and the query, and
 the password-change check chain.
 */
module Settings {
  import opened Wrappers
  import opened Identity
  import Profile

  /** A JavaScript string prop is truthy when present and non-empty. */
  predicate Truthy(s: Option<string>) {
    s.Some? && s.value != []
  }

  /** `employeeName || username`; None is `undefined`. */
  function DefaultName(employeeName: Option<string>, username: Option<string>): (r: Option<string>)
    ensures Truthy(employeeName) ==> r == employeeName
    ensures !Truthy(employeeName) ==> r == username
  {
    if Truthy(employeeName) then employeeName else username
  }

  /**
   `employeeEmail || <derived address>`. The derivation calls `toLowerCase` on the name, so with
   neither an e-mail prop nor a name the page throws (None).
   */
  function DefaultEmail(employeeEmail: Option<string>, name: Option<string>): (r: Option<string>)
    ensures Truthy(employeeEmail) ==> r == employeeEmail
    ensures !Truthy(employeeEmail) && name.Some? ==> r == Some(CompanyEmail(name.value))
    ensures r.None? <==> !Truthy(employeeEmail) && name.None?
  {
    if Truthy(employeeEmail) then employeeEmail
    else if name.Some? then Some(CompanyEmail(name.value))
    else None
  }

  datatype Props = Props(
    employeeName: Option<string>, employeeEmail: Option<string>,
    employeeAvatar: Option<string>, employeeRole: Option<string>)

  /** The page's `profile` state; the name is `undefined` (None) when neither prop nor query gives one. */
  datatype SettingsProfile = SettingsProfile(name: Option<string>, email: string, role: string, avatar: string)

  const DefaultRole := "Associate Engineer"

  /**
   The initial `profile` state, or None when rendering throws: only deriving the address from a
   missing name throws, since a truthy e-mail prop short-circuits the derivation. The role default
   applies only to a missing prop; the avatar falls back to "" for any falsy value.
   */
  function InitialProfile(p: Props, q: QueryValue): (r: Option<SettingsProfile>)
    ensures var name := DefaultName(p.employeeName, UsernameFromQuery(q));
            r.None? <==> !Truthy(p.employeeEmail) && name.None?
    ensures var name := DefaultName(p.employeeName, UsernameFromQuery(q));
            r.Some? ==> r.value.name == name
                        && Some(r.value.email) == DefaultEmail(p.employeeEmail, name)
    ensures r.Some? ==> r.value.role == (if p.employeeRole.Some? then p.employeeRole.value else DefaultRole)
    ensures r.Some? ==> r.value.avatar == (if Truthy(p.employeeAvatar) then p.employeeAvatar.value else "")
  {
    var name := DefaultName(p.employeeName, UsernameFromQuery(q));
    var email := DefaultEmail(p.employeeEmail, name);
    if email.Some? then
      Some(SettingsProfile(name, email.value,
                           if p.employeeRole.Some? then p.employeeRole.value else DefaultRole,
                           if Truthy(p.employeeAvatar) then p.employeeAvatar.value else ""))
    else None
  }

  /** An e-mail prop alone is enough to render, even when no name can be found. */
  lemma EmailPropWithoutName(email: string)
    requires email != []
    ensures InitialProfile(Props(None, Some(email), None, None), Many([]))
            == Some(SettingsProfile(None, email, DefaultRole, ""))
  {
  }

  /** Without props, the settings page and the profile card derive the same name and address. */
  lemma SettingsAgreesWithProfile(q: QueryValue)
    requires !q.Many? || (|q.values| > 0 && q.values[0] != [])
    ensures var s := InitialProfile(Props(None, None, None, None), q);
            var c := Profile.ProfileOf(UsernameFromQuery(q));
            s.Some? && c.Some? && s.value.name == Some(c.value.name) && s.value.email == c.value.email
  {
  }

  /** Without props, an empty `username` array makes the settings page throw. */
  lemma EmptyQueryArrayThrows()
    ensures InitialProfile(Props(None, None, None, None), Many([])).None?
  {
  }

  datatype Passwords = Passwords(current: string, newPassword: string, confirm: string)

  const EmptyPasswords := Passwords("", "", "")

  const AllRequired := "All fields are required."
  const TooShort := "Password must be at least 6 characters."
  const Mismatch := "Passwords do not match."
  const Updated := "Password updated successfully!"
  const MinPasswordLength := 6

  datatype PasswordState = PasswordState(passwords: Passwords, error: string, success: string)

  /**
   `handlePasswordChange`: both messages are cleared, then the first failing check (a field empty,
   the new password too short, confirmation different) sets the one error and keeps the fields;
   if none fails, the success message is set and the fields are emptied.
   */
  function HandlePasswordChange(s: PasswordState): (r: PasswordState)
    ensures var p := s.passwords;
            (p.current == [] || p.newPassword == [] || p.confirm == []) ==>
              r == PasswordState(p, AllRequired, "")
    ensures var p := s.passwords;
            (p.current != [] && p.newPassword != [] && p.confirm != [] && |p.newPassword| < MinPasswordLength) ==>
              r == PasswordState(p, TooShort, "")
    ensures var p := s.passwords;
            (p.current != [] && p.newPassword != [] && p.confirm != [] && |p.newPassword| >= MinPasswordLength
             && p.newPassword != p.confirm) ==>
              r == PasswordState(p, Mismatch, "")
    ensures var p := s.passwords;
            (p.current != [] && |p.newPassword| >= MinPasswordLength && p.newPassword == p.confirm) ==>
              r == PasswordState(EmptyPasswords, "", Updated)
  {
    var p := s.passwords;
    var cleared := s.(error := "", success := "");
    if p.current == [] || p.newPassword == [] || p.confirm == [] then cleared.(error := AllRequired)
    else if |p.newPassword| < MinPasswordLength then cleared.(error := TooShort)
    else if p.newPassword != p.confirm then cleared.(error := Mismatch)
    else PasswordState(EmptyPasswords, "", Updated)
  }

  /** The change is accepted exactly when every field is filled, the new password is long enough and confirmed. */
  lemma PasswordAcceptedIff(s: PasswordState)
    ensures var r := HandlePasswordChange(s);
            var p := s.passwords;
            r.success != [] <==> p.current != [] && |p.newPassword| >= MinPasswordLength && p.newPassword == p.confirm
  {
  }

  /** Exactly one of the two messages is shown after an attempt, and a failed one keeps the fields. */
  lemma OneMessage(s: PasswordState)
    ensures var r := HandlePasswordChange(s);
            (r.error == []) != (r.success == [])
            && (r.error != [] ==> r.passwords == s.passwords)
  {
  }

  /** The current password is only required to be non-empty: its content never decides the outcome. */
  lemma CurrentOnlyNeedsContent(s: PasswordState, other: string)
    requires s.passwords.current != [] && other != []
    ensures var t := s.(passwords := s.passwords.(current := other));
            HandlePasswordChange(t).error == HandlePasswordChange(s).error
  {
  }

  /** The outcome does not depend on what the previous attempt displayed. */
  lemma PreviousMessagesIgnored(s: PasswordState, e: string, m: string)
    ensures HandlePasswordChange(s.(error := e, success := m)) == HandlePasswordChange(s)
  {
  }
}
