/** The profile card: filled from the username once the page knows one. */
module Profile {
  import opened Wrappers
  import opened Identity
  import opened Text

  datatype ProfileData = ProfileData(name: string, email: string, avatar: string, role: string)

  const ProfileRole := "Software Engineer"

  /**
   The profile the page's effect sets: nothing while the username is undefined or empty,
   otherwise the username, its company address, no avatar and the fixed role.
   */
  function ProfileOf(username: Option<string>): (r: Option<ProfileData>)
    ensures r.Some? <==> username.Some? && username.value != []
    ensures r.Some? ==> r.value.name == username.value && r.value.avatar == [] && r.value.role == ProfileRole
    ensures r.Some? ==> r.value.email == CompanyEmail(username.value)
  {
    if username.Some? && username.value != [] then
      Some(ProfileData(username.value, CompanyEmail(username.value), "", ProfileRole))
    else None
  }

  /** Whatever the query holds except an empty array with an empty first value, a profile is shown. */
  lemma ProfileShownForQuery(q: QueryValue)
    requires !q.Many? || (|q.values| > 0 && q.values[0] != [])
    ensures var r := ProfileOf(UsernameFromQuery(q));
            r.Some? && r.value.email[|r.value.email| - |CompanyDomain|..] == CompanyDomain
  {
  }

  /** Without a username in the query the card belongs to "User". */
  lemma DefaultProfile()
    ensures ProfileOf(UsernameFromQuery(Absent)) == Some(ProfileData("User", "user@company.com", "", ProfileRole))
  {
    CompanyEmailOfPlainName("User");
    var l := Lower("User");
    assert l[0] == 'u' && l[1] == 's' && l[2] == 'e' && l[3] == 'r';
    assert l == "user";
    assert CompanyEmail("User") == "user@company.com";
    assert UsernameFromQuery(Absent) == Some("User");
  }
}
