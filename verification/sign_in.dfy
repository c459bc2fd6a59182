/** The sign-in hook: a fixed table of two accounts, each routed to its own page. */
module SignIn {
  import opened Identity

  datatype Outcome = Navigate(path: string, username: string) | InvalidCredentials

  const EmployeeEmail := "employee@gmail.com"
  const EmployeePassword := "Employee@1234"
  const HrEmail := "hr@gmail.com"
  const HrPassword := "HRempz@1234"

  /**
   `handleSubmit`: the employee pair opens `/Home`, the HR pair opens `/about`, both with the
   username cut from the email; anything else is refused. Matching is exact.
   */
  function HandleSubmit(email: string, password: string): (r: Outcome)
    ensures r == Navigate("/Home", UsernameFromEmail(email)) <==> email == EmployeeEmail && password == EmployeePassword
    ensures r == Navigate("/about", UsernameFromEmail(email)) <==> email == HrEmail && password == HrPassword
    ensures r == InvalidCredentials <==>
              !(email == EmployeeEmail && password == EmployeePassword) && !(email == HrEmail && password == HrPassword)
  {
    if email == EmployeeEmail && password == EmployeePassword then Navigate("/Home", UsernameFromEmail(email))
    else if email == HrEmail && password == HrPassword then Navigate("/about", UsernameFromEmail(email))
    else InvalidCredentials
  }

  /** The employee account arrives with the username "employee". */
  lemma EmployeeUsername()
    ensures HandleSubmit(EmployeeEmail, EmployeePassword) == Navigate("/Home", "employee")
  {
    var local, domain := "employee", "gmail.com";
    assert EmployeeEmail == local + "@" + domain;
    UsernameOfAddress(local, domain);
  }

  /** The HR account arrives with the username "hr". */
  lemma HrUsername()
    ensures HandleSubmit(HrEmail, HrPassword) == Navigate("/about", "hr")
  {
    var local, domain := "hr", "gmail.com";
    assert HrEmail == local + "@" + domain;
    UsernameOfAddress(local, domain);
  }

  /** Case matters: a differently capitalised email or password is refused. */
  lemma CaseSensitive()
    ensures HandleSubmit("Employee@gmail.com", EmployeePassword) == InvalidCredentials
    ensures HandleSubmit(EmployeeEmail, "employee@1234") == InvalidCredentials
  {
  }
}
