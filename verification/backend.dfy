/**
 The HR backend service: the keyword-routed chat endpoint and the user registry behind
 `/signup`, `/login` and `/users/me/{user_id}`. The database is a sequence of rows in insertion
 order; password hashing is a parameter.
 */
module Backend {
  import opened Wrappers
  import opened Text

  /** An HTTP outcome: a body or an `HTTPException`. */
  datatype Response<T> = Ok(body: T) | HttpError(status: int, detail: string)

  // ---------------------------------------------------------------- chat

  datatype ChatMessage = ChatMessage(role: string, content: string)

  const LeaveReply := "To apply for leave, please submit a request through the HR portal at least 3 days in advance."
  const PayslipReply := "You can access your payslip through the HR portal. Payslips are typically available by the 5th of each month."
  const BenefitsReply := "Our benefits package includes health insurance, retirement plans, and paid time off. Please check the HR portal for detailed information."
  const HelpReply := "I can help you with information about leaves, salary, benefits, and general HR policies. What would you like to know?"
  const DefaultReply := "I'm your HR assistant. I can help you with information about leaves, salary, benefits, and general HR policies. What would you like to know?"

  /** `keyword in content.lower()`. */
  predicate Mentions(content: string, keyword: string) {
    Includes(Lower(content), keyword)
  }

  /** The reply chosen for one message text: the first keyword group found in the lowercased text wins. */
  function ReplyFor(content: string): (r: string)
    ensures Mentions(content, "leave") ==> r == LeaveReply
    ensures !Mentions(content, "leave") && (Mentions(content, "salary") || Mentions(content, "payslip"))
            ==> r == PayslipReply
    ensures (!Mentions(content, "leave") && !Mentions(content, "salary") && !Mentions(content, "payslip")
             && Mentions(content, "benefits")) ==> r == BenefitsReply
    ensures (!Mentions(content, "leave") && !Mentions(content, "salary") && !Mentions(content, "payslip")
             && !Mentions(content, "benefits") && Mentions(content, "help")) ==> r == HelpReply
    ensures (!Mentions(content, "leave") && !Mentions(content, "salary") && !Mentions(content, "payslip")
             && !Mentions(content, "benefits") && !Mentions(content, "help")) ==> r == DefaultReply
  {
    var t := Lower(content);
    if Includes(t, "leave") then LeaveReply
    else if Includes(t, "salary") || Includes(t, "payslip") then PayslipReply
    else if Includes(t, "benefits") then BenefitsReply
    else if Includes(t, "help") then HelpReply
    else DefaultReply
  }

  /**
   `chat_with_ai`: the reply to the last message. An empty list raises a 400 inside the `try`,
   which the broad handler turns into a 500.
   */
  function Chat(messages: seq<ChatMessage>): (r: Response<string>)
    ensures messages == [] ==> r.HttpError? && r.status == 500
    ensures messages != [] ==> r == Ok(ReplyFor(messages[|messages| - 1].content))
  {
    if messages == [] then HttpError(500, "400: No messages provided")
    else Ok(ReplyFor(messages[|messages| - 1].content))
  }

  /** The reply depends only on the last message: the earlier history and the roles are ignored. */
  lemma ReplyDependsOnlyOnLast(a: seq<ChatMessage>, b: seq<ChatMessage>, m: ChatMessage, role: string)
    ensures Chat(a + [m]) == Chat(b + [m.(role := role)])
  {
  }

  /** Matching ignores case: "LEAVE" routes like "leave". */
  lemma KeywordCaseIgnored(content: string)
    ensures ReplyFor(content) == ReplyFor(Lower(content))
  {
    LowerIdempotent(content);
  }

  /** A message mentioning leave gets the leave reply whatever else it mentions. */
  lemma LeaveDominates(before: string, after: string)
    ensures ReplyFor(before + "leave" + after) == LeaveReply
  {
    var s := before + "leave" + after;
    var t := Lower(s);
    assert t[|before|..|before| + 5] == "leave" by {
      forall i | 0 <= i < 5 ensures t[|before| + i] == "leave"[i] {
        assert s[|before| + i] == "leave"[i];
      }
    }
    assert OccursAt(t, "leave", |before|);
    IncludesIffContains(t, "leave");
  }

  /** Every non-empty request gets one of the five replies. */
  lemma ReplyIsOneOfFive(messages: seq<ChatMessage>)
    requires messages != []
    ensures Chat(messages).Ok?
    ensures Chat(messages).body in {LeaveReply, PayslipReply, BenefitsReply, HelpReply, DefaultReply}
  {
  }

  // ---------------------------------------------------------------- users

  /** A row of the `users` table; `password` holds the hash. */
  datatype UserRow = UserRow(id: int, email: string, username: string, password: string, isActive: bool, role: string)

  /** `UserResponse`: a row without its password. */
  datatype UserView = UserView(id: int, email: string, username: string, isActive: bool, role: string)

  function View(u: UserRow): UserView {
    UserView(u.id, u.email, u.username, u.isActive, u.role)
  }

  const EmployeeRole := "employee"
  const EmailTaken := "Email already registered"
  const UsernameTaken := "Username already taken"
  const BadCredentials := "Invalid email or password"
  const NoSuchUser := "User not found"

  /** Emails, usernames and ids are each unique across the table. */
  ghost predicate Unique(users: seq<UserRow>) {
    forall i, j :: 0 <= i < j < |users| ==>
      users[i].email != users[j].email && users[i].username != users[j].username && users[i].id != users[j].id
  }

  /** The largest id in the table, 0 when it is empty. */
  function MaxId(users: seq<UserRow>): (m: int)
    ensures forall i :: 0 <= i < |users| ==> users[i].id <= m
    ensures users == [] ==> m == 0
  {
    if users == [] then 0
    else
      var m := MaxId(users[..|users| - 1]);
      assert forall i :: 0 <= i < |users| - 1 ==> users[i] == users[..|users| - 1][i];
      if users[|users| - 1].id > m then users[|users| - 1].id else m
  }

  /** The primary key SQLite gives the next row. */
  function NextId(users: seq<UserRow>): (id: int)
    ensures forall i :: 0 <= i < |users| ==> users[i].id < id
  {
    MaxId(users) + 1
  }

  predicate EmailExists(users: seq<UserRow>, email: string) {
    exists i | 0 <= i < |users| :: users[i].email == email
  }

  predicate UsernameExists(users: seq<UserRow>, username: string) {
    exists i | 0 <= i < |users| :: users[i].username == username
  }

  datatype Signed = Signed(users: seq<UserRow>, response: Response<UserView>)

  /**
   `signup`: a taken email is refused first, then a taken username; otherwise one row is added
   with a fresh id, the hashed password, the employee role and an active flag.
   */
  function Signup(users: seq<UserRow>, email: string, username: string, password: string,
                  hash: string -> string): (r: Signed)
    ensures EmailExists(users, email) ==> r == Signed(users, HttpError(400, EmailTaken))
    ensures !EmailExists(users, email) && UsernameExists(users, username) ==>
              r == Signed(users, HttpError(400, UsernameTaken))
    ensures !EmailExists(users, email) && !UsernameExists(users, username) ==>
              |r.users| == |users| + 1 && r.users[..|users|] == users
              && var u := r.users[|users|];
                 u.email == email && u.username == username && u.password == hash(password)
                 && u.isActive && u.role == EmployeeRole
                 && (forall i :: 0 <= i < |users| ==> users[i].id != u.id)
                 && r.response == Ok(View(u))
  {
    if EmailExists(users, email) then Signed(users, HttpError(400, EmailTaken))
    else if UsernameExists(users, username) then Signed(users, HttpError(400, UsernameTaken))
    else
      var u := UserRow(NextId(users), email, username, hash(password), true, EmployeeRole);
      var r := users + [u];
      assert r[..|users|] == users;
      Signed(r, Ok(View(u)))
  }

  /** Signup keeps emails, usernames and ids unique. */
  lemma SignupKeepsUnique(users: seq<UserRow>, email: string, username: string, password: string,
                          hash: string -> string)
    requires Unique(users)
    ensures Unique(Signup(users, email, username, password, hash).users)
  {
    var r := Signup(users, email, username, password, hash).users;
    if r != users {
      forall i, j | 0 <= i < j < |r|
        ensures r[i].email != r[j].email && r[i].username != r[j].username && r[i].id != r[j].id
      {
        if j == |users| {
          assert r[i] == users[i];
        } else {
          assert r[i] == users[i] && r[j] == users[j];
        }
      }
    }
  }

  /** `first()` of the rows with that email. */
  function ByEmail(users: seq<UserRow>, email: string): (r: Option<UserRow>)
    ensures r.None? <==> !EmailExists(users, email)
    ensures r.Some? ==> exists k :: 0 <= k < |users| && users[k] == r.value && r.value.email == email
                                  && forall i :: 0 <= i < k ==> users[i].email != email
  {
    if users == [] then None
    else if users[0].email == email then Some(users[0])
    else
      var r := ByEmail(users[1..], email);
      assert forall i :: 1 <= i < |users| ==> users[i] == users[1..][i - 1];
      assert r.Some? ==> exists k :: 0 <= k < |users[1..]| && users[1..][k] == r.value
                                     && forall i :: 0 <= i < k ==> users[1..][i].email != email;
      r
  }

  /**
   `login`: the first row with the email, when the password verifies against its hash. An unknown
   email and a wrong password give the same 401.
   */
  function Login(users: seq<UserRow>, email: string, password: string, hash: string -> string): (r: Response<UserView>)
    ensures r.Ok? <==> ByEmail(users, email).Some? && hash(password) == ByEmail(users, email).value.password
    ensures r.Ok? ==> r.body.email == email && r.body == View(ByEmail(users, email).value)
    ensures !r.Ok? ==> r == HttpError(401, BadCredentials)
  {
    match ByEmail(users, email)
    case None => HttpError(401, BadCredentials)
    case Some(u) => if hash(password) == u.password then Ok(View(u)) else HttpError(401, BadCredentials)
  }

  /** A caller cannot tell an unknown email from a wrong password. */
  lemma LoginFailuresAlike(users: seq<UserRow>, e1: string, p1: string, e2: string, p2: string,
                           hash: string -> string)
    requires !EmailExists(users, e1)
    requires EmailExists(users, e2) && hash(p2) != ByEmail(users, e2).value.password
    ensures Login(users, e1, p1, hash) == Login(users, e2, p2, hash)
  {
  }

  /** Whoever just signed up can log in with the same email and password and gets the same user back. */
  lemma SignupThenLogin(users: seq<UserRow>, email: string, username: string, password: string,
                        hash: string -> string)
    requires !EmailExists(users, email) && !UsernameExists(users, username)
    ensures var s := Signup(users, email, username, password, hash);
            Login(s.users, email, password, hash) == s.response
  {
    var s := Signup(users, email, username, password, hash);
    var u := s.users[|users|];
    var f := ByEmail(s.users, email);
    assert s.users[|users|].email == email;
    assert f.Some?;
    var k :| 0 <= k < |s.users| && s.users[k] == f.value && f.value.email == email
             && forall i :: 0 <= i < k ==> s.users[i].email != email;
    if k < |users| {
      assert false;
    }
  }

  /** `get_user`: the row with that id, or 404. */
  function GetUser(users: seq<UserRow>, id: int): (r: Response<UserView>)
    ensures r.HttpError? <==> forall i :: 0 <= i < |users| ==> users[i].id != id
    ensures r.HttpError? ==> r == HttpError(404, NoSuchUser)
    ensures r.Ok? ==> r.body.id == id && exists i :: 0 <= i < |users| && View(users[i]) == r.body
  {
    if users == [] then HttpError(404, NoSuchUser)
    else if users[0].id == id then Ok(View(users[0]))
    else
      var r := GetUser(users[1..], id);
      assert forall i :: 1 <= i < |users| ==> users[i] == users[1..][i - 1];
      r
  }

  /** A freshly signed-up user can be fetched by the id the signup returned. */
  lemma SignupThenGet(users: seq<UserRow>, email: string, username: string, password: string,
                      hash: string -> string)
    requires Unique(users)
    requires !EmailExists(users, email) && !UsernameExists(users, username)
    ensures var s := Signup(users, email, username, password, hash);
            GetUser(s.users, s.response.body.id) == s.response
  {
    var s := Signup(users, email, username, password, hash);
    SignupKeepsUnique(users, email, username, password, hash);
    var g := GetUser(s.users, s.response.body.id);
    assert s.users[|users|].id == s.response.body.id;
    var i :| 0 <= i < |s.users| && View(s.users[i]) == g.body;
    if i < |users| {
      assert false;
    }
  }
}
