/** The users directory: search on name and email, and the status badge colour. */
module Users {
  import opened Seqs
  import opened Text

  datatype UserStatus = Active | Inactive

  datatype User = User(id: int, name: string, email: string, role: string, status: UserStatus)

  const UsersData := [
    User(1, "Alice Johnson", "alice@example.com", "Frontend Developer", Active),
    User(2, "Bob Smith", "bob@example.com", "Backend Developer", Inactive),
    User(3, "Charlie Brown", "charlie@example.com", "QA Engineer", Active)
  ]

  /** `statusColorMap[user.status]`. */
  function StatusColor(s: UserStatus): (c: string)
    ensures c == "green" <==> s == Active
    ensures c == "red" <==> s == Inactive
  {
    match s
    case Active => "green"
    case Inactive => "red"
  }

  predicate UserMatches(u: User, query: string) {
    IncludesIgnoringCase(u.name, query) || IncludesIgnoringCase(u.email, query)
  }

  /** The users of `users` whose name or email contains `query`, in order. */
  function Matching(users: seq<User>, query: string): (r: seq<User>)
    ensures forall i :: 0 <= i < |users| ==> (users[i] in r <==> UserMatches(users[i], query))
    ensures forall i :: 0 <= i < |r| ==> r[i] in users && UserMatches(r[i], query)
    ensures Subsequence(r, users)
  {
    Filter(users, (u: User) => UserMatches(u, query))
  }

  /** The page's own state: the text of its search box. */
  datatype UsersPage = UsersPage(search: string)

  /** `filteredUsers`: the users whose name or email contains the header's query, in order. */
  function FilteredUsers(page: UsersPage, searchQuery: string): (r: seq<User>)
    ensures forall i :: 0 <= i < |UsersData| ==> (UsersData[i] in r <==> UserMatches(UsersData[i], searchQuery))
    ensures forall i :: 0 <= i < |r| ==> r[i] in UsersData && UserMatches(r[i], searchQuery)
    ensures Subsequence(r, UsersData)
  {
    Matching(UsersData, searchQuery)
  }

  /** Typing in the page's own search box changes nothing in the list. */
  lemma SearchBoxIgnored(p: UsersPage, q: UsersPage, searchQuery: string)
    ensures FilteredUsers(p, searchQuery) == FilteredUsers(q, searchQuery)
  {
  }

  /** An empty query lists every user, in order. */
  lemma EmptyQueryListsAll(p: UsersPage)
    ensures FilteredUsers(p, []) == UsersData
  {
    forall i | 0 <= i < |UsersData| ensures UserMatches(UsersData[i], []) {
      IncludesIgnoringCaseEmpty(UsersData[i].name);
    }
    FilterKeepsAll(UsersData, (u: User) => UserMatches(u, []));
    assert Matching(UsersData, []) == UsersData;
  }
}
