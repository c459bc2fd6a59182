/**
 How the pages name the signed-in person: the `username` router query value with its
 fallbacks, the username cut from an e-mail address, and the derived company address.
 */
module Identity {
  import opened Wrappers
  import opened Text

  /** A router query parameter: absent, a single value, or repeated values. */
  datatype QueryValue = Absent | One(value: string) | Many(values: seq<string>)

  const DefaultUser := "User"
  const CompanyDomain := "@company.com"

  /**
   `Array.isArray(raw) ? raw[0] : raw || 'User'`. An empty array yields `undefined` (None);
   an absent or empty single value falls back to "User".
   */
  function UsernameFromQuery(q: QueryValue): (r: Option<string>)
    ensures r.None? <==> q == Many([])
    ensures q.Many? && |q.values| > 0 ==> r == Some(q.values[0])
    ensures !q.Many? ==> r.Some? && r.value != []
    ensures q.One? && q.value != [] ==> r == Some(q.value)
    ensures q.Absent? || q == One([]) ==> r == Some(DefaultUser)
  {
    match q
    case Many(vs) => if |vs| > 0 then Some(vs[0]) else None
    case One(v) => if v != [] then Some(v) else Some(DefaultUser)
    case Absent => Some(DefaultUser)
  }

  /** `email.split("@")[0]`: the local part of an address, or the whole text when it has no `@`. */
  function UsernameFromEmail(email: string): (r: string)
    ensures '@' !in r
    ensures |r| <= |email| && r == email[..|r|]
    ensures '@' in email ==> |r| < |email| && email[|r|] == '@'
    ensures '@' !in email ==> r == email
  {
    BeforeFirst(email, '@')
  }

  /** The username of `local@domain` is `local`, whatever the domain holds. */
  lemma UsernameOfAddress(local: string, domain: string)
    requires '@' !in local
    ensures UsernameFromEmail(local + "@" + domain) == local
  {
    BeforeFirstOfJoin(local, '@', domain);
  }

  /** `${name.toLowerCase().replace(/\s+/g, '.')}@company.com`. */
  function CompanyEmail(name: string): (r: string)
    ensures |r| >= |CompanyDomain| && r[|r| - |CompanyDomain|..] == CompanyDomain
    ensures NoSpace(r)
  {
    var local := CollapseSpaces(Lower(name), '.');
    DomainHasNoSpace();
    NoSpaceJoin(local, CompanyDomain);
    var r := local + CompanyDomain;
    assert r[|local|..] == CompanyDomain;
    r
  }

  lemma DomainHasNoSpace()
    ensures NoSpace(CompanyDomain)
  {
  }

  /** The local part of the company address keeps every non-space, non-dot character of the lowercased name, in order. */
  lemma CompanyEmailKeepsName(name: string)
    ensures var r := CompanyEmail(name);
            Solid(r[..|r| - |CompanyDomain|], '.') == Solid(Lower(name), '.')
  {
    var local := CollapseSpaces(Lower(name), '.');
    assert CompanyEmail(name)[..|CompanyEmail(name)| - |CompanyDomain|] == local;
    CollapseKeepsSolid(Lower(name), '.');
  }

  /**
   A whitespace run between two words of the name becomes exactly one `.`: the words on either
   side are lowercased and collapsed on their own.
   */
  lemma CompanyEmailJoinsWords(a: string, w: string, b: string)
    requires a == [] || !IsSpace(a[|a| - 1])
    requires |w| > 0 && IsBlank(w) && (b == [] || !IsSpace(b[0]))
    ensures CompanyEmail(a + w + b)
            == CollapseSpaces(Lower(a), '.') + "." + CollapseSpaces(Lower(b), '.') + CompanyDomain
  {
    var la, lw, lb := Lower(a), Lower(w), Lower(b);
    LowerJoin(a, w, b);
    LowerKeepsSpaces(a);
    LowerKeepsSpaces(w);
    LowerKeepsSpaces(b);
    CollapseBetween(la, lw, lb, '.');
  }

  /** A name without whitespace is only lowercased to form the local part. */
  lemma CompanyEmailOfPlainName(name: string)
    requires NoSpace(name)
    ensures CompanyEmail(name) == Lower(name) + CompanyDomain
  {
    LowerKeepsSpaces(name);
    assert NoSpace(Lower(name));
  }
}
