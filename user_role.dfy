/** The three user roles and the Spring Security authorities each one grants. */
module UserRole {

  datatype Role = ADMIN | INSTRUCTOR | STUDENT

  /** The enum constant's name. */
  function Name(r: Role): string
  {
    match r
    case ADMIN => "ADMIN"
    case INSTRUCTOR => "INSTRUCTOR"
    case STUDENT => "STUDENT"
  }

  /** getAuthorities: every role grants exactly one authority, "ROLE_" followed by its name. */
  function Authorities(r: Role): (a: seq<string>)
    ensures a == ["ROLE_" + Name(r)]
  {
    match r
    case ADMIN =>
      assert "ROLE_" + "ADMIN" == "ROLE_ADMIN";
      ["ROLE_ADMIN"]
    case INSTRUCTOR =>
      assert "ROLE_" + "INSTRUCTOR" == "ROLE_INSTRUCTOR";
      ["ROLE_INSTRUCTOR"]
    case STUDENT =>
      assert "ROLE_" + "STUDENT" == "ROLE_STUDENT";
      ["ROLE_STUDENT"]
  }

  /** Whether a principal of role r holds authority a. */
  predicate HasAuthority(r: Role, a: string)
  {
    a in Authorities(r)
  }

  /** Distinct roles grant distinct authorities: a role holds "ROLE_" + Name(q) exactly when it is q. */
  lemma AuthorityIdentifiesRole(r: Role, q: Role)
    ensures HasAuthority(r, "ROLE_" + Name(q)) <==> r == q
  {
    assert "ROLE_" + Name(q) in Authorities(r) ==> Authorities(r)[0] == "ROLE_" + Name(q);
  }
}
