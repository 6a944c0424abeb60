/** The request guard of the controllers: a roles header is accepted when it mentions the name
    of one of the allowed roles anywhere in it. */
module Roles {
  import opened Models

  /** The roles the controllers allow; a role's name is its enum constant's identifier. */
  datatype Role = Admin | Client

  function Name(r: Role): string
  {
    match r
    case Admin => "ADMIN"
    case Client => "CLIENT"
  }

  /** String.contains: `sub` occurs in `s` at some position. */
  predicate Contains(s: string, sub: string)
  {
    exists i :: 0 <= i <= |s| && sub <= s[i..]
  }

  /** The header names at least one allowed role. */
  predicate Authorized(rolesHeader: string, allowedRoles: seq<Role>)
  {
    exists j :: 0 <= j < |allowedRoles| && Contains(rolesHeader, Name(allowedRoles[j]))
  }

  /** Returns normally at the first allowed role whose name occurs in the header; after the
      last one, fails with AccessDenied carrying `errorMessage`. */
  method ValidateRole(rolesHeader: string, errorMessage: string, allowedRoles: seq<Role>) returns (o: Outcome)
    ensures o == Pass <==> Authorized(rolesHeader, allowedRoles)
    ensures o != Pass ==> o == Fail(AccessDenied(errorMessage))
    ensures allowedRoles == [] ==> o == Fail(AccessDenied(errorMessage))
  {
    for j := 0 to |allowedRoles|
      invariant forall i :: 0 <= i < j ==> !Contains(rolesHeader, Name(allowedRoles[i]))
    {
      if Contains(rolesHeader, Name(allowedRoles[j])) {
        return Pass;
      }
    }
    return Fail(AccessDenied(errorMessage));
  }

  /** Only which roles are allowed matters, not their order or repetition. */
  lemma AuthorizedOrderIndependent(rolesHeader: string, a: seq<Role>, b: seq<Role>)
    requires forall r :: r in a <==> r in b
    ensures Authorized(rolesHeader, a) <==> Authorized(rolesHeader, b)
  {
    if Authorized(rolesHeader, a) {
      var j :| 0 <= j < |a| && Contains(rolesHeader, Name(a[j]));
      assert a[j] in b;
      var k :| 0 <= k < |b| && b[k] == a[j];
    }
    if Authorized(rolesHeader, b) {
      var j :| 0 <= j < |b| && Contains(rolesHeader, Name(b[j]));
      assert b[j] in a;
      var k :| 0 <= k < |a| && a[k] == b[j];
    }
  }

  /** A permutation of the allowed roles gives the same outcome. */
  lemma PermutedRolesSameOutcome(rolesHeader: string, a: seq<Role>, b: seq<Role>)
    requires multiset(a) == multiset(b)
    ensures Authorized(rolesHeader, a) <==> Authorized(rolesHeader, b)
  {
    forall r
      ensures r in a <==> r in b
    {
      assert r in a <==> r in multiset(a);
      assert r in b <==> r in multiset(b);
    }
    AuthorizedOrderIndependent(rolesHeader, a, b);
  }

  /** A string without the letter 'A' contains no name that starts with it. */
  lemma NoLetterNoMatch(s: string, sub: string)
    requires |sub| > 0 && sub[0] == 'A'
    requires forall i :: 0 <= i < |s| ==> s[i] != 'A'
    ensures !Contains(s, sub)
  {
    forall i | 0 <= i <= |s|
      ensures !(sub <= s[i..])
    {
      if i < |s| {
        assert s[i..][0] == s[i];
      }
    }
  }

  /** A client's header is refused where only administrators are allowed. */
  lemma ClientHeaderDeniedForAdmin()
    ensures !Authorized("ROLE_CLIENT", [Admin])
  {
    NoLetterNoMatch("ROLE_CLIENT", Name(Admin));
  }

  /** An administrator's header is accepted where administrators or clients are allowed. */
  lemma AdminHeaderAccepted()
    ensures Authorized("ROLE_ADMIN", [Admin, Client])
  {
    assert Name(Admin) <= "ROLE_ADMIN"[5..];
    assert Contains("ROLE_ADMIN", Name([Admin, Client][0]));
  }
}
