/** `AuthService`: role creation and assignment over the identity stores, the
    resolution of the account's patient, doctor or admin row, and the claim
    list of the access token it issues. The identity framework's stores are
    fields; what the framework decides on its own (whether a role name is
    accepted, whether an assignment succeeds) comes in as data; signing is
    not modelled, the token is its descriptor. */
module Auth {
  import opened Common
  import opened Text
  import opened Lists

  /** An identity account: its key, its user name and its role names in the
      order `GetRolesAsync` lists them. */
  datatype User = User(id: string, userName: string, roles: seq<string>)

  /** Whether the account holds none of `names`. */
  predicate HoldsNone(user: User, names: seq<string>) {
    forall k :: 0 <= k < |names| ==> names[k] !in user.roles
  }

  /** A row of `Patients`, `Doctors` or `Admins` as the service reads it: the
      row's key and the account it belongs to. */
  datatype Link = Link(entityId: nat, userId: string)

  datatype Claim = Claim(kind: string, value: string)

  /** The token descriptor: the claims, the expiry instant, the issuer and the
      audience. Instants are Unix seconds. */
  datatype Token = Token(claims: seq<Claim>, expires: int, issuer: string, audience: string)

  /** Thirty minutes. */
  const TokenLifetime := 30 * 60

  /** `FirstOrDefault(x => x.UserId == userId)` over a table in row order. */
  function FirstFor(table: seq<Link>, userId: string): (r: Option<nat>)
    ensures r.None? <==> forall i :: 0 <= i < |table| ==> table[i].userId != userId
    ensures r.Some? ==> exists i :: 0 <= i < |table| && table[i] == Link(r.value, userId)
                                    && forall j :: 0 <= j < i ==> table[j].userId != userId
  {
    if table == [] then None
    else if table[0].userId == userId then Some(table[0].entityId)
    else
      var r := FirstFor(table[1..], userId);
      if r.Some? then
        ghost var i :| 0 <= i < |table[1..]| && table[1..][i] == Link(r.value, userId)
                        && forall j :: 0 <= j < i ==> table[1..][j].userId != userId;
        assert table[i + 1] == Link(r.value, userId);
        r
      else r
  }

  /** `GetUserSpecificIdAsync`: the first of the roles patient, doctor, admin
      that the account holds picks the table; the result is that table's row
      for the account, or nothing when it has none, even if a later role's
      table would have one. */
  function UserSpecificId(user: User, patients: seq<Link>, doctors: seq<Link>, admins: seq<Link>): (r: Option<nat>)
    ensures "patient" in user.roles ==> r == FirstFor(patients, user.id)
    ensures "patient" !in user.roles && "doctor" in user.roles ==> r == FirstFor(doctors, user.id)
    ensures "patient" !in user.roles && "doctor" !in user.roles && "admin" in user.roles ==> r == FirstFor(admins, user.id)
    ensures "patient" !in user.roles && "doctor" !in user.roles && "admin" !in user.roles ==> r.None?
  {
    if "patient" in user.roles then FirstFor(patients, user.id)
    else if "doctor" in user.roles then FirstFor(doctors, user.id)
    else if "admin" in user.roles then FirstFor(admins, user.id)
    else None
  }

  /** An account holding both the patient and the doctor role without a
      patient row gets no id, even when it has a doctor row. */
  lemma NoFallThrough(user: User, patients: seq<Link>, doctors: seq<Link>, admins: seq<Link>)
    requires "patient" in user.roles && "doctor" in user.roles
    requires forall i :: 0 <= i < |patients| ==> patients[i].userId != user.id
    ensures UserSpecificId(user, patients, doctors, admins).None?
  {
  }

  /** What `AddRoleAsync` does from the front of `names` on: the names it
      reports as added, and the role set it leaves. A name is reported
      whenever it does not exist when its turn comes, whether or not the
      store then accepts it (`refused` are the names the store rejects). */
  function AddRoles(names: seq<string>, existing: set<string>, refused: set<string>): (r: (seq<string>, set<string>))
    ensures existing <= r.1
  {
    if names == [] then ([], existing)
    else if names[0] in existing then AddRoles(names[1..], existing, refused)
    else
      var next := if names[0] in refused then existing else existing + {names[0]};
      var rest := AddRoles(names[1..], next, refused);
      ([names[0]] + rest.0, rest.1)
  }

  /** When the store accepts every name, `AddRoleAsync` reports exactly the
      names that did not exist, each once, in input order, and afterwards
      every name exists. */
  lemma {:induction false} AddRolesReportsNewNames(names: seq<string>, existing: set<string>)
    ensures var (added, final) := AddRoles(names, existing, {});
            && (forall x :: x in added <==> x in names && x !in existing)
            && NoDuplicates(added)
            && IsSubsequence(added, names)
            && (forall x :: x in final <==> x in existing || x in names)
  {
    if names != [] {
      var next := if names[0] in existing then existing else existing + {names[0]};
      AddRolesReportsNewNames(names[1..], next);
      var (added, final) := AddRoles(names, existing, {});
      var rest := AddRoles(names[1..], next, {});
      assert forall x :: x in names <==> x == names[0] || x in names[1..] by {
        assert names == [names[0]] + names[1..];
      }
      if names[0] !in existing {
        assert added == [names[0]] + rest.0;
        forall x | x in rest.0 ensures x != names[0] {
        }
        assert IsSubsequence(added, names) by {
          assert added[1..] == rest.0;
        }
      } else {
        assert IsSubsequence(added, names) by {
          SubsequenceOfTail(added, names);
        }
      }
    }
  }

  /** A subsequence of the tail is a subsequence of the whole. */
  lemma {:induction false} SubsequenceOfTail<T>(r: seq<T>, xs: seq<T>)
    requires xs != [] && IsSubsequence(r, xs[1..])
    ensures IsSubsequence(r, xs)
  {
  }

  class AuthService {
    /** `UserManager`'s accounts, by email. */
    var users: map<string, User>
    /** `RoleManager`'s role names. */
    var roleNames: set<string>
    /** The names `RoleManager.CreateAsync` refuses. */
    const refusedRoleNames: set<string>
    /** The `Patients`, `Doctors` and `Admins` tables, in row order. */
    var patients: seq<Link>
    var doctors: seq<Link>
    var admins: seq<Link>

    constructor (users: map<string, User>, roleNames: set<string>, refusedRoleNames: set<string>,
                 patients: seq<Link>, doctors: seq<Link>, admins: seq<Link>)
      ensures this.users == users && this.roleNames == roleNames && this.refusedRoleNames == refusedRoleNames
      ensures this.patients == patients && this.doctors == doctors && this.admins == admins
    {
      this.users, this.roleNames, this.refusedRoleNames := users, roleNames, refusedRoleNames;
      this.patients, this.doctors, this.admins := patients, doctors, admins;
    }

    /** `AddRoleAsync`: creates each name that does not exist yet and reports
        it. */
    method AddRole(names: seq<string>) returns (added: seq<string>)
      modifies this
      ensures (added, roleNames) == AddRoles(names, old(roleNames), refusedRoleNames)
      ensures users == old(users) && patients == old(patients) && doctors == old(doctors) && admins == old(admins)
    {
      added := [];
      var i := 0;
      assert names[0..] == names;
      assert [] + AddRoles(names, roleNames, refusedRoleNames).0 == AddRoles(names, roleNames, refusedRoleNames).0;
      while i < |names|
        invariant 0 <= i <= |names|
        invariant users == old(users) && patients == old(patients) && doctors == old(doctors) && admins == old(admins)
        invariant var rest := AddRoles(names[i..], roleNames, refusedRoleNames);
                  AddRoles(names, old(roleNames), refusedRoleNames) == (added + rest.0, rest.1)
      {
        var name := names[i];
        assert names[i..][1..] == names[i + 1..];
        if name !in roleNames {
          ghost var rest := AddRoles(names[i + 1..], if name in refusedRoleNames then roleNames else roleNames + {name}, refusedRoleNames);
          assert AddRoles(names[i..], roleNames, refusedRoleNames) == ([name] + rest.0, rest.1);
          if name !in refusedRoleNames {
            roleNames := roleNames + {name};
          }
          added := added + [name];
          ConcatAssoc(added[..|added| - 1], [name], rest.0);
          assert added[..|added| - 1] + [name] == added;
        }
        i := i + 1;
      }
      assert names[i..] == [];
      assert added + [] == added;
    }

    /** `AddUserRoleAsync`: the roles are assigned only when the account
        exists and every name in the non-empty list is a role. The
        assignment, `AddToRolesAsync`, then refuses a role the account
        already holds, and otherwise adds each name once and succeeds as the
        store's save does (`accepted`); every other case gives false. */
    method AddUserRole(email: string, names: seq<string>, accepted: bool) returns (ok: bool)
      modifies this
      ensures ok <==> && email in old(users) && |names| > 0 && (forall k :: 0 <= k < |names| ==> names[k] in roleNames)
                      && HoldsNone(old(users)[email], names) && accepted
      ensures ok ==> users == old(users)[email := old(users)[email].(roles := old(users)[email].roles + Distinct(names))]
      ensures !ok ==> users == old(users)
      ensures roleNames == old(roleNames)
      ensures patients == old(patients) && doctors == old(doctors) && admins == old(admins)
    {
      var found := email in users;
      var listed: seq<string> := [];
      var i := 0;
      while i < |names|
        invariant 0 <= i <= |names|
        invariant |listed| <= i
        invariant |listed| == i <==> forall k :: 0 <= k < i ==> names[k] in roleNames
        invariant |listed| == i ==> listed == names[..i]
        invariant i > 0 && found ==> |listed| != |names|
        invariant unchanged(this)
      {
        if names[i] in roleNames {
          listed := listed + [names[i]];
        }
        assert names[..i + 1] == names[..i] + [names[i]];
        if found && |listed| == |names| {
          assert i == |names| - 1;
          assert names[..i + 1] == names;
          ok := accepted && HoldsNone(users[email], listed);
          if ok {
            users := users[email := users[email].(roles := users[email].roles + Distinct(listed))];
          }
          return;
        }
        i := i + 1;
      }
      return false;
    }

    /** `EnsureRoleExistsAsync`. */
    method EnsureRoleExists(name: string) returns (ok: bool)
      modifies this
      ensures name in old(roleNames) ==> ok && roleNames == old(roleNames)
      ensures name !in old(roleNames) ==>
                (ok <==> name !in refusedRoleNames)
                && roleNames == if ok then old(roleNames) + {name} else old(roleNames)
      ensures users == old(users) && patients == old(patients) && doctors == old(doctors) && admins == old(admins)
    {
      if name in roleNames {
        return true;
      }
      if name in refusedRoleNames {
        return false;
      }
      roleNames := roleNames + {name};
      return true;
    }

    /** `GenerateJwtTokenAsync` at Unix time `now`, with `jti` the fresh GUID
        and `issuer` and `audience` from the configuration: nothing for an
        unknown email; otherwise `sub`, `jti`, `iat`, `id`, then
        `userSpecificId` when the account has such a row, then one `role`
        claim per role, in role order, expiring thirty minutes later. */
    method GenerateJwtToken(email: string, jti: string, now: nat, issuer: string, audience: string)
      returns (token: Option<Token>)
      ensures email !in users <==> token.None?
      ensures token.Some? ==>
                var user := users[email];
                var usid := UserSpecificId(user, patients, doctors, admins);
                var claims := token.value.claims;
                var n := if usid.Some? then 5 else 4;
                && token.value.expires == now + TokenLifetime
                && token.value.issuer == issuer && token.value.audience == audience
                && |claims| == n + |user.roles|
                && claims[0] == Claim("sub", user.userName)
                && claims[1] == Claim("jti", jti)
                && claims[2] == Claim("iat", Decimal(now))
                && claims[3] == Claim("id", user.id)
                && (usid.Some? ==> claims[4] == Claim("userSpecificId", Decimal(usid.value)))
                && (forall k :: 0 <= k < |user.roles| ==> claims[n + k] == Claim("role", user.roles[k]))
                && (usid.None? <==> forall k :: 0 <= k < |claims| ==> claims[k].kind != "userSpecificId")
    {
      if email !in users {
        return None;
      }
      var user := users[email];
      var roleClaims := seq(|user.roles|, k requires 0 <= k < |user.roles| => Claim("role", user.roles[k]));
      var claims := [Claim("sub", user.userName), Claim("jti", jti), Claim("iat", Decimal(now)), Claim("id", user.id)];
      var usid := UserSpecificId(user, patients, doctors, admins);
      if usid.Some? {
        claims := claims + [Claim("userSpecificId", Decimal(usid.value))];
      }
      claims := claims + roleClaims;
      token := Some(Token(claims, now + TokenLifetime, issuer, audience));
    }
  }
}
