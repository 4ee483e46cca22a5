/**
 * The role branch of `/register`: a registrar must prove membership of
 * an approved institution (email under its domain, and its registrar
 * code); any other requested role becomes `verifier`. Usernames are unique.
 */
module Registration {
  import opened Wrappers
  import opened Text
  import opened Search
  import opened Onboarding

  const RegistrarRole := "registrar"
  const VerifierRole := "verifier"

  /** A row of the `users` table (the password hash is not modelled). */
  datatype User = User(username: string, role: string, secretWord: string,
                       email: Option<string>, institutionDomain: Option<string>)

  /** The outcome of the role check. */
  datatype RoleGate =
    | RegistrarGranted
    | VerifierAssigned
    | RegistrarFieldsMissing
    | EmailDomainMismatch
    | InstitutionNotFound
    | InvalidRegistrarCode
  {
    predicate Passed() {
      RegistrarGranted? || VerifierAssigned?
    }

    function Status(): int
      requires !Passed()
    {
      if InvalidRegistrarCode? then 403 else 400
    }
  }

  datatype RegisterResponse = RegisterMissingFields | RoleRejected(gate: RoleGate) | UsernameTaken | Registered(role: string)

  /** `next((inst for inst in institutions if inst["domain"] == domain), None)`. */
  function FirstInstitutionFor(institutions: seq<Institution>, domain: string): (r: Option<nat>)
    ensures r.Some? ==> r.value < |institutions| && institutions[r.value].domain == domain
    ensures r.Some? ==> forall j :: 0 <= j < r.value ==> institutions[j].domain != domain
    ensures r.None? <==> forall j :: 0 <= j < |institutions| ==> institutions[j].domain != domain
  {
    FirstMatch(institutions, (inst: Institution) => inst.domain == domain)
  }

  /** A registrar request carrying all three registrar fields. */
  predicate RegistrarFieldsGiven(role: string, email: Option<string>, institutionDomain: Option<string>,
                                 roleCode: Option<string>) {
    role == RegistrarRole && Given(email) && Given(institutionDomain) && Given(roleCode)
  }

  /**
   * Lines of `/register` from the role test to the code comparison. Each
   * outcome is characterised exactly: the first institution with the exact
   * domain decides the code check.
   */
  function CheckRole(role: string, email: Option<string>, institutionDomain: Option<string>,
                     roleCode: Option<string>, institutions: seq<Institution>): (g: RoleGate)
    ensures g == VerifierAssigned <==> role != RegistrarRole
    ensures g == RegistrarFieldsMissing <==>
      role == RegistrarRole && !(Given(email) && Given(institutionDomain) && Given(roleCode))
    ensures g == EmailDomainMismatch <==>
      RegistrarFieldsGiven(role, email, institutionDomain, roleCode)
      && !EndsWith(email.value, "@" + institutionDomain.value)
    ensures g == InstitutionNotFound <==>
      && RegistrarFieldsGiven(role, email, institutionDomain, roleCode)
      && EndsWith(email.value, "@" + institutionDomain.value)
      && forall k :: 0 <= k < |institutions| ==> institutions[k].domain != institutionDomain.value
    ensures g == InvalidRegistrarCode <==>
      && RegistrarFieldsGiven(role, email, institutionDomain, roleCode)
      && EndsWith(email.value, "@" + institutionDomain.value)
      && FirstInstitutionFor(institutions, institutionDomain.value).Some?
      && institutions[FirstInstitutionFor(institutions, institutionDomain.value).value].code != roleCode.value
    ensures g == RegistrarGranted <==>
      && RegistrarFieldsGiven(role, email, institutionDomain, roleCode)
      && EndsWith(email.value, "@" + institutionDomain.value)
      && FirstInstitutionFor(institutions, institutionDomain.value).Some?
      && institutions[FirstInstitutionFor(institutions, institutionDomain.value).value].code == roleCode.value
    ensures g == RegistrarGranted ==>
      exists k :: 0 <= k < |institutions|
        && institutions[k].domain == institutionDomain.value && institutions[k].code == roleCode.value
    ensures !g.Passed() ==> g.Status() == (if g == InvalidRegistrarCode then 403 else 400)
  {
    if role != RegistrarRole then
      VerifierAssigned
    else if !Given(email) || !Given(institutionDomain) || !Given(roleCode) then
      RegistrarFieldsMissing
    else if !EndsWith(email.value, "@" + institutionDomain.value) then
      EmailDomainMismatch
    else
      match FirstInstitutionFor(institutions, institutionDomain.value)
      case None => InstitutionNotFound
      case Some(k) => if institutions[k].code != roleCode.value then InvalidRegistrarCode else RegistrarGranted
  }

  /**
   * Over a unique institution list, a registrar whose email matches the
   * domain is admitted exactly when some institution has that domain and
   * that code; otherwise the code is wrong (403) or the domain is unknown.
   */
  lemma RegistrarGateOverUniqueList(email: string, domain: string, code: string, institutions: seq<Institution>)
    requires UniqueInstitutions(institutions)
    requires email != "" && domain != "" && code != ""
    requires EndsWith(email, "@" + domain)
    ensures CheckRole(RegistrarRole, Some(email), Some(domain), Some(code), institutions) == RegistrarGranted <==>
      exists k :: 0 <= k < |institutions| && institutions[k].domain == domain && institutions[k].code == code
    ensures CheckRole(RegistrarRole, Some(email), Some(domain), Some(code), institutions) == InvalidRegistrarCode <==>
      && (exists k :: 0 <= k < |institutions| && institutions[k].domain == domain)
      && !(exists k :: 0 <= k < |institutions| && institutions[k].domain == domain && institutions[k].code == code)
  {
  }

  predicate UsernameTakenIn(users: seq<User>, username: string) {
    exists k :: 0 <= k < |users| && users[k].username == username
  }

  predicate UniqueUsernames(users: seq<User>) {
    forall i, j :: 0 <= i < j < |users| ==> users[i].username != users[j].username
  }

  class UserDirectory {
    var users: seq<User>

    constructor ()
      ensures users == []
    {
      users := [];
    }

    /**
     * `/register` without password hashing: required fields, the role
     * gate against the approved `institutions`, the username check, the insert.
     */
    method RegisterUser(username: Option<string>, password: Option<string>, role: Option<string>,
                        secretWord: Option<string>, email: Option<string>, institutionDomain: Option<string>,
                        roleCode: Option<string>, institutions: seq<Institution>)
      returns (r: RegisterResponse)
      modifies this
      ensures !(Given(username) && Given(password) && Given(role) && Given(secretWord)) ==>
        r == RegisterMissingFields && users == old(users)
      ensures Given(username) && Given(password) && Given(role) && Given(secretWord) ==>
        var gate := CheckRole(role.value, email, institutionDomain, roleCode, institutions);
        && (!gate.Passed() ==> r == RoleRejected(gate) && users == old(users))
        && (gate.Passed() && UsernameTakenIn(old(users), username.value) ==>
              r == UsernameTaken && users == old(users))
        && (gate.Passed() && !UsernameTakenIn(old(users), username.value) ==>
              && r == Registered(if gate == RegistrarGranted then RegistrarRole else VerifierRole)
              && users == old(users) + [
                   if gate == RegistrarGranted
                   then User(username.value, RegistrarRole, secretWord.value, email, institutionDomain)
                   else User(username.value, VerifierRole, secretWord.value, None, None)])
      ensures UniqueUsernames(old(users)) ==> UniqueUsernames(users)
    {
      if !Given(username) || !Given(password) || !Given(role) || !Given(secretWord) {
        return RegisterMissingFields;
      }
      var gate := CheckRole(role.value, email, institutionDomain, roleCode, institutions);
      if !gate.Passed() {
        return RoleRejected(gate);
      }
      var grantedRole := if gate == RegistrarGranted then RegistrarRole else VerifierRole;
      if UsernameTakenIn(users, username.value) {
        return UsernameTaken;
      }
      var user := if grantedRole == RegistrarRole
        then User(username.value, RegistrarRole, secretWord.value, email, institutionDomain)
        else User(username.value, VerifierRole, secretWord.value, None, None);
      users := users + [user];
      return Registered(grantedRole);
    }
  }
}
