/** The administrator's login (admins/admin.py `autenticar_admin`): at most
    three attempts, each compared with the fixed administrator name and the
    SHA-256 digest of the fixed password. The digest function is a
    parameter. */
module AdminLogin {

  const AdminUser: string := "admin"
  const AdminPassword: string := "admin123"
  const MaxAttempts: nat := 3

  /** One pair of answers to the user and password prompts. */
  datatype Attempt = Attempt(user: string, password: string)

  predicate Accepted(a: Attempt, digest: string -> string) {
    a.user == AdminUser && digest(a.password) == digest(AdminPassword)
  }

  /** The attempt loop. `attempts` is what the operator types, in order; when
      it runs out before the third attempt, access is refused. Returns
      whether access was granted and how many attempts were read. */
  method Authenticate(attempts: seq<Attempt>, digest: string -> string) returns (granted: bool, used: nat)
    ensures used <= MaxAttempts && used <= |attempts|
    ensures granted <==> exists i :: 0 <= i < MaxAttempts && i < |attempts| && Accepted(attempts[i], digest)
    ensures granted ==> 1 <= used && Accepted(attempts[used - 1], digest)
    ensures forall j :: 0 <= j < used && !(granted && j == used - 1) ==> !Accepted(attempts[j], digest)
    ensures !granted ==> used == if |attempts| < MaxAttempts then |attempts| else MaxAttempts
  {
    var tries := 0;
    while tries < MaxAttempts && tries < |attempts|
      invariant tries <= MaxAttempts && tries <= |attempts|
      invariant forall j :: 0 <= j < tries ==> !Accepted(attempts[j], digest)
    {
      if Accepted(attempts[tries], digest) {
        return true, tries + 1;
      }
      tries := tries + 1;
    }
    return false, tries;
  }

  /** With a digest that tells passwords apart, the login accepts exactly the
      fixed name and password. */
  lemma AcceptsOnlyTheAdministrator(a: Attempt, digest: string -> string)
    requires forall x, y :: digest(x) == digest(y) ==> x == y
    ensures Accepted(a, digest) <==> a == Attempt(AdminUser, AdminPassword)
  {
  }
}
