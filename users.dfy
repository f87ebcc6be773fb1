/** The user table: the two registration screens, the personal-data editor
    and account deletion (user/usuario.py and the older usuario.py). Every
    answer the operator types is a parameter, already stripped of surrounding
    blanks where the source strips it; password hashes are parameters too. */
module Users {
  import opened Base
  import opened Records

  const CancelWord: string := "voltar"
  const Male: string := "masculino"
  const Female: string := "feminino"

  /** `answer.lower() == "voltar"` */
  predicate Cancels(answer: string) {
    Lower(answer) == CancelWord
  }

  /** At least three characters and no blank. */
  predicate ValidName(name: string) {
    |name| >= 3 && ' ' !in name
  }

  /** `any(u["usuario"] == usuario for u in usuarios)`: exact, case-sensitive. */
  predicate NameTaken(users: seq<User>, name: string) {
    exists i :: 0 <= i < |users| && users[i].name == name
  }

  /** No two accounts share a name. */
  predicate DistinctNames(users: seq<User>) {
    forall i, j :: 0 <= i < j < |users| ==> users[i].name != users[j].name
  }

  // ---------------------------------------------------------------------
  // Registration (current variant)

  /** The answers to the registration prompts, in prompt order. */
  datatype RegistrationForm = RegistrationForm(
    name: string, password: string, confirmation: string, gender: string, age: string)

  datatype RegistrationError =
    | Cancelled          // 'voltar' typed at some prompt
    | InvalidName        // shorter than 3 characters or holding a blank
    | DuplicateName      // an account of that exact name exists
    | PasswordTooShort   // fewer than 6 characters
    | PasswordMismatch   // confirmation differs
    | InvalidGender      // neither masculino nor feminino
    | AgeNotInteger      // `int()` refuses the text
    | AgeNotPositive     // zero or negative

  /** Everything the registration screen demands of the answers, at once. */
  predicate Admissible(users: seq<User>, f: RegistrationForm) {
    && !Cancels(f.name) && ValidName(f.name) && !NameTaken(users, f.name)
    && !Cancels(f.password) && |f.password| >= 6
    && !Cancels(f.confirmation) && f.password == f.confirmation
    && (Lower(f.gender) == Male || Lower(f.gender) == Female)
    && !Cancels(f.age) && ParseInt(f.age).Some? && ParseInt(f.age).value > 0
  }

  /** The registration screen, prompt by prompt, each refusal ending it; on
      success the account to append. */
  function Admit(users: seq<User>, f: RegistrationForm, passwordHash: string): (r: Result<User, RegistrationError>)
    ensures r.Ok? <==> Admissible(users, f)
    ensures r.Ok? ==> r.value == User(f.name, passwordHash, UserKind, Some(Lower(f.gender)), ParseInt(f.age))
    ensures r.Ok? ==> ValidName(r.value.name) && r.value.age.value > 0
                      && (r.value.gender == Some(Male) || r.value.gender == Some(Female))
    ensures r.Ok? && DistinctNames(users) ==> DistinctNames(users + [r.value])
    ensures r == Err(DuplicateName) <==> !Cancels(f.name) && ValidName(f.name) && NameTaken(users, f.name)
  {
    if Cancels(f.name) then Err(Cancelled)
    else if |f.name| < 3 || ' ' in f.name then Err(InvalidName)
    else if NameTaken(users, f.name) then Err(DuplicateName)
    else if Cancels(f.password) then Err(Cancelled)
    else if |f.password| < 6 then Err(PasswordTooShort)
    else if Cancels(f.confirmation) then Err(Cancelled)
    else if f.password != f.confirmation then Err(PasswordMismatch)
    else if Cancels(f.gender) then Err(Cancelled)
    else if Lower(f.gender) != Male && Lower(f.gender) != Female then Err(InvalidGender)
    else if Cancels(f.age) then Err(Cancelled)
    else
      match ParseInt(f.age)
      case None => Err(AgeNotInteger)
      case Some(age) =>
        if age <= 0 then Err(AgeNotPositive)
        else
          var u := User(f.name, passwordHash, UserKind, Some(Lower(f.gender)), Some(age));
          assert forall i :: 0 <= i < |users| ==> (users + [u])[i] == users[i];
          Ok(u)
  }

  // ---------------------------------------------------------------------
  // Registration (older variant): exact duplicate check, then the gender.

  datatype LegacyRegistrationError = LegacyDuplicateName | LegacyInvalidGender

  /** `gender` is the answer after `.strip()`; the name is taken as typed. */
  function AdmitLegacy(users: seq<User>, name: string, gender: string, passwordHash: string)
    : (r: Result<User, LegacyRegistrationError>)
    ensures r.Ok? <==> !NameTaken(users, name) && (Lower(gender) == Male || Lower(gender) == Female)
    ensures r == Err(LegacyDuplicateName) <==> NameTaken(users, name)
    ensures r.Ok? ==> r.value == User(name, passwordHash, UserKind, Some(Lower(gender)), None)
    ensures r.Ok? && DistinctNames(users) ==> DistinctNames(users + [r.value])
  {
    if NameTaken(users, name) then Err(LegacyDuplicateName)
    else if Lower(gender) != Male && Lower(gender) != Female then Err(LegacyInvalidGender)
    else
      var u := User(name, passwordHash, UserKind, Some(Lower(gender)), None);
      assert forall i :: 0 <= i < |users| ==> (users + [u])[i] == users[i];
      Ok(u)
  }

  /** The older screen's duplicate scan: a loop that stops at the first
      account of that name. */
  method FindName(users: seq<User>, name: string) returns (found: bool)
    ensures found <==> NameTaken(users, name)
  {
    var i := 0;
    while i < |users|
      invariant 0 <= i <= |users|
      invariant forall j :: 0 <= j < i ==> users[j].name != name
    {
      if users[i].name == name {
        return true;
      }
      i := i + 1;
    }
    return false;
  }

  // ---------------------------------------------------------------------
  // Deletion

  /** `[u for u in usuarios if u["usuario"] != nome]` */
  function WithoutUser(users: seq<User>, name: string): (r: seq<User>)
    ensures forall u :: u in r <==> u in users && u.name != name
    ensures |r| <= |users|
  {
    if |users| == 0 then []
    else
      var last := users[|users| - 1];
      assert users == users[..|users| - 1] + [last];
      WithoutUser(users[..|users| - 1], name) + (if last.name != name then [last] else [])
  }

  /** Deletion keeps the other accounts in table order: filtering two
      consecutive parts of the table is filtering each and concatenating. */
  lemma {:induction false} WithoutUserKeepsOrder(a: seq<User>, b: seq<User>, name: string)
    ensures WithoutUser(a + b, name) == WithoutUser(a, name) + WithoutUser(b, name)
    decreases |b|
  {
    if |b| > 0 {
      var n := |b|;
      assert (a + b)[..|a + b| - 1] == a + b[..n - 1];
      assert (a + b)[|a + b| - 1] == b[n - 1];
      WithoutUserKeepsOrder(a, b[..n - 1], name);
    } else {
      assert a + b == a;
    }
  }

  /** Deleting a name nobody has changes nothing. */
  lemma {:induction false} WithoutAbsentUser(users: seq<User>, name: string)
    requires !NameTaken(users, name)
    ensures WithoutUser(users, name) == users
  {
    if |users| > 0 {
      var n := |users|;
      var front, last := users[..n - 1], users[n - 1];
      assert !NameTaken(front, name) by {
        forall j | 0 <= j < n - 1 ensures front[j].name != name {
          assert front[j] == users[j];
        }
      }
      WithoutAbsentUser(front, name);
      assert last.name != name;
      calc {
        WithoutUser(users, name);
        WithoutUser(front, name) + [last];
        front + [last];
        { assert users == front + [last]; }
        users;
      }
    }
  }

  /** Deletion removes exactly the accounts of that name: as many as there
      were, and only those. */
  lemma {:induction false} WithoutUserCount(users: seq<User>, name: string)
    ensures |WithoutUser(users, name)| == |users| - |Named(users, name)|
    ensures !NameTaken(WithoutUser(users, name), name)
  {
    if |users| > 0 {
      var n := |users|;
      WithoutUserCount(users[..n - 1], name);
      var r := WithoutUser(users, name);
      forall i | 0 <= i < |r| ensures r[i].name != name {
        assert r[i] in r;
      }
    }
  }

  /** The accounts of a given name, in table order. */
  function Named(users: seq<User>, name: string): seq<User> {
    if |users| == 0 then []
    else
      var last := users[|users| - 1];
      Named(users[..|users| - 1], name) + (if last.name == name then [last] else [])
  }

  /** Deletion keeps distinct names distinct. */
  lemma {:induction false} WithoutUserKeepsDistinct(users: seq<User>, name: string)
    requires DistinctNames(users)
    ensures DistinctNames(WithoutUser(users, name))
  {
    if |users| > 0 {
      var n := |users|;
      var prefix := WithoutUser(users[..n - 1], name);
      WithoutUserKeepsDistinct(users[..n - 1], name);
      forall i | 0 <= i < |prefix| ensures prefix[i].name != users[n - 1].name {
        assert prefix[i] in prefix;
        var p :| 0 <= p < n - 1 && users[..n - 1][p] == prefix[i];
        assert users[p] == prefix[i];
      }
    }
  }

  // ---------------------------------------------------------------------
  // The personal-data editor

  /** One pass of the editor's menu: the option typed, the answer to its
      prompt (stripped), and the hash the source would compute for a new
      password. */
  datatype ProfileEdit = ProfileEdit(option: string, answer: string, hash: string)

  datatype EditStep =
    | Skip                         // cancelled, invalid input or invalid option
    | Updated(record: User)        // the edited account, to be saved
    | DeleteAccount(confirm: string)
    | Leave

  /** What one menu pass does to the account being edited: an empty answer
      cancels; a new age must be all digits (so 0 is accepted); a new gender
      is any non-empty text, lower-cased; a new name is not checked against
      the other accounts. */
  function ApplyEdit(current: User, e: ProfileEdit): (r: EditStep)
    ensures r.Updated? ==> e.answer != [] && (e.option == "1" || e.option == "2" || e.option == "3" || e.option == "4")
    ensures e.answer != [] && (e.option == "1" || e.option == "2" || e.option == "4") ==> r.Updated?
    ensures r.Updated? && e.option == "1" ==> r.record == current.(name := e.answer)
    ensures r.Updated? && e.option == "2" ==> r.record == current.(passwordHash := e.hash)
    ensures e.option == "3" && e.answer != [] ==> (r.Updated? <==> AllDigits(e.answer))
    ensures r.Updated? && e.option == "3" ==>
              ParseNat(e.answer).Some? && r.record == current.(age := Some(ParseNat(e.answer).value as int))
    ensures r.Updated? && e.option == "4" ==> r.record == current.(gender := Some(Lower(e.answer)))
    ensures r.Leave? <==> e.option == "6"
    ensures r.DeleteAccount? <==> e.option == "5"
  {
    if e.option == "1" then
      if e.answer == [] then Skip else Updated(current.(name := e.answer))
    else if e.option == "2" then
      if e.answer == [] then Skip else Updated(current.(passwordHash := e.hash))
    else if e.option == "3" then
      if e.answer == [] then Skip
      else match ParseNat(e.answer)
        case None => Skip
        case Some(n) => Updated(current.(age := Some(n)))
    else if e.option == "4" then
      if e.answer == [] then Skip else Updated(current.(gender := Some(Lower(e.answer))))
    else if e.option == "5" then DeleteAccount(e.answer)
    else if e.option == "6" then Leave
    else Skip
  }

  /** The position of the first account named `name`, if any. */
  function FirstNamed(users: seq<User>, name: string): (r: Option<nat>)
    ensures r.Some? ==> r.value < |users| && users[r.value].name == name
                        && forall j :: 0 <= j < r.value ==> users[j].name != name
    ensures r.None? <==> !NameTaken(users, name)
    decreases |users|
  {
    if |users| == 0 then None
    else if users[0].name == name then Some(0)
    else
      match FirstNamed(users[1..], name)
      case None =>
        assert forall j :: 1 <= j < |users| ==> users[j] == users[1..][j - 1];
        None
      case Some(k) => Some(k + 1)
  }

  /** The table after the editor saves `record` over the first account named
      `originalName`; unchanged when there is none. */
  function ReplaceFirstNamed(users: seq<User>, originalName: string, record: User): (r: seq<User>)
    ensures |r| == |users|
    ensures !NameTaken(users, originalName) ==> r == users
    ensures NameTaken(users, originalName) ==>
              exists k :: 0 <= k < |users| && users[k].name == originalName
                && (forall j :: 0 <= j < k ==> users[j].name != originalName)
                && r == users[k := record]
  {
    match FirstNamed(users, originalName)
    case None => users
    case Some(k) => users[k := record]
  }

  /** The replacement is the first account of that name and nothing else. */
  lemma ReplaceFirstNamedAt(users: seq<User>, originalName: string, record: User, k: nat)
    requires k < |users| && users[k].name == originalName
    requires forall j :: 0 <= j < k ==> users[j].name != originalName
    ensures ReplaceFirstNamed(users, originalName, record) == users[k := record]
  {
    var r := ReplaceFirstNamed(users, originalName, record);
    assert NameTaken(users, originalName);
    var k' :| 0 <= k' < |users| && users[k'].name == originalName
              && (forall j :: 0 <= j < k' ==> users[j].name != originalName)
              && r == users[k' := record];
    assert !(k < k') && !(k' < k);
  }

  /** The user table. */
  class UserDirectory {
    var users: seq<User>

    constructor(users0: seq<User>)
      ensures users == users0
    {
      users := users0;
    }

    /** `cadastrar_usuario` (current variant). */
    method Register(f: RegistrationForm, passwordHash: string) returns (r: Result<User, RegistrationError>)
      modifies this
      ensures r == Admit(old(users), f, passwordHash)
      ensures r.Ok? <==> Admissible(old(users), f)
      ensures r.Ok? ==> users == old(users) + [r.value]
      ensures r.Err? ==> users == old(users)
      ensures DistinctNames(old(users)) ==> DistinctNames(users)
    {
      r := Admit(users, f, passwordHash);
      if r.Ok? {
        users := users + [r.value];
      }
    }

    /** `cadastrar_usuario` (older variant): the duplicate scan, then the gender. */
    method RegisterLegacy(name: string, gender: string, passwordHash: string)
      returns (r: Result<User, LegacyRegistrationError>)
      modifies this
      ensures r == AdmitLegacy(old(users), name, gender, passwordHash)
      ensures r.Ok? <==> !NameTaken(old(users), name) && (Lower(gender) == Male || Lower(gender) == Female)
      ensures r.Ok? ==> users == old(users) + [r.value]
      ensures r.Err? ==> users == old(users)
      ensures DistinctNames(old(users)) ==> DistinctNames(users)
    {
      var taken := FindName(users, name);
      if taken {
        return Err(LegacyDuplicateName);
      }
      r := AdmitLegacy(users, name, gender, passwordHash);
      if r.Ok? {
        users := users + [r.value];
      }
    }

    /** `deletar_usuario`: on confirmation ("s", any case) every account of
        that name goes; otherwise nothing changes. */
    method Delete(name: string, confirm: string)
      modifies this
      ensures Lower(confirm) == "s" ==> users == WithoutUser(old(users), name)
      ensures Lower(confirm) != "s" ==> users == old(users)
      ensures !NameTaken(old(users), name) ==> users == old(users)
      ensures DistinctNames(old(users)) ==> DistinctNames(users)
    {
      if Lower(confirm) == "s" {
        if !NameTaken(users, name) {
          WithoutAbsentUser(users, name);
        }
        if DistinctNames(users) {
          WithoutUserKeepsDistinct(users, name);
        }
        users := WithoutUser(users, name);
      }
    }

    /** The editor's save: the enumerate loop that overwrites the first
        account still named `originalName`. */
    method SaveProfile(originalName: string, record: User)
      modifies this
      ensures users == ReplaceFirstNamed(old(users), originalName, record)
    {
      var i := 0;
      while i < |users|
        invariant 0 <= i <= |users|
        invariant users == old(users)
        invariant forall j :: 0 <= j < i ==> users[j].name != originalName
      {
        if users[i].name == originalName {
          ReplaceFirstNamedAt(users, originalName, record, i);
          users := users[i := record];
          return;
        }
        i := i + 1;
      }
    }

    /** `editar_dados`: menu passes until the operator leaves, deletes the
        account or the input ends. Each pass that changes the account saves
        it over the first account still named as the account was named when
        the editor opened. Returns the account as the editor holds it. */
    method EditProfile(current: User, edits: seq<ProfileEdit>) returns (held: User)
      modifies this
      ensures users == EditedTable(old(users), current.name, current, edits)
    {
      held := current;
      var i := 0;
      while i < |edits|
        invariant 0 <= i <= |edits|
        invariant EditedTable(old(users), current.name, current, edits)
               == EditedTable(users, current.name, held, edits[i..])
      {
        match ApplyEdit(held, edits[i])
        case Skip =>
          i := i + 1;
        case Updated(u) =>
          held := u;
          SaveProfile(current.name, u);
          i := i + 1;
        case DeleteAccount(confirm) =>
          Delete(held.name, confirm);
          return;
        case Leave =>
          return;
      }
    }
  }

  /** The table at the end of an editor session, pass by pass. */
  function EditedTable(users: seq<User>, originalName: string, held: User, edits: seq<ProfileEdit>): seq<User>
    decreases |edits|
  {
    if |edits| == 0 then users
    else
      match ApplyEdit(held, edits[0])
      case Skip => EditedTable(users, originalName, held, edits[1..])
      case Updated(u) => EditedTable(ReplaceFirstNamed(users, originalName, u), originalName, u, edits[1..])
      case DeleteAccount(confirm) => if Lower(confirm) == "s" then WithoutUser(users, held.name) else users
      case Leave => users
  }

  /** The editor does not check a new name against the other accounts:
      renaming "ana" to "bia" while "bia" exists leaves two accounts named
      "bia". */
  lemma RenameCanDuplicate(ana: User, bia: User, edits: seq<ProfileEdit>)
    requires ana.name == "ana" && bia.name == "bia"
    requires edits == [ProfileEdit("1", "bia", "")]
    ensures DistinctNames([ana, bia])
    ensures !DistinctNames(EditedTable([ana, bia], ana.name, ana, edits))
  {
    var renamed := ana.(name := "bia");
    assert ApplyEdit(ana, edits[0]) == Updated(renamed);
    ReplaceFirstNamedAt([ana, bia], "ana", renamed, 0);
    var saved := [ana, bia][0 := renamed];
    assert saved == [renamed, bia];
    assert EditedTable([ana, bia], ana.name, ana, edits) == EditedTable(saved, "ana", renamed, edits[1..]);
    assert edits[1..] == [];
    assert saved[0].name == saved[1].name;
  }

  /** The editor looks the account up by the name it had when the editor
      opened: once a rename is saved, a later change finds no account of that
      name and is not saved. */
  lemma EditAfterRenameIsLost(ana: User, edits: seq<ProfileEdit>)
    requires ana.name == "ana" && ana.age == Some(20)
    requires edits == [ProfileEdit("1", "bia", ""), ProfileEdit("3", "30", "")]
    ensures EditedTable([ana], ana.name, ana, edits) == [ana.(name := "bia")]
  {
    var renamed := ana.(name := "bia");
    assert ApplyEdit(ana, edits[0]) == Updated(renamed);
    ReplaceFirstNamedAt([ana], "ana", renamed, 0);
    assert [ana][0 := renamed] == [renamed];
    assert EditedTable([ana], ana.name, ana, edits) == EditedTable([renamed], "ana", renamed, edits[1..]);
    assert ParseNat("30") == Some(30) by {
      assert AllDigits("30");
      assert DigitsValue("30") == DigitsValue("3") * 10 + 0;
    }
    var aged := renamed.(age := Some(30));
    assert ApplyEdit(renamed, edits[1]) == Updated(aged);
    assert !NameTaken([renamed], "ana");
    assert ReplaceFirstNamed([renamed], "ana", aged) == [renamed];
    assert EditedTable([renamed], "ana", renamed, edits[1..]) == EditedTable([renamed], "ana", aged, edits[1..][1..]);
    assert edits[1..][1..] == [];
  }
}
