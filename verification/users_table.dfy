/** The administration table of users. The dialog's submit button is enabled
    only when the username and role are filled in, and, when a user is added,
    the password; the password itself is never stored in the table. */
module UsersTable {
  import opened Outcomes
  import opened Rows
  import AuthPages

  datatype User = User(id: int, username: string, role: string)

  /** The dialog's fields; `id` is set when a user is being edited. */
  datatype Form = Form(id: Option<int>, username: string, password: string, role: string)

  function UserId(u: User): int { u.id }

  /** The table's users before any edit. */
  function InitialUsers(): (r: seq<User>)
    ensures DistinctKeys(r, UserId)
    ensures NextId(Keys(r, UserId)) == 4
  {
    var r := [User(1, "admin", AuthPages.Administrator), User(2, "user1", AuthPages.Researcher),
              User(3, "user2", AuthPages.Researcher)];
    ThreeIds(Keys(r, UserId));
    r
  }

  /** The submit button's `disabled` expression, negated. */
  predicate SubmitEnabled(f: Form, isEdit: bool)
  {
    !(f.username == "" || f.role == "" || (if isEdit then false else f.password == ""))
  }

  /** `handleSubmit`: editing sets the username and role of the user with the
      form's id (none when it is null), adding appends a user under the next
      id. */
  function Submit(users: seq<User>, f: Form, isEdit: bool): (r: seq<User>)
    ensures isEdit ==> |r| == |users|
    ensures !isEdit ==> |r| == |users| + 1 && r[..|users|] == users
                        && r[|users|] == User(NextId(Keys(users, UserId)), f.username, f.role)
  {
    if isEdit then
      if f.id.None? then users
      else ReplaceWhere(users, UserId, f.id.value, (u: User) => u.(username := f.username, role := f.role))
    else
      var added := User(NextId(Keys(users, UserId)), f.username, f.role);
      assert (users + [added])[..|users|] == users;
      users + [added]
  }

  /** A press of the submit button: nothing happens while it is disabled. */
  function Press(users: seq<User>, f: Form, isEdit: bool): (r: Option<seq<User>>)
    ensures r.Some? <==> f.username != "" && f.role != "" && (isEdit || f.password != "")
    ensures r.Some? ==> r.value == Submit(users, f, isEdit)
  {
    if SubmitEnabled(f, isEdit) then Some(Submit(users, f, isEdit)) else None
  }

  /** `handleEdit`: the dialog opens on the user's data with an empty
      password. */
  function EditForm(u: User): (f: Form)
    ensures f.password == "" && f.id == Some(u.id)
  {
    Form(Some(u.id), u.username, "", u.role)
  }

  /** `handleDelete`. */
  function Delete(users: seq<User>, id: int): (r: seq<User>)
    ensures forall j :: 0 <= j < |r| ==> r[j].id != id
  {
    Remove(users, UserId, id)
  }

  /** The table never depends on the password typed. */
  lemma PasswordNotStored(users: seq<User>, f: Form, password: string, isEdit: bool)
    ensures Submit(users, f, isEdit) == Submit(users, f.(password := password), isEdit)
  {
    var g := f.(password := password);
    if isEdit && f.id.Some? {
      var update := (u: User) => u.(username := f.username, role := f.role);
      var update' := (u: User) => u.(username := g.username, role := g.role);
      assert update == update';
    }
  }

  /** Opening a user for editing and submitting unchanged is allowed with no
      password, and leaves the table as it was when ids are distinct. */
  lemma EditUnchanged(users: seq<User>, j: nat)
    requires j < |users| && DistinctKeys(users, UserId)
    requires users[j].username != "" && users[j].role != ""
    ensures Press(users, EditForm(users[j]), true) == Some(users)
  {
    var f := EditForm(users[j]);
    var update := (u: User) => u.(username := f.username, role := f.role);
    var r := Submit(users, f, true);
    forall i | 0 <= i < |users| ensures r[i] == users[i] {
      ReplaceWhereAt(users, UserId, users[j].id, update, i);
    }
    assert r == users;
  }

  /** Adding keeps the ids distinct; deleting the new id gives the table
      back. */
  lemma AddThenDelete(users: seq<User>, f: Form)
    requires DistinctKeys(users, UserId)
    ensures var r := Submit(users, f, false);
            DistinctKeys(r, UserId) && Delete(r, r[|users|].id) == users
  {
    var added := User(NextId(Keys(users, UserId)), f.username, f.role);
    AppendNextId(users, UserId, added);
    RemoveAdded(users, added, UserId);
  }

  /** Editing keeps every id and rewrites the username and role of exactly
      the user with the form's id. */
  lemma EditRewritesUser(users: seq<User>, f: Form, j: nat)
    requires j < |users|
    ensures var r := Submit(users, f, true);
            r[j].id == users[j].id
            && (DistinctKeys(users, UserId) ==> DistinctKeys(r, UserId))
            && (f.id == Some(users[j].id) ==> r[j] == User(users[j].id, f.username, f.role))
            && (f.id != Some(users[j].id) ==> r[j] == users[j])
  {
    if f.id.Some? {
      var update := (u: User) => u.(username := f.username, role := f.role);
      ReplaceWhereAt(users, UserId, f.id.value, update, j);
      ReplaceKeepsKeys(users, UserId, f.id.value, update);
    }
  }
}
