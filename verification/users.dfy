/**
  `UserManager` of both apps (core/models.py:10-31,
  mosques_app/core/models.py:8-29): creating a user and a superuser over a
  user table keyed by username.
*/
module Users {
  import opened Common
  import opened Domain

  /** What `set_password` leaves: a usable password (its hash is not modelled) or none. */
  datatype Password = Usable(secret: string) | Unusable

  /** A stored user row; role, activity and staff flags start at their column defaults. */
  datatype Account = Account(
    username: string,
    password: Password,
    role: Role,
    isActive: bool,
    isStaff: bool,
    isSuperuser: bool,
    place: Option<int>)

  /** The user table; `username` is unique, so it is the key. */
  type Accounts = map<string, Account>

  /** The manager's answer: the table after the call and the in-memory user it returns. */
  datatype Created = Created(table: Accounts, user: Account)

  /** `set_password(None)` marks the password unusable. */
  function SetPassword(password: Option<string>): (p: Password)
    ensures p.Usable? <==> password.Some?
  {
    match password
    case None => Unusable
    case Some(s) => Usable(s)
  }

  /**
    `create_user` (core/models.py:13-21): an empty or missing username is a
    `ValueError`; a taken one violates the unique constraint; otherwise the row
    is stored with the defaults and the given role.
  */
  function CreateUser(table: Accounts, username: Option<string>, password: Option<string>, role: Role)
    : (r: Result<Created>)
    ensures username.None? || username == Some("") ==> r == Err(ValueError)
    ensures r.Ok? <==> username.Some? && username.value != "" && username.value !in table
    ensures r.Err? && username.Some? && username.value != "" ==> r.error == IntegrityError
    ensures r.Ok? ==> r.value.table == table[username.value := r.value.user]
    ensures r.Ok? ==> && r.value.user.username == username.value
                      && r.value.user.role == role
                      && r.value.user.password.Usable? == password.Some?
                      && r.value.user.isActive && !r.value.user.isStaff && !r.value.user.isSuperuser
                      && r.value.user.place.None?
  {
    if username.None? || username.value == "" then Err(ValueError)
    else if username.value in table then Err(IntegrityError)
    else
      var u := Account(username.value, SetPassword(password), role, true, false, false, None);
      Ok(Created(table[username.value := u], u))
  }

  /**
    `create_superuser` as written (core/models.py:23-31): the staff and
    superuser flags are saved, then `role = 'admin'` is set on the returned
    object only, after the last save.
  */
  function CreateSuperuser(table: Accounts, username: Option<string>, password: Option<string>): (r: Result<Created>)
    ensures r.Ok? <==> CreateUser(table, username, password, DefaultRole).Ok?
    ensures r.Ok? ==> r.value.user.role == Admin && r.value.user.isStaff && r.value.user.isSuperuser
    ensures r.Ok? ==> username.Some? && username.value in r.value.table
    ensures r.Ok? ==> var stored := r.value.table[username.value];
                      stored.isStaff && stored.isSuperuser && stored.role == DefaultRole
  {
    match CreateUser(table, username, password, DefaultRole)
    case Err(e) => Err(e)
    case Ok(c) =>
      var u := c.user.(isStaff := true, isSuperuser := true);
      var saved := c.table[u.username := u];
      Ok(Created(saved, u.(role := Admin)))
  }

  /**
    The role the caller sees differs from the role stored: reading the new
    superuser back gives the default `mosque_admin`, not `admin`.
  */
  lemma SuperuserRoleNotStored(table: Accounts, username: string, password: Option<string>)
    requires username != "" && username !in table
    ensures var r := CreateSuperuser(table, Some(username), password);
            r.Ok? && r.value.user.role == Admin && r.value.table[username].role == MosqueAdmin
            && r.value.table[username] != r.value.user
  {
  }

  /** `create_superuser` with the role assigned before the save, so that it is stored. */
  function CreateSuperuserStored(table: Accounts, username: Option<string>, password: Option<string>): (r: Result<Created>)
    ensures r.Ok? <==> CreateUser(table, username, password, DefaultRole).Ok?
    ensures r.Ok? ==> username.Some? && r.value.table == table[username.value := r.value.user]
  {
    match CreateUser(table, username, password, DefaultRole)
    case Err(e) => Err(e)
    case Ok(c) =>
      var u := c.user.(isStaff := true, isSuperuser := true, role := Admin);
      Ok(Created(c.table[u.username := u], u))
  }

  /**
    With the role assigned before the save, the superuser read back is the one
    returned: an administrator with the staff and superuser flags; nothing
    else in the table changes.
  */
  lemma SuperuserStoredAsReturned(table: Accounts, username: string, password: Option<string>)
    requires username != "" && username !in table
    ensures var r := CreateSuperuserStored(table, Some(username), password);
            && r.Ok?
            && r.value.table[username] == r.value.user
            && r.value.table[username].role == Admin
            && r.value.table[username].isStaff && r.value.table[username].isSuperuser
            && (forall n :: n in table ==> n in r.value.table && r.value.table[n] == table[n])
            && r.value.table.Keys == table.Keys + {username}
  {
  }
}
