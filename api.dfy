/**
 * The multi-user HTTP service (api.py): registration and login with hashed
 * passwords and signed expiring access tokens, and a task store in which
 * every query is scoped to the authenticated caller.
 *
 * The remote `users` and `tasks` tables are values: `users` a sequence of
 * rows in table order, `tasks` a map from task id to the other columns.
 * Operations that only read take those values as parameters; the operations
 * that insert, update or delete rows are methods of `TaskStore`, which holds
 * both tables and the id counters the database uses. Clocks are integer
 * seconds passed in as `now`; bcrypt and JWT signing are modelled abstractly.
 */
module Api {
  import opened Outcomes
  import opened Tables
  import opened Text
  import opened PrioritySort

  /* ----- Configuration ----- */

  const AccessTokenExpireMinutes: int := 15
  /** ACCESS_TOKEN_EXPIRE in seconds. */
  const AccessTokenExpire: int := AccessTokenExpireMinutes * 60

  /* ----- Request bodies and their Pydantic constraints ----- */

  /** The two task states the `TASK_STATUS` literal admits. */
  datatype TaskStatus = Done | Pending

  function StatusName(s: TaskStatus): string
  {
    match s
    case Done => "done"
    case Pending => "pending"
  }

  /** Pydantic's check of a `Literal["done", "pending"]` field. */
  function ParseStatus(s: string): (r: Option<TaskStatus>)
    ensures r.Some? <==> s == "done" || s == "pending"
    ensures r.Some? ==> StatusName(r.value) == s
  {
    if s == "done" then Some(Done) else if s == "pending" then Some(Pending) else None
  }

  datatype UserCreate = UserCreate(username: string, password: string)

  datatype TaskCreate = TaskCreate(name: string, description: Option<string>, priority: int, status: string)

  datatype TaskUpdate = TaskUpdate(name: string, description: string, priority: int, status: string)

  /** `UserCreate`: username of 3 to 50 characters, password of at least 6. */
  predicate ValidUserCreate(body: UserCreate)
  {
    3 <= |body.username| <= 50 && |body.password| >= 6
  }

  /** `name: str = Field(..., min_length=1, max_length=100)` */
  predicate ValidName(name: string)
  {
    1 <= |name| <= 100
  }

  /** `TaskBase`: name, optional description of at most 500 characters, priority >= 1, a known status. */
  predicate ValidTaskCreate(body: TaskCreate)
  {
    && ValidName(body.name)
    && (body.description.Some? ==> |body.description.value| <= 500)
    && body.priority >= 1
    && ParseStatus(body.status).Some?
  }

  /** `TaskUpdate`: as `TaskBase`, but the description is required. */
  predicate ValidTaskUpdate(body: TaskUpdate)
  {
    && ValidName(body.name)
    && |body.description| <= 500
    && body.priority >= 1
    && ParseStatus(body.status).Some?
  }

  /** The error responses the modelled routes produce. */
  datatype ApiError =
    | Unprocessable          // 422: the request body breaks a Pydantic constraint
    | UsernameExists         // 400 "Username already exists"
    | IncorrectCredentials   // 401 "Incorrect username or password"
    | TaskNotFound           // 404 "Task not found"

  /* ----- Passwords ----- */

  /**
   * A bcrypt hash, abstractly: the salt drawn when hashing and the password it
   * was made from (one-wayness is not modelled).
   */
  datatype PasswordHash = Bcrypt(salt: int, password: string)

  /** `get_password_hash`; the random salt is a parameter. */
  function HashPassword(password: string, salt: int): (h: PasswordHash)
    ensures forall p :: VerifyPassword(p, h) <==> p == password
  {
    Bcrypt(salt, password)
  }

  /** `verify_password` */
  predicate VerifyPassword(plain: string, h: PasswordHash)
  {
    h.password == plain
  }

  /* ----- The users table ----- */

  datatype User = User(id: int, username: string, passwordHash: PasswordHash)

  ghost predicate UniqueUsernames(users: seq<User>)
  {
    forall i, j :: 0 <= i < j < |users| ==> users[i].username != users[j].username
  }

  /** `users.select(...).eq("username", name)` and take the first row, if any. */
  function FindUser(users: seq<User>, username: string): (found: Option<User>)
    ensures found.Some? ==> found.value in users && found.value.username == username
    ensures found.Some? ==>
              exists i :: 0 <= i < |users| && users[i] == found.value && FirstNamed(users, username, i)
    ensures found.None? <==> forall u :: u in users ==> u.username != username
  {
    if users == [] then None
    else if users[0].username == username then
      assert FirstNamed(users, username, 0);
      Some(users[0])
    else
      assert users == [users[0]] + users[1..];
      var found := FindUser(users[1..], username);
      assert found.Some? ==> exists i :: 0 <= i < |users| && users[i] == found.value && FirstNamed(users, username, i) by {
        if found.Some? {
          var i :| 0 <= i < |users[1..]| && users[1..][i] == found.value && FirstNamed(users[1..], username, i);
          assert FirstNamed(users, username, i + 1);
        }
      }
      found
  }

  /** `users[i]` is the first row whose username is `username`. */
  predicate FirstNamed(users: seq<User>, username: string, i: int)
    requires 0 <= i < |users|
  {
    users[i].username == username && forall j :: 0 <= j < i ==> users[j].username != username
  }

  /* ----- Access tokens ----- */

  /** The JWT payload: the `sub` claim and the `exp` claim (section 4.1.4 of RFC 7519), in seconds. */
  datatype Claims = Claims(sub: Option<string>, exp: Option<int>)

  /**
   * An encoded token, abstractly: its payload and the key it was signed with,
   * or something that does not decode at all. HS256 signature checking
   * becomes comparing the key with the server's secret.
   */
  datatype Jwt = Signed(claims: Claims, key: string) | Malformed

  /**
   * `create_access_token({"sub": subject}, expires_delta)`: signed with the
   * secret, expiring `expires_delta` after `now`, or 15 minutes after `now`
   * when no delta, or a zero delta (a falsy timedelta), is given.
   */
  function CreateAccessToken(subject: string, expiresDelta: Option<int>, now: int, secretKey: string): (token: Jwt)
    ensures token.Signed? && token.key == secretKey && token.claims.sub == Some(subject)
    ensures expiresDelta.None? ==> token.claims.exp == Some(now + AccessTokenExpire)
    ensures expiresDelta.Some? ==>
              token.claims.exp == Some(now + if expiresDelta.value == 0 then AccessTokenExpire else expiresDelta.value)
  {
    var lifetime := if expiresDelta.Some? && expiresDelta.value != 0 then expiresDelta.value else AccessTokenExpire;
    Signed(Claims(Some(subject), Some(now + lifetime)), secretKey)
  }

  /** PyJWT rejects a token whose `exp` is not after the current time. */
  predicate Expired(claims: Claims, now: int)
  {
    claims.exp.Some? && claims.exp.value <= now
  }

  /** Why `get_current_user` refuses a token (all answered with 401). */
  datatype AuthError =
    | InvalidToken     // "Invalid token": does not decode, or bad signature
    | TokenExpired     // "Token has expired"
    | MissingSubject   // "Invalid token: missing subject"
    | UserNotFound     // "User not found"

  /** `jwt.decode(token, SECRET_KEY, algorithms=[ALGORITHM])`: signature first, then expiry. */
  function Decode(token: Jwt, secretKey: string, now: int): (r: Result<Claims, AuthError>)
    ensures r.Ok? <==> token.Signed? && token.key == secretKey && !Expired(token.claims, now)
    ensures r.Ok? ==> r.value == token.claims
    ensures r.Err? ==> r.error == if token.Signed? && token.key == secretKey then TokenExpired else InvalidToken
  {
    match token
    case Malformed => Err(InvalidToken)
    case Signed(claims, key) =>
      if key != secretKey then Err(InvalidToken)
      else if Expired(claims, now) then Err(TokenExpired)
      else Ok(claims)
  }

  /** A token the server itself issued decodes to its claims until it expires, and not after. */
  lemma IssuedTokenDecodes(subject: string, expiresDelta: Option<int>, now: int, secretKey: string, later: int)
    ensures var token := CreateAccessToken(subject, expiresDelta, now, secretKey);
            Decode(token, secretKey, later)
            == if later < token.claims.exp.value then Ok(Claims(Some(subject), token.claims.exp)) else Err(TokenExpired)
  {
  }

  /**
   * `get_current_user`: decode the token, insist on a non-empty subject, and
   * resolve it to a row of `users`.
   */
  function GetCurrentUser(users: seq<User>, token: Jwt, secretKey: string, now: int): (r: Result<User, AuthError>)
    ensures r == Err(InvalidToken) <==> !(token.Signed? && token.key == secretKey)
    ensures r == Err(TokenExpired) <==> token.Signed? && token.key == secretKey && Expired(token.claims, now)
    ensures r == Err(MissingSubject) <==>
              && token.Signed? && token.key == secretKey && !Expired(token.claims, now)
              && (token.claims.sub.None? || token.claims.sub.value == "")
    ensures r == Err(UserNotFound) <==>
              && token.Signed? && token.key == secretKey && !Expired(token.claims, now)
              && token.claims.sub.Some? && token.claims.sub.value != ""
              && forall u :: u in users ==> u.username != token.claims.sub.value
    ensures r.Ok? ==> r.value in users && token.Signed? && token.claims.sub == Some(r.value.username)
  {
    match Decode(token, secretKey, now)
    case Err(e) => Err(e)
    case Ok(claims) =>
      if claims.sub.None? || claims.sub.value == "" then Err(MissingSubject)
      else
        match FindUser(users, claims.sub.value)
        case None => Err(UserNotFound)
        case Some(u) => Ok(u)
  }

  /**
   * `login`: a token for the user's name when the first user row with that
   * name accepts the password; "Incorrect username or password" otherwise.
   */
  function Login(users: seq<User>, username: string, password: string, secretKey: string, now: int)
    : (r: Result<Jwt, ApiError>)
    ensures r.Err? ==> r.error == IncorrectCredentials
    ensures r.Ok? ==> r.value == CreateAccessToken(username, None, now, secretKey)
    ensures r.Ok? ==> exists u :: u in users && u.username == username && VerifyPassword(password, u.passwordHash)
    ensures r.Ok? <==>
              exists i :: 0 <= i < |users| && FirstNamed(users, username, i) && VerifyPassword(password, users[i].passwordHash)
    ensures UniqueUsernames(users) ==>
              (r.Ok? <==> exists u :: u in users && u.username == username && VerifyPassword(password, u.passwordHash))
  {
    match FindUser(users, username)
    case None => Err(IncorrectCredentials)
    case Some(u) =>
      assert UniqueUsernames(users) ==> forall v :: v in users && v.username == username ==> v == u by {
        if UniqueUsernames(users) {
          forall v | v in users && v.username == username ensures v == u {
            var i :| 0 <= i < |users| && users[i] == v;
            var j :| 0 <= j < |users| && users[j] == u;
            assert i == j;
          }
        }
      }
      if VerifyPassword(password, u.passwordHash) then Ok(CreateAccessToken(u.username, None, now, secretKey))
      else Err(IncorrectCredentials)
  }

  /**
   * Registering a new name and then logging in with the same password yields
   * a token that resolves to the new user until it expires 15 minutes later,
   * and is refused as expired from then on.
   */
  lemma RegisterThenLogin(users: seq<User>, id: int, body: UserCreate, salt: int, secretKey: string, now: int, later: int)
    requires ValidUserCreate(body)
    requires forall u :: u in users ==> u.username != body.username
    ensures var user := User(id, body.username, HashPassword(body.password, salt));
            var token := CreateAccessToken(body.username, None, now, secretKey);
            && Login(users + [user], body.username, body.password, secretKey, now) == Ok(token)
            && GetCurrentUser(users + [user], token, secretKey, later)
               == if later < now + AccessTokenExpire then Ok(user) else Err(TokenExpired)
  {
  }

  /* ----- The tasks table ----- */

  /** The columns of a `tasks` row other than its id. */
  datatype TaskRow = TaskRow(
    name: string,
    description: Option<string>,
    priority: int,
    status: TaskStatus,
    createdOn: int,
    lastModified: int,
    userId: int)

  /** The rows of `tasks` whose `user_id` is `userId`. */
  function Owned(tasks: map<int, TaskRow>, userId: int): (owned: map<int, TaskRow>)
    ensures forall id :: id in owned <==> id in tasks && tasks[id].userId == userId
    ensures forall id :: id in owned ==> owned[id] == tasks[id]
  {
    map id | id in tasks && tasks[id].userId == userId :: tasks[id]
  }

  /** The columns `get_tasks` accepts for `sort_by`. */
  datatype SortColumn = Priority | CreatedOn | LastModified

  /** `sort_by` after the check against `allowed_sort_cols`: any other value means "priority". */
  function SortColumnOf(sortBy: string): (c: SortColumn)
    ensures c == CreatedOn <==> sortBy == "created_on"
    ensures c == LastModified <==> sortBy == "last_modified"
    ensures c == Priority <==> sortBy != "created_on" && sortBy != "last_modified"
  {
    if sortBy == "created_on" then CreatedOn
    else if sortBy == "last_modified" then LastModified
    else Priority
  }

  function ColumnName(c: SortColumn): (name: string)
    ensures SortColumnOf(name) == c
  {
    match c
    case Priority => "priority"
    case CreatedOn => "created_on"
    case LastModified => "last_modified"
  }

  /** The value a result row is ordered by. */
  function ColumnKey(c: SortColumn): Row<TaskRow> -> int
  {
    match c
    case Priority => (r: Row<TaskRow>) => r.fields.priority
    case CreatedOn => (r: Row<TaskRow>) => r.fields.createdOn
    case LastModified => (r: Row<TaskRow>) => r.fields.lastModified
  }

  /** `order.lower() == "desc"`: exactly the four letters d, e, s, c in either case. */
  function IsDescending(order: string): (descending: bool)
    ensures descending <==>
              |order| == 4 && forall i :: 0 <= i < 4 ==> SameLetterIgnoringCase(order[i], "desc"[i])
  {
    LowerMatches(order, "desc");
    Lower(order) == "desc"
  }

  /** The `status` query parameter filters only when it is "done" or "pending". */
  function StatusFilter(status: Option<string>): (filter: Option<TaskStatus>)
    ensures filter.Some? <==> status == Some("done") || status == Some("pending")
    ensures filter.Some? ==> StatusName(filter.value) == status.value
  {
    if status.Some? then ParseStatus(status.value) else None
  }

  /** The rows `get_tasks` selects: the caller's, with the status filter applied if any. */
  function Visible(tasks: map<int, TaskRow>, userId: int, filter: Option<TaskStatus>): (selected: map<int, TaskRow>)
    ensures forall id :: id in selected <==>
              id in tasks && tasks[id].userId == userId && (filter.None? || tasks[id].status == filter.value)
    ensures forall id :: id in selected ==> selected[id] == tasks[id]
  {
    map id | id in tasks && tasks[id].userId == userId && (filter.None? || tasks[id].status == filter.value) :: tasks[id]
  }

  /**
   * `get_tasks`: the caller's tasks, each exactly once, filtered by status
   * only for "done" or "pending", ordered by the normalised column, descending
   * exactly when `order.lower() == "desc"`. Ties are left to the database.
   */
  method GetTasks(tasks: map<int, TaskRow>, user: User, sortBy: string, order: string, status: Option<string>)
    returns (result: seq<Row<TaskRow>>)
    ensures Enumerates(result, Visible(tasks, user.id, StatusFilter(status)))
    ensures SortedBy(result, ColumnKey(SortColumnOf(sortBy)), IsDescending(order))
  {
    var column := SortColumnOf(sortBy);
    var descending := IsDescending(order);
    var selected := Rows(Visible(tasks, user.id, StatusFilter(status)));
    SortPermutes(selected, ColumnKey(column), descending);
    SortSorted(selected, ColumnKey(column), descending);
    result := Sort(selected, ColumnKey(column), descending);
  }

  /** `get_task`: the row with that id if the caller owns it; "Task not found" otherwise. */
  function GetTask(tasks: map<int, TaskRow>, user: User, taskId: int): (r: Result<Row<TaskRow>, ApiError>)
    ensures r.Ok? <==> taskId in tasks && tasks[taskId].userId == user.id
    ensures r.Ok? ==> r.value == Row(taskId, tasks[taskId])
    ensures r.Err? ==> r.error == TaskNotFound
  {
    if taskId in tasks && tasks[taskId].userId == user.id then Ok(Row(taskId, tasks[taskId]))
    else Err(TaskNotFound)
  }

  /**
   * Ownership opacity: what a caller can read depends only on the rows the
   * caller owns, so a store that differs in other users' rows looks the same.
   */
  lemma OnlyOwnRowsObservable(t1: map<int, TaskRow>, t2: map<int, TaskRow>, user: User)
    requires Owned(t1, user.id) == Owned(t2, user.id)
    ensures forall taskId :: GetTask(t1, user, taskId) == GetTask(t2, user, taskId)
    ensures forall filter :: Visible(t1, user.id, filter) == Visible(t2, user.id, filter)
  {
  }

  /** A task owned by someone else answers exactly like a task id that does not exist. */
  lemma OtherOwnersTaskLooksMissing(tasks: map<int, TaskRow>, user: User, taskId: int)
    requires taskId in tasks && tasks[taskId].userId != user.id
    ensures GetTask(tasks, user, taskId) == GetTask(tasks - {taskId}, user, taskId) == Err(TaskNotFound)
  {
  }

  /** Invariants of one stored row: what the request validation admitted. */
  predicate WellFormedRow(row: TaskRow)
  {
    && |row.name| <= 100
    && (row.description.Some? ==> |row.description.value| <= 500)
    && row.priority >= 1
  }

  function UserIds(users: seq<User>): set<int>
  {
    set u | u in users :: u.id
  }

  /** The `users` and `tasks` tables and the ids the database assigns next. */
  class TaskStore {
    var users: seq<User>
    var tasks: map<int, TaskRow>
    var nextUserId: int
    var nextTaskId: int

    ghost predicate Valid()
      reads this
    {
      && 1 <= nextUserId && 1 <= nextTaskId
      && UniqueUsernames(users)
      && (forall i, j :: 0 <= i < j < |users| ==> users[i].id != users[j].id)
      && (forall i :: 0 <= i < |users| ==> 1 <= users[i].id < nextUserId)
      && (forall id :: id in tasks ==> 1 <= id < nextTaskId)
      && (forall id :: id in tasks ==> WellFormedRow(tasks[id]) && tasks[id].userId in UserIds(users))
    }

    constructor ()
      ensures Valid() && users == [] && tasks == map[] && nextUserId == 1 && nextTaskId == 1
    {
      users := [];
      tasks := map[];
      nextUserId := 1;
      nextTaskId := 1;
    }

    /**
     * `register`: a body that breaks `UserCreate` or a name already present
     * changes nothing; otherwise one user row with the hashed password is
     * appended. The salt is a parameter.
     */
    method Register(body: UserCreate, salt: int) returns (r: Result<string, ApiError>)
      requires Valid()
      modifies this
      ensures Valid()
      ensures tasks == old(tasks) && nextTaskId == old(nextTaskId)
      ensures r == Err(Unprocessable) <==> !ValidUserCreate(body)
      ensures r == Err(UsernameExists) <==>
                ValidUserCreate(body) && exists u :: u in old(users) && u.username == body.username
      ensures r.Ok? <==> ValidUserCreate(body) && forall u :: u in old(users) ==> u.username != body.username
      ensures r.Ok? ==>
                && r.value == body.username
                && users == old(users) + [User(old(nextUserId), body.username, HashPassword(body.password, salt))]
                && nextUserId == old(nextUserId) + 1
      ensures r.Err? ==> users == old(users) && nextUserId == old(nextUserId)
    {
      if !ValidUserCreate(body) {
        return Err(Unprocessable);
      }
      var hashed := HashPassword(body.password, salt);
      if FindUser(users, body.username).Some? {
        return Err(UsernameExists);
      }
      var user := User(nextUserId, body.username, hashed);
      assert UserIds(users + [user]) == UserIds(users) + {user.id};
      users := users + [user];
      nextUserId := nextUserId + 1;
      r := Ok(body.username);
    }

    /**
     * `create_task`: a valid body becomes one new row owned by the caller,
     * with the trimmed name and `created_on == last_modified == now`; no other
     * row changes.
     */
    method CreateTask(user: User, body: TaskCreate, now: int) returns (r: Result<Row<TaskRow>, ApiError>)
      requires Valid() && user in users
      modifies this
      ensures Valid()
      ensures users == old(users) && nextUserId == old(nextUserId)
      ensures r.Err? <==> !ValidTaskCreate(body)
      ensures r.Err? ==> r.error == Unprocessable && tasks == old(tasks) && nextTaskId == old(nextTaskId)
      ensures r.Ok? ==>
                && r.value.id == old(nextTaskId) && r.value.id !in old(tasks)
                && r.value.fields.name == Strip(body.name)
                && r.value.fields.description == body.description
                && r.value.fields.priority == body.priority
                && StatusName(r.value.fields.status) == body.status
                && r.value.fields.createdOn == now && r.value.fields.lastModified == now
                && r.value.fields.userId == user.id
                && tasks == old(tasks)[r.value.id := r.value.fields]
                && nextTaskId == old(nextTaskId) + 1
      ensures forall other :: other != user.id ==> Owned(tasks, other) == Owned(old(tasks), other)
    {
      if !ValidTaskCreate(body) {
        return Err(Unprocessable);
      }
      var status := ParseStatus(body.status).value;
      var row := TaskRow(Strip(body.name), body.description, body.priority, status, now, now, user.id);
      var id := nextTaskId;
      tasks := tasks[id := row];
      nextTaskId := nextTaskId + 1;
      r := Ok(Row(id, row));
    }

    /**
     * `update_task`: on a task the caller owns, overwrite name (untrimmed),
     * description, priority and status and set `last_modified` to `now`,
     * keeping `created_on` and `user_id`; any other task id answers "Task not
     * found" and changes nothing.
     */
    method UpdateTask(user: User, taskId: int, body: TaskUpdate, now: int) returns (r: Result<Row<TaskRow>, ApiError>)
      requires Valid() && user in users
      modifies this
      ensures Valid()
      ensures users == old(users) && nextUserId == old(nextUserId) && nextTaskId == old(nextTaskId)
      ensures r == Err(Unprocessable) <==> !ValidTaskUpdate(body)
      ensures r == Err(TaskNotFound) <==> ValidTaskUpdate(body) && GetTask(old(tasks), user, taskId).Err?
      ensures r.Ok? <==> ValidTaskUpdate(body) && GetTask(old(tasks), user, taskId).Ok?
      ensures r.Err? ==> tasks == old(tasks)
      ensures r.Ok? ==>
                && r.value.id == taskId && taskId in old(tasks)
                && var before := old(tasks)[taskId];
                && r.value.fields
                   == before.(name := body.name, description := Some(body.description), priority := body.priority,
                              status := ParseStatus(body.status).value, lastModified := now)
                && r.value.fields.createdOn == before.createdOn
                && r.value.fields.userId == before.userId == user.id
                && tasks == old(tasks)[taskId := r.value.fields]
      ensures forall other :: other != user.id ==> Owned(tasks, other) == Owned(old(tasks), other)
    {
      if !ValidTaskUpdate(body) {
        return Err(Unprocessable);
      }
      if GetTask(tasks, user, taskId).Err? {
        return Err(TaskNotFound);
      }
      var row := tasks[taskId].(name := body.name, description := Some(body.description), priority := body.priority,
                                status := ParseStatus(body.status).value, lastModified := now);
      tasks := tasks[taskId := row];
      r := Ok(Row(taskId, row));
    }

    /** `delete_task`: removes the task if the caller owns it; "Task not found" otherwise. */
    method DeleteTask(user: User, taskId: int) returns (r: Result<(), ApiError>)
      requires Valid()
      modifies this
      ensures Valid()
      ensures users == old(users) && nextUserId == old(nextUserId) && nextTaskId == old(nextTaskId)
      ensures r.Ok? <==> GetTask(old(tasks), user, taskId).Ok?
      ensures r.Err? ==> r.error == TaskNotFound && tasks == old(tasks)
      ensures r.Ok? ==> tasks == old(tasks) - {taskId}
      ensures forall other :: other != user.id ==> Owned(tasks, other) == Owned(old(tasks), other)
    {
      if GetTask(tasks, user, taskId).Err? {
        return Err(TaskNotFound);
      }
      tasks := tasks - {taskId};
      r := Ok(());
    }
  }

  /**
   * A walk through sign-up: alice registers and logs in, the token resolves
   * to alice's row a minute later and is refused as expired 16 minutes after it
   * was issued.
   */
  method ScenarioSignUp()
  {
    var secretKey := "server-secret";
    var store := new TaskStore();
    var aliceBody := UserCreate("alice", "secret1");
    var registered := store.Register(aliceBody, 17);
    assert registered == Ok("alice");
    var alice := User(1, "alice", HashPassword("secret1", 17));
    assert store.users == [alice];

    RegisterThenLogin([], 1, aliceBody, 17, secretKey, 1000, 1060);
    var login := Login(store.users, "alice", "secret1", secretKey, 1000);
    assert login.Ok?;
    var token := login.value;
    assert GetCurrentUser(store.users, token, secretKey, 1060) == Ok(alice);

    RegisterThenLogin([], 1, aliceBody, 17, secretKey, 1000, 1000 + 16 * 60);
    assert GetCurrentUser(store.users, token, secretKey, 1000 + 16 * 60) == Err(TokenExpired);
  }

  /** With one task in the store, its owner's unfiltered listing is exactly that task. */
  lemma OwnTaskListed(tasks: map<int, TaskRow>, user: User, id: int, row: TaskRow, listed: seq<Row<TaskRow>>)
    requires tasks == map[id := row] && row.userId == user.id
    requires Enumerates(listed, Visible(tasks, user.id, None))
    ensures listed == [Row(id, row)]
  {
    assert Visible(tasks, user.id, None) == map[id := row];
    EnumeratesSingleton(listed, id, row);
  }

  /**
   * A walk through the task routes: alice creates "Buy milk" and lists it;
   * bob cannot see it; once alice deletes it, it is gone.
   */
  method ScenarioTasks()
  {
    var store := new TaskStore();
    var aliceRegistered := store.Register(UserCreate("alice", "secret1"), 17);
    var alice := User(1, "alice", HashPassword("secret1", 17));
    assert store.users == [alice];

    var created := store.CreateTask(alice, TaskCreate("Buy milk", None, 3, "pending"), 1060);
    assert created.Ok?;
    var id := created.value.id;
    assert Strip("Buy milk") == "Buy milk" by {
      assert LeadingSpace("Buy milk") == 0;
      assert TrailingSpace("Buy milk") == 0;
    }
    var row := TaskRow("Buy milk", None, 3, Pending, 1060, 1060, 1);
    assert created.value.fields == row;
    assert store.tasks == map[id := row];

    var snapshot := store.tasks;
    var listed := GetTasks(snapshot, alice, "priority", "desc", None);
    OwnTaskListed(snapshot, alice, id, row, listed);
    assert listed == [Row(id, row)];

    var bob := User(2, "bob", HashPassword("secret2", 18));
    assert GetTask(store.tasks, bob, id) == Err(TaskNotFound);

    var deleted := store.DeleteTask(alice, id);
    assert deleted.Ok?;
    assert GetTask(store.tasks, alice, id) == Err(TaskNotFound);
  }
}
