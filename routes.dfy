/**
 * The request handlers of the todo service: registration, login, the
 * bearer-token guard and the owner-checked todo operations, over a store of
 * two tables (users and todo items) held as maps from id to record.
 * Each handler is one atomic step on the store.
 */
module Routes {
  import opened Wrappers
  import Security
  import Jwt
  import Listing

  /** Claim under which login puts the user's id, and which the guard reads. */
  const USER_ID_CLAIM: string := "user_id"
  /** Claim under which registration puts the new user's id. */
  const REGISTER_ID_CLAIM: string := "id"
  /** Tokens expire one hour after they are issued (seconds). */
  const TOKEN_LIFETIME: int := 3600
  const DEFAULT_PAGE: int := 1
  const DEFAULT_LIMIT: int := 10

  // Messages, spelled as the service sends them.
  const MSG_UNAUTHORIZED: string := "Unathorized!"
  const MSG_INVALID_TOKEN: string := "Token is invalid!"
  const MSG_USER_EXISTS: string := "User already exists!"
  const MSG_BAD_LOGIN: string := "Invalid email or password"
  const MSG_FORBIDDEN: string := "Forbidden"
  const MSG_DELETED: string := "Todo deleted successfully"

  datatype User = User(name: string, email: string, password: Security.PasswordHash)
  datatype Todo = Todo(title: string, description: string, owner: int)

  /** The public face of a todo item in responses: no owner. */
  datatype TodoView = TodoView(id: int, title: string, description: string)

  datatype Body =
    | Message(text: string)
    | Token(token: string)
    | Item(item: TodoView)
    | Page(data: seq<TodoView>, page: int, limit: int, total: int)

  datatype Response = Response(status: int, body: Body)

  /**
   * What the guard decides: refuse with a response, or admit a caller id.
   * `Unresolved` is a well-signed token naming a user id with no user.
   */
  datatype Gate = Denied(response: Response) | Unresolved(userId: int) | Granted(userId: int)

  /** Payload of the token issued at registration. */
  function RegisterClaims(id: int, now: int): Jwt.Claims {
    map[REGISTER_ID_CLAIM := id, Jwt.EXP := now + TOKEN_LIFETIME]
  }

  /** Payload of the token issued at login. */
  function SessionClaims(id: int, now: int): Jwt.Claims {
    map[USER_ID_CLAIM := id, Jwt.EXP := now + TOKEN_LIFETIME]
  }

  predicate EmailTaken(users: map<int, User>, email: string) {
    exists id :: id in users && users[id].email == email
  }

  ghost predicate EmailsUnique(users: map<int, User>) {
    forall a, b :: a in users && b in users && users[a].email == users[b].email ==> a == b
  }

  /** `caller` may change item `id`: it exists and is theirs. */
  predicate Owns(todos: map<int, Todo>, caller: int, id: int) {
    id in todos && todos[id].owner == caller
  }

  function OwnedBy(todos: map<int, Todo>, caller: int): set<int> {
    set id | id in todos && todos[id].owner == caller
  }

  function View(todos: map<int, Todo>, id: int): TodoView
    requires id in todos
  {
    TodoView(id, todos[id].title, todos[id].description)
  }

  /** All of the caller's item ids, in the listing's (ascending id) order. */
  function OwnedAscending(todos: map<int, Todo>, caller: int): (r: seq<int>)
    ensures |r| == |OwnedBy(todos, caller)|
  {
    Listing.Ascending(OwnedBy(todos, caller))
  }

  /** The caller's listing holds only the caller's items. */
  lemma OwnedAscendingIsOwned(todos: map<int, Todo>, caller: int)
    ensures forall k :: 0 <= k < |OwnedAscending(todos, caller)| ==> Owns(todos, caller, OwnedAscending(todos, caller)[k])
  {
    var r := OwnedAscending(todos, caller);
    assert forall k :: 0 <= k < |r| ==> r[k] in OwnedBy(todos, caller);
  }

  /** Ids on page `page` of the caller's items: the window at Offset(page, limit) of OwnedAscending. */
  function PageIds(todos: map<int, Todo>, caller: int, page: int, limit: int): (ids: seq<int>)
    requires page >= 1 && limit >= 1
    ensures |ids| <= limit
    ensures forall k :: 0 <= k < |ids| ==>
      && 0 <= Listing.Offset(page, limit) + k < |OwnedAscending(todos, caller)|
      && ids[k] == OwnedAscending(todos, caller)[Listing.Offset(page, limit) + k]
    ensures |ids| < limit ==> Listing.Offset(page, limit) + |ids| >= |OwnedAscending(todos, caller)|
    ensures forall k :: 0 <= k < |ids| ==> Owns(todos, caller, ids[k])
    ensures Listing.StrictlyIncreasing(ids)
  {
    var ordered := OwnedAscending(todos, caller);
    Listing.OffsetNonNegative(page, limit);
    OwnedAscendingIsOwned(todos, caller);
    PageOwned(todos, caller, ordered, page, limit);
    Listing.WindowIncreasing(ordered, page, limit);
    Listing.Window(ordered, page, limit)
  }

  /** Every id on a page of the caller's listing is one of the caller's items. */
  lemma PageOwned(todos: map<int, Todo>, caller: int, ordered: seq<int>, page: int, limit: int)
    requires page >= 1 && limit >= 1
    requires forall k :: 0 <= k < |ordered| ==> Owns(todos, caller, ordered[k])
    ensures forall k :: 0 <= k < |Listing.Window(ordered, page, limit)| ==> Owns(todos, caller, Listing.Window(ordered, page, limit)[k])
  {
    var w := Listing.Window(ordered, page, limit);
    forall k | 0 <= k < |w|
      ensures Owns(todos, caller, w[k])
    {
      assert w[k] == ordered[Listing.Offset(page, limit) + k];
    }
  }

  /** The public views of items `ids`, in the same order. */
  function Views(todos: map<int, Todo>, ids: seq<int>): seq<TodoView>
    requires forall k :: 0 <= k < |ids| ==> ids[k] in todos
  {
    seq(|ids|, k requires 0 <= k < |ids| => View(todos, ids[k]))
  }

  /**
   * The items on page `page` of the caller's listing, as shown to the
   * caller: the k-th is the item at position Offset(page, limit) + k of
   * the caller's items in ascending id order.
   */
  function PageData(todos: map<int, Todo>, caller: int, page: int, limit: int): (data: seq<TodoView>)
    requires page >= 1 && limit >= 1
    ensures |data| <= limit
    ensures |data| < limit ==> Listing.Offset(page, limit) + |data| >= |OwnedBy(todos, caller)|
    ensures forall k :: 0 <= k < |data| ==> Owns(todos, caller, data[k].id) && data[k] == View(todos, data[k].id)
    ensures forall i, j :: 0 <= i < j < |data| ==> data[i].id < data[j].id
    ensures forall k :: 0 <= k < |data| ==>
      && 0 <= Listing.Offset(page, limit) + k < |OwnedAscending(todos, caller)|
      && data[k].id == OwnedAscending(todos, caller)[Listing.Offset(page, limit) + k]
  {
    Listing.OffsetNonNegative(page, limit);
    var ids := PageIds(todos, caller, page, limit);
    var data := Views(todos, ids);
    assert forall k :: 0 <= k < |data| ==> data[k].id == ids[k];
    data
  }

  /** No operation ever moves an item from one owner to another. */
  ghost predicate OwnersKept(t0: map<int, Todo>, t1: map<int, Todo>) {
    forall id :: id in t0 && id in t1 ==> t1[id].owner == t0[id].owner
  }

  /** A user table grows by exactly the record (name, email, hash) under the fresh `id`. */
  ghost predicate Enrolled(u0: map<int, User>, u1: map<int, User>, id: int, name: string, email: string, hash: Security.PasswordHash) {
    id !in u0 && u1 == u0[id := User(name, email, hash)] && |u1| == |u0| + 1
  }

  /** Effect of creating an item for `caller`: one new item under the fresh id `next`. */
  ghost predicate Created(t0: map<int, Todo>, next: int, t1: map<int, Todo>, caller: int,
                          title: string, description: string, r: Response)
  {
    && next !in t0
    && t1 == t0[next := Todo(title, description, caller)]
    && |t1| == |t0| + 1
    && r == Response(201, Item(TodoView(next, title, description)))
  }

  /**
   * Effect of an update: refused with 403 and no change unless the item
   * exists and is the caller's; otherwise only its title and description change.
   */
  ghost predicate Updated(t0: map<int, Todo>, t1: map<int, Todo>, caller: int, id: int,
                          title: string, description: string, r: Response)
  {
    if Owns(t0, caller, id) then
      && t1.Keys == t0.Keys
      && t1[id] == Todo(title, description, t0[id].owner)
      && (forall k :: k in t0 && k != id ==> t1[k] == t0[k])
      && r == Response(200, Item(TodoView(id, title, description)))
    else
      t1 == t0 && r == Response(403, Message(MSG_FORBIDDEN))
  }

  /**
   * Effect of a delete: refused with 403 and no change unless the item
   * exists and is the caller's; otherwise exactly that item is removed.
   */
  ghost predicate Deleted(t0: map<int, Todo>, t1: map<int, Todo>, caller: int, id: int, r: Response) {
    if Owns(t0, caller, id) then
      && t1.Keys == t0.Keys - {id}
      && |t1| == |t0| - 1
      && (forall k :: k in t1 ==> t1[k] == t0[k])
      && r == Response(200, Message(MSG_DELETED))
    else
      t1 == t0 && r == Response(403, Message(MSG_FORBIDDEN))
  }

  class TodoApi {
    /** Signing key of all tokens. */
    const secret: string
    const codec: Jwt.Codec
    const kdf: Security.Kdf

    /** The users table: id to record. */
    var users: map<int, User>
    /** The todo items table: id to record. */
    var todos: map<int, Todo>
    /** Ids the store hands out to the next new row of each table. */
    var nextUserId: int
    var nextTodoId: int

    ghost predicate Valid()
      reads this
    {
      && codec.Sound()
      && 1 <= nextUserId && 1 <= nextTodoId
      && (forall id :: id in users ==> 1 <= id < nextUserId)
      && (forall id :: id in todos ==> 1 <= id < nextTodoId && todos[id].owner in users)
      && EmailsUnique(users)
    }

    constructor (secret: string, codec: Jwt.Codec, kdf: Security.Kdf)
      requires codec.Sound()
      ensures Valid()
      ensures users == map[] && todos == map[]
      ensures this.secret == secret
    {
      this.secret := secret;
      this.codec := codec;
      this.kdf := kdf;
      users := map[];
      todos := map[];
      nextUserId := 1;
      nextTodoId := 1;
    }

    /**
     * The guard run before every todo handler. An absent or empty
     * Authorization header is refused as unauthenticated; a token that does
     * not decode, or whose payload has no user_id claim, is refused as
     * invalid; otherwise the claimed id is looked up.
     */
    function Authenticate(header: Option<string>, now: int): (g: Gate)
      reads this`users
      ensures (header.None? || header.value == []) ==> g == Denied(Response(401, Message(MSG_UNAUTHORIZED)))
      ensures g.Denied? ==> g.response.status == 401
      ensures header.Some? && header.value != [] && g.Denied? ==> g.response == Response(401, Message(MSG_INVALID_TOKEN))
      ensures !g.Denied? <==>
        && header.Some? && header.value != []
        && Jwt.Decode(codec, header.value, secret, now).Success?
        && USER_ID_CLAIM in Jwt.Decode(codec, header.value, secret, now).value
      ensures !g.Denied? ==> g.userId == Jwt.Decode(codec, header.value, secret, now).value[USER_ID_CLAIM]
      ensures g.Granted? <==> !g.Denied? && g.userId in users
    {
      if header.None? || header.value == [] then
        Denied(Response(401, Message(MSG_UNAUTHORIZED)))
      else
        match Jwt.Decode(codec, header.value, secret, now)
        case Failure(_) => Denied(Response(401, Message(MSG_INVALID_TOKEN)))
        case Success(claims) =>
          if USER_ID_CLAIM !in claims then Denied(Response(401, Message(MSG_INVALID_TOKEN)))
          else if claims[USER_ID_CLAIM] in users then Granted(claims[USER_ID_CLAIM])
          else Unresolved(claims[USER_ID_CLAIM])
    }

    /**
     * Inserts a user unless the email is already registered. The stored
     * password is the salted hash, never the password itself.
     */
    method AddUser(name: string, email: string, password: string, salt: string) returns (id: Option<int>)
      requires Valid()
      requires |salt| == Security.SALT_LENGTH
      modifies this`users, this`nextUserId
      ensures Valid()
      ensures id.None? <==> EmailTaken(old(users), email)
      ensures id.None? ==> users == old(users)
      ensures id.Some? ==>
        && id.value == old(nextUserId)
        && Enrolled(old(users), users, id.value, name, email, Security.GeneratePasswordHash(kdf, password, salt))
    {
      if EmailTaken(users, email) {
        return None;
      }
      var hashed := Security.GeneratePasswordHash(kdf, password, salt);
      id := Some(nextUserId);
      users := users[nextUserId := User(name, email, hashed)];
      nextUserId := nextUserId + 1;
    }

    /**
     * Registration: 400 for an email already registered, with the user
     * table untouched; otherwise one new user and 200 with a token that
     * carries the new id under the `id` claim.
     */
    method Register(name: string, email: string, password: string, salt: string, now: int) returns (r: Response)
      requires Valid()
      requires |salt| == Security.SALT_LENGTH
      modifies this`users, this`nextUserId
      ensures Valid()
      ensures r.status == 400 <==> EmailTaken(old(users), email)
      ensures r.status == 400 ==> users == old(users) && r == Response(400, Message(MSG_USER_EXISTS))
      ensures r.status != 400 ==>
        && Enrolled(old(users), users, old(nextUserId), name, email, Security.GeneratePasswordHash(kdf, password, salt))
        && r == Response(200, Token(Jwt.Encode(codec, RegisterClaims(old(nextUserId), now), secret)))
    {
      var id := AddUser(name, email, password, salt);
      if id.None? {
        return Response(400, Message(MSG_USER_EXISTS));
      }
      r := Response(200, Token(Jwt.Encode(codec, RegisterClaims(id.value, now), secret)));
    }

    /**
     * Registration issuing the same token login issues: identical effect on
     * the store, and the token it returns admits the new user at once.
     */
    method RegisterWithSessionToken(name: string, email: string, password: string, salt: string, now: int)
      returns (r: Response)
      requires Valid()
      requires |salt| == Security.SALT_LENGTH
      modifies this`users, this`nextUserId
      ensures Valid()
      ensures r.status == 400 <==> EmailTaken(old(users), email)
      ensures r.status == 400 ==> users == old(users) && r == Response(400, Message(MSG_USER_EXISTS))
      ensures r.status != 400 ==>
        && Enrolled(old(users), users, old(nextUserId), name, email, Security.GeneratePasswordHash(kdf, password, salt))
        && r == Response(200, Token(Jwt.Encode(codec, SessionClaims(old(nextUserId), now), secret)))
        && Authenticate(Some(r.body.token), now) == Granted(old(nextUserId))
    {
      var id := AddUser(name, email, password, salt);
      if id.None? {
        return Response(400, Message(MSG_USER_EXISTS));
      }
      r := Response(200, Token(Jwt.Encode(codec, SessionClaims(id.value, now), secret)));
      SessionTokenAdmits(this, id.value, now, now);
    }

    /**
     * Login: 200 with a token naming the user under `user_id` exactly when
     * some user has this email and the password checks against the stored
     * hash; 401 otherwise. Reads only.
     */
    function Login(email: string, password: string, now: int): (r: Response)
      reads this`users
      requires EmailsUnique(users)
      ensures r.status == 200 <==>
        exists id :: id in users && users[id].email == email && Security.CheckPasswordHash(kdf, users[id].password, password)
      ensures r.status == 200 ==>
        exists id :: id in users && users[id].email == email
          && r == Response(200, Token(Jwt.Encode(codec, SessionClaims(id, now), secret)))
      ensures r.status != 200 ==> r == Response(401, Message(MSG_BAD_LOGIN))
    {
      if EmailTaken(users, email) then
        var id :| id in users && users[id].email == email;
        if Security.CheckPasswordHash(kdf, users[id].password, password) then
          Response(200, Token(Jwt.Encode(codec, SessionClaims(id, now), secret)))
        else
          Response(401, Message(MSG_BAD_LOGIN))
      else
        Response(401, Message(MSG_BAD_LOGIN))
    }

    /** Creates an item owned by the (authenticated) caller. */
    method CreateTodo(caller: int, title: string, description: string) returns (r: Response)
      requires Valid() && caller in users
      modifies this`todos, this`nextTodoId
      ensures Valid()
      ensures Created(old(todos), old(nextTodoId), todos, caller, title, description, r)
      ensures OwnersKept(old(todos), todos)
    {
      var id := nextTodoId;
      todos := todos[id := Todo(title, description, caller)];
      nextTodoId := nextTodoId + 1;
      r := Response(201, Item(TodoView(id, title, description)));
    }

    /** Overwrites title and description of the caller's own item `id`. */
    method UpdateTodo(caller: int, id: int, title: string, description: string) returns (r: Response)
      requires Valid()
      modifies this`todos
      ensures Valid()
      ensures Updated(old(todos), todos, caller, id, title, description, r)
      ensures OwnersKept(old(todos), todos)
    {
      if id !in todos || todos[id].owner != caller {
        return Response(403, Message(MSG_FORBIDDEN));
      }
      var todo := todos[id];
      todo := todo.(title := title);
      todo := todo.(description := description);
      todos := todos[id := todo];
      r := Response(200, Item(TodoView(id, todo.title, todo.description)));
    }

    /** Removes the caller's own item `id`. */
    method DeleteTodo(caller: int, id: int) returns (r: Response)
      requires Valid()
      modifies this`todos
      ensures Valid()
      ensures Deleted(old(todos), todos, caller, id, r)
      ensures OwnersKept(old(todos), todos)
    {
      if id !in todos || todos[id].owner != caller {
        return Response(403, Message(MSG_FORBIDDEN));
      }
      todos := todos - {id};
      r := Response(200, Message(MSG_DELETED));
    }

    /**
     * One page of the caller's items in ascending id order. Absent (or
     * non-numeric) page and limit arguments default to 1 and 10. The page
     * holds at most `limit` items, none of another user's, and `total`
     * counts all of the caller's items.
     */
    function GetTodos(caller: int, pageArg: Option<int>, limitArg: Option<int>): (r: Response)
      reads this`todos
      requires pageArg.GetOr(DEFAULT_PAGE) >= 1 && limitArg.GetOr(DEFAULT_LIMIT) >= 1
      ensures r.status == 200 && r.body.Page?
      ensures r.body.page == pageArg.GetOr(DEFAULT_PAGE) && r.body.limit == limitArg.GetOr(DEFAULT_LIMIT)
      ensures r.body.total == |OwnedBy(todos, caller)|
      ensures |r.body.data| <= r.body.limit
      ensures |r.body.data| < r.body.limit ==> Listing.Offset(r.body.page, r.body.limit) + |r.body.data| >= r.body.total
      ensures forall k :: 0 <= k < |r.body.data| ==> Owns(todos, caller, r.body.data[k].id) && r.body.data[k] == View(todos, r.body.data[k].id)
      ensures forall i, j :: 0 <= i < j < |r.body.data| ==> r.body.data[i].id < r.body.data[j].id
      ensures forall k :: 0 <= k < |r.body.data| ==>
        && 0 <= Listing.Offset(r.body.page, r.body.limit) + k < |OwnedAscending(todos, caller)|
        && r.body.data[k].id == OwnedAscending(todos, caller)[Listing.Offset(r.body.page, r.body.limit) + k]
    {
      var page := pageArg.GetOr(DEFAULT_PAGE);
      var limit := limitArg.GetOr(DEFAULT_LIMIT);
      Listing.OffsetNonNegative(page, limit);
      Response(200, Page(PageData(todos, caller, page, limit), page, limit, |OwnedBy(todos, caller)|))
    }

    /** POST /todos: the guard, then CreateTodo for the admitted caller. */
    method HandleCreateTodo(header: Option<string>, now: int, title: string, description: string) returns (r: Response)
      requires Valid() && !Authenticate(header, now).Unresolved?
      modifies this`todos, this`nextTodoId
      ensures Valid()
      ensures Authenticate(header, now).Denied? ==>
        todos == old(todos) && r == Authenticate(header, now).response
      ensures Authenticate(header, now).Granted? ==>
        Created(old(todos), old(nextTodoId), todos, Authenticate(header, now).userId, title, description, r)
    {
      var gate := Authenticate(header, now);
      if gate.Denied? {
        return gate.response;
      }
      r := CreateTodo(gate.userId, title, description);
    }

    /**
     * PUT /todos/{id}: the guard, then UpdateTodo for the admitted caller.
     * A token naming no user still gets 403 when the item does not exist.
     */
    method HandleUpdateTodo(header: Option<string>, now: int, id: int, title: string, description: string)
      returns (r: Response)
      requires Valid() && (!Authenticate(header, now).Unresolved? || id !in todos)
      modifies this`todos
      ensures Valid()
      ensures Authenticate(header, now).Denied? ==>
        todos == old(todos) && r == Authenticate(header, now).response
      ensures Authenticate(header, now).Unresolved? ==>
        todos == old(todos) && r == Response(403, Message(MSG_FORBIDDEN))
      ensures Authenticate(header, now).Granted? ==>
        Updated(old(todos), todos, Authenticate(header, now).userId, id, title, description, r)
    {
      var gate := Authenticate(header, now);
      if gate.Denied? {
        return gate.response;
      }
      if gate.Unresolved? {
        // No user was found, but the missing item is tested first.
        return Response(403, Message(MSG_FORBIDDEN));
      }
      r := UpdateTodo(gate.userId, id, title, description);
    }

    /**
     * DELETE /todos/{id}: the guard, then DeleteTodo for the admitted caller.
     * A token naming no user still gets 403 when the item does not exist.
     */
    method HandleDeleteTodo(header: Option<string>, now: int, id: int) returns (r: Response)
      requires Valid() && (!Authenticate(header, now).Unresolved? || id !in todos)
      modifies this`todos
      ensures Valid()
      ensures Authenticate(header, now).Denied? ==>
        todos == old(todos) && r == Authenticate(header, now).response
      ensures Authenticate(header, now).Unresolved? ==>
        todos == old(todos) && r == Response(403, Message(MSG_FORBIDDEN))
      ensures Authenticate(header, now).Granted? ==>
        Deleted(old(todos), todos, Authenticate(header, now).userId, id, r)
    {
      var gate := Authenticate(header, now);
      if gate.Denied? {
        return gate.response;
      }
      if gate.Unresolved? {
        // No user was found, but the missing item is tested first.
        return Response(403, Message(MSG_FORBIDDEN));
      }
      r := DeleteTodo(gate.userId, id);
    }

    /** GET /todos: the guard, then GetTodos for the admitted caller. */
    function HandleGetTodos(header: Option<string>, now: int, pageArg: Option<int>, limitArg: Option<int>): (r: Response)
      reads this`users, this`todos
      requires !Authenticate(header, now).Unresolved?
      requires pageArg.GetOr(DEFAULT_PAGE) >= 1 && limitArg.GetOr(DEFAULT_LIMIT) >= 1
      ensures Authenticate(header, now).Denied? ==> r == Authenticate(header, now).response && r.status == 401
      ensures Authenticate(header, now).Granted? ==> r == GetTodos(Authenticate(header, now).userId, pageArg, limitArg)
      ensures Authenticate(header, now).Granted? ==>
        && r.status == 200 && r.body.Page?
        && r.body.total == |OwnedBy(todos, Authenticate(header, now).userId)|
        && forall k :: 0 <= k < |r.body.data| ==> Owns(todos, Authenticate(header, now).userId, r.body.data[k].id)
    {
      match Authenticate(header, now)
      case Denied(response) => response
      case Granted(caller) => GetTodos(caller, pageArg, limitArg)
    }
  }

  /**
   * The token registration hands out names its user under `id`, while the
   * guard looks for `user_id`: however fresh, it is refused as invalid.
   */
  lemma RegisterTokenRejected(api: TodoApi, id: int, issued: int, now: int)
    requires api.codec.Sound()
    ensures api.Authenticate(Some(Jwt.Encode(api.codec, RegisterClaims(id, issued), api.secret)), now)
         == Denied(Response(401, Message(MSG_INVALID_TOKEN)))
  {
    var claims := RegisterClaims(id, issued);
    Jwt.DecodeEncode(api.codec, claims, api.secret, now);
    assert USER_ID_CLAIM !in claims;
  }

  /** A login token for an existing user admits that user until it expires. */
  lemma SessionTokenAdmits(api: TodoApi, id: int, issued: int, now: int)
    requires api.codec.Sound()
    requires id in api.users
    requires now < issued + TOKEN_LIFETIME
    ensures api.Authenticate(Some(Jwt.Encode(api.codec, SessionClaims(id, issued), api.secret)), now) == Granted(id)
  {
    var claims := SessionClaims(id, issued);
    Jwt.DecodeEncode(api.codec, claims, api.secret, now);
    assert !Jwt.ExpiredAt(claims, now);
  }

  /** From the instant it expires, a login token is refused as invalid. */
  lemma SessionTokenExpires(api: TodoApi, id: int, issued: int, now: int)
    requires api.codec.Sound()
    requires now >= issued + TOKEN_LIFETIME
    ensures api.Authenticate(Some(Jwt.Encode(api.codec, SessionClaims(id, issued), api.secret)), now)
         == Denied(Response(401, Message(MSG_INVALID_TOKEN)))
  {
    var claims := SessionClaims(id, issued);
    Jwt.DecodeEncode(api.codec, claims, api.secret, now);
    assert Jwt.ExpiredAt(claims, now);
  }

  /**
   * The token a successful login returns admits, for its lifetime, the user
   * who logged in.
   */
  lemma LoginTokenAdmits(api: TodoApi, email: string, password: string, issued: int, now: int)
    requires api.codec.Sound() && EmailsUnique(api.users)
    requires api.Login(email, password, issued).status == 200
    requires issued <= now < issued + TOKEN_LIFETIME
    ensures exists id ::
      && id in api.users && api.users[id].email == email
      && api.Authenticate(Some(api.Login(email, password, issued).body.token), now) == Granted(id)
  {
    var id :| id in api.users && api.users[id].email == email
      && api.Login(email, password, issued) == Response(200, Token(Jwt.Encode(api.codec, SessionClaims(id, issued), api.secret)));
    SessionTokenAdmits(api, id, issued, now);
  }

  /**
   * Every item of the caller's shows up in the listing: with any page size
   * there is a page that holds it.
   */
  lemma ListedOnSomePage(api: TodoApi, caller: int, id: int, limit: int)
    requires Owns(api.todos, caller, id)
    requires limit >= 1
    ensures exists page :: page >= 1 && View(api.todos, id) in api.GetTodos(caller, Some(page), Some(limit)).body.data
  {
    var ids := Listing.Ascending(OwnedBy(api.todos, caller));
    assert id in ids;
    var i :| 0 <= i < |ids| && ids[i] == id;
    Listing.EveryRecordOnItsPage(ids, limit, i);
    var page := i / limit + 1;
    var pageIds := PageIds(api.todos, caller, page, limit);
    assert pageIds == Listing.Window(ids, page, limit);
    var data := api.GetTodos(caller, Some(page), Some(limit)).body.data;
    assert data == Views(api.todos, pageIds);
    assert data[i % limit] == View(api.todos, id);
  }

  /** No item of the caller's is listed on two different pages of the same size. */
  lemma {:induction false} NoItemOnTwoPages(todos: map<int, Todo>, caller: int, p: int, q: int, limit: int)
    requires p >= 1 && q >= 1 && limit >= 1 && p != q
    ensures forall a, b :: 0 <= a < |PageData(todos, caller, p, limit)| && 0 <= b < |PageData(todos, caller, q, limit)| ==>
      PageData(todos, caller, p, limit)[a].id != PageData(todos, caller, q, limit)[b].id
  {
    var ordered := OwnedAscending(todos, caller);
    assert Listing.StrictlyIncreasing(ordered);
    var dp, dq := PageData(todos, caller, p, limit), PageData(todos, caller, q, limit);
    if p < q { Listing.OffsetsApart(p, q, limit); } else { Listing.OffsetsApart(q, p, limit); }
    forall a, b | 0 <= a < |dp| && 0 <= b < |dq|
      ensures dp[a].id != dq[b].id
    {
      var i, j := Listing.Offset(p, limit) + a, Listing.Offset(q, limit) + b;
      assert dp[a].id == ordered[i] && dq[b].id == ordered[j];
      assert i != j;
    }
  }

  /** A page past the caller's last item is empty, and still reports the total. */
  lemma PastLastPageIsEmpty(api: TodoApi, caller: int, page: int, limit: int)
    requires page >= 1 && limit >= 1
    requires (page - 1) * limit >= |OwnedBy(api.todos, caller)|
    ensures api.GetTodos(caller, Some(page), Some(limit)).body.data == []
    ensures api.GetTodos(caller, Some(page), Some(limit)).body.total == |OwnedBy(api.todos, caller)|
  {
    Listing.PastTheEndIsEmpty(Listing.Ascending(OwnedBy(api.todos, caller)), page, limit);
  }
}
