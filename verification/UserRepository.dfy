/**
 The dashboard user repository as a state machine over the `users` table.

 A query is its meaning over the table; the id a row gets from the column default, and the
 clock, are inputs. `tenants` is the referenced table, fixed while the repository runs.
 */
module UserRepository {
  import opened Options

  datatype User = User(
    id: string,
    email: string,
    name: string,
    passwordHash: Option<string>,
    role: string,
    status: string,
    tenantId: string,
    emailVerified: bool,
    mfaEnabled: bool,
    mfaSecret: Option<string>,
    mfaRecoveryCodes: Option<seq<string>>,
    oauthProvider: Option<string>,
    oauthProviderId: Option<string>,
    lastLoginAt: Option<int>,
    createdAt: int)

  /** The rows keyed by primary key. */
  type Table = map<string, User>

  datatype CreateUserData = CreateUserData(
    email: string,
    name: string,
    passwordHash: Option<string>,
    role: Option<string>,
    status: Option<string>,
    tenantId: string,
    emailVerified: Option<bool>)

  datatype CreateWithOAuthData = CreateWithOAuthData(
    email: string,
    name: string,
    role: Option<string>,
    status: Option<string>,
    tenantId: string,
    emailVerified: Option<bool>,
    oauthProvider: string,
    oauthProviderId: string)

  datatype UpdateMfaData = UpdateMfaData(
    mfaEnabled: bool,
    mfaSecret: Option<string>,
    mfaRecoveryCodes: Option<seq<string>>)

  function Coalesce<T>(value: Option<T>, default: T): T {
    if value.Some? then value.value else default
  }

  // ---------------------------------------------------------------------------------------
  // Errors
  // ---------------------------------------------------------------------------------------

  datatype SqlxError = Database(code: string, constraint: Option<string>) | Transport
  datatype RepositoryError = Conflict(constraint: string) | Backend

  const PG_UNIQUE_VIOLATION := "23505"
  const PG_FOREIGN_KEY_VIOLATION := "23503"
  const UNNAMED_CONSTRAINT := "unique"

  function MapSqlxError(error: SqlxError): RepositoryError {
    if error.Database? && error.code == PG_UNIQUE_VIOLATION
    then Conflict(Coalesce(error.constraint, UNNAMED_CONSTRAINT))
    else Backend
  }

  const PKEY := "users_pkey"
  const TENANT_EMAIL := "users_tenant_email_uidx"
  const OAUTH := "users_oauth_uidx"

  function Violates(constraint: string): SqlxError {
    Database(PG_UNIQUE_VIOLATION, Some(constraint))
  }

  // ---------------------------------------------------------------------------------------
  // The table
  // ---------------------------------------------------------------------------------------

  predicate SameEmail(a: User, b: User) {
    a.tenantId == b.tenantId && a.email == b.email
  }

  /** The partial index: rows without a complete OAuth identity never collide. */
  predicate SameOAuth(a: User, b: User) {
    && a.oauthProvider.Some? && a.oauthProviderId.Some?
    && a.tenantId == b.tenantId && a.oauthProvider == b.oauthProvider && a.oauthProviderId == b.oauthProviderId
  }

  predicate EmailTaken(users: Table, row: User) {
    exists id :: id in users && id != row.id && SameEmail(row, users[id])
  }

  predicate OAuthTaken(users: Table, row: User) {
    exists id :: id in users && id != row.id && SameOAuth(row, users[id])
  }

  /** The first constraint an INSERT of `row` violates. */
  function InsertError(tenants: set<string>, users: Table, row: User): Option<SqlxError> {
    if row.id in users then Some(Violates(PKEY))
    else if EmailTaken(users, row) then Some(Violates(TENANT_EMAIL))
    else if OAuthTaken(users, row) then Some(Violates(OAUTH))
    else if row.tenantId !in tenants then Some(Database(PG_FOREIGN_KEY_VIOLATION, None))
    else None
  }

  datatype Op =
    | Create(id: string, now: int, data: CreateUserData)
    | CreateWithOAuth(id: string, now: int, oauthData: CreateWithOAuthData)
    | UpdatePassword(id: string, passwordHash: string)
    | UpdateMfa(id: string, mfa: UpdateMfaData)
    | UpdateLastLogin(id: string, now: int)
    | UpdateStatus(id: string, status: string)
    | UpdateEmailVerified(id: string, verified: bool)
    | LinkOAuth(id: string, provider: string, providerId: string)
    | FindById(id: string, scope: Option<string>)
    | FindByEmail(email: string, tenantId: string)
    | FindByOAuthId(provider: string, providerId: string, tenantId: string)

  datatype Reply = Done | Created(user: User) | Found(row: Option<User>) | Failed(error: RepositoryError)

  function NewUser(id: string, now: int, data: CreateUserData): User {
    User(id, data.email, data.name, data.passwordHash, Coalesce(data.role, "user"), Coalesce(data.status, "active"),
         data.tenantId, Coalesce(data.emailVerified, false), false, None, None, None, None, None, now)
  }

  function NewOAuthUser(id: string, now: int, data: CreateWithOAuthData): User {
    User(id, data.email, data.name, None, Coalesce(data.role, "user"), Coalesce(data.status, "active"),
         data.tenantId, Coalesce(data.emailVerified, false), false, None, None,
         Some(data.oauthProvider), Some(data.oauthProviderId), None, now)
  }

  predicate IsInsert(op: Op) {
    op.Create? || op.CreateWithOAuth?
  }

  predicate IsFind(op: Op) {
    op.FindById? || op.FindByEmail? || op.FindByOAuthId?
  }

  predicate IsUpdate(op: Op) {
    !IsInsert(op) && !IsFind(op)
  }

  function InsertedRow(op: Op): User
    requires IsInsert(op)
  {
    if op.Create? then NewUser(op.id, op.now, op.data) else NewOAuthUser(op.id, op.now, op.oauthData)
  }

  function TenantOfInsert(op: Op): string
    requires IsInsert(op)
  {
    if op.Create? then op.data.tenantId else op.oauthData.tenantId
  }

  /** The SET clause of an update. */
  function Assign(op: Op, row: User): User {
    match op
    case UpdatePassword(_, hash) => row.(passwordHash := Some(hash))
    case UpdateMfa(_, mfa) =>
      row.(mfaEnabled := mfa.mfaEnabled, mfaSecret := mfa.mfaSecret, mfaRecoveryCodes := mfa.mfaRecoveryCodes)
    case UpdateLastLogin(_, now) => row.(lastLoginAt := Some(now))
    case UpdateStatus(_, status) => row.(status := status)
    case UpdateEmailVerified(_, verified) => row.(emailVerified := verified)
    case LinkOAuth(_, provider, providerId) =>
      row.(oauthProvider := Some(provider), oauthProviderId := Some(providerId))
    case _ => row
  }

  /** The WHERE clause of a lookup. */
  predicate Selects(op: Op, row: User) {
    match op
    case FindById(id, scope) => row.id == id && (scope.None? || row.tenantId == scope.value)
    case FindByEmail(email, tenantId) => row.tenantId == tenantId && row.email == email
    case FindByOAuthId(provider, providerId, tenantId) =>
      row.tenantId == tenantId && row.oauthProvider == Some(provider) && row.oauthProviderId == Some(providerId)
    case _ => false
  }

  ghost function Lookup(users: Table, op: Op): Option<User> {
    if id :| id in users && Selects(op, users[id]) then Some(users[id]) else None
  }

  ghost function Apply(tenants: set<string>, users: Table, op: Op): (Table, Reply) {
    if IsFind(op) then (users, Found(Lookup(users, op)))
    else if IsInsert(op) then
      var row := InsertedRow(op);
      match InsertError(tenants, users, row)
      case Some(error) => (users, Failed(MapSqlxError(error)))
      case None => (users[row.id := row], Created(row))
    else if op.id !in users then (users, Done)
    else
      var row := Assign(op, users[op.id]);
      if op.LinkOAuth? && OAuthTaken(users, row) then (users, Failed(MapSqlxError(Violates(OAUTH))))
      else (users[op.id := row], Done)
  }

  ghost function Run(tenants: set<string>, users: Table, ops: seq<Op>): (Table, seq<Reply>)
    decreases |ops|
  {
    if ops == [] then (users, [])
    else
      var (next, reply) := Apply(tenants, users, ops[0]);
      var (final, replies) := Run(tenants, next, ops[1..]);
      (final, [reply] + replies)
  }

  /** No two rows share an email or an OAuth identity within a tenant. */
  ghost predicate UniqueKeys(users: Table) {
    forall a, b :: a in users && b in users && a != b ==>
                     !SameEmail(users[a], users[b]) && !SameOAuth(users[a], users[b])
  }

  /** What the schema enforces in every state. */
  ghost predicate Consistent(tenants: set<string>, users: Table) {
    && (forall id :: id in users ==> users[id].id == id && users[id].tenantId in tenants)
    && UniqueKeys(users)
  }

  /** Writing one row keeps the table consistent when its own keys are free. */
  lemma {:induction false} WriteKeepsConsistent(tenants: set<string>, users: Table, row: User)
    requires Consistent(tenants, users) && row.tenantId in tenants
    requires !EmailTaken(users, row) && !OAuthTaken(users, row)
    ensures Consistent(tenants, users[row.id := row])
  {
    forall id | id in users && id != row.id
      ensures !SameEmail(row, users[id]) && !SameEmail(users[id], row)
      ensures !SameOAuth(row, users[id]) && !SameOAuth(users[id], row)
    {
    }
  }

  lemma {:induction false} ApplyKeepsConsistent(tenants: set<string>, users: Table, op: Op)
    requires Consistent(tenants, users)
    ensures Consistent(tenants, Apply(tenants, users, op).0)
  {
    if Apply(tenants, users, op).0 != users {
      var row := if IsInsert(op) then InsertedRow(op) else Assign(op, users[op.id]);
      assert IsInsert(op) ==> InsertError(tenants, users, row).None?;
      if !IsInsert(op) && !op.LinkOAuth? {
        KeysUnchanged(tenants, users, users[op.id], row);
      } else if op.LinkOAuth? {
        EmailUnchanged(tenants, users, users[op.id], row);
      }
      WriteKeepsConsistent(tenants, users, row);
    }
  }

  lemma {:induction false} EmailUnchanged(tenants: set<string>, users: Table, before: User, after: User)
    requires Consistent(tenants, users) && before.id in users && users[before.id] == before
    requires after.id == before.id && after.tenantId == before.tenantId && after.email == before.email
    ensures !EmailTaken(users, after)
  {
  }

  lemma {:induction false} KeysUnchanged(tenants: set<string>, users: Table, before: User, after: User)
    requires Consistent(tenants, users) && before.id in users && users[before.id] == before
    requires after.id == before.id && after.tenantId == before.tenantId && after.email == before.email
    requires after.oauthProvider == before.oauthProvider && after.oauthProviderId == before.oauthProviderId
    ensures !EmailTaken(users, after) && !OAuthTaken(users, after)
  {
  }

  /** No two users of one tenant share an email, nor an OAuth identity, in any reachable state. */
  lemma {:induction false} RunKeepsConsistent(tenants: set<string>, users: Table, ops: seq<Op>)
    requires Consistent(tenants, users)
    ensures Consistent(tenants, Run(tenants, users, ops).0)
    ensures var after := Run(tenants, users, ops).0;
            forall a, b :: a in after && b in after && a != b && after[a].tenantId == after[b].tenantId ==>
                             && after[a].email != after[b].email
                             && (after[a].oauthProvider.None? || after[a].oauthProviderId.None?
                                 || after[a].oauthProvider != after[b].oauthProvider
                                 || after[a].oauthProviderId != after[b].oauthProviderId)
    decreases |ops|
  {
    if ops != [] {
      ApplyKeepsConsistent(tenants, users, ops[0]);
      RunKeepsConsistent(tenants, Apply(tenants, users, ops[0]).0, ops[1..]);
    }
  }

  /**
   One operation: a refused one leaves the table as it was, no row but the target changes,
   none disappears, and no row ever changes its id, tenant, email or creation time.
   */
  lemma {:induction false} ApplyIsLocal(tenants: set<string>, users: Table, op: Op)
    ensures var (after, reply) := Apply(tenants, users, op);
            && (reply.Failed? || reply.Found? ==> after == users)
            && (forall id :: id in users ==>
                  && id in after
                  && (IsFind(op) || id != op.id ==> after[id] == users[id])
                  && after[id].id == users[id].id && after[id].tenantId == users[id].tenantId
                  && after[id].email == users[id].email && after[id].createdAt == users[id].createdAt)
            && (forall id :: id in after && id !in users ==> IsInsert(op) && reply == Created(after[id]) && id == op.id)
  {
  }

  /**
   An insert is accepted exactly when its key is new and the table with the row in it would
   still satisfy the schema; it conflicts exactly when the key is taken or the row would break
   a uniqueness rule, and an unknown tenant alone is a backend failure.
   */
  lemma {:induction false} InsertConflicts(tenants: set<string>, users: Table, op: Op)
    requires Consistent(tenants, users) && IsInsert(op)
    ensures var reply := Apply(tenants, users, op).1;
            var table := users[op.id := InsertedRow(op)];
            && (reply.Created? <==> op.id !in users && Consistent(tenants, table))
            && ((reply.Failed? && reply.error.Conflict?) <==> op.id in users || !UniqueKeys(table))
            && (reply == Failed(Backend) <==> op.id !in users && UniqueKeys(table) && TenantOfInsert(op) !in tenants)
  {
    var row := InsertedRow(op);
    assert row.id == op.id && row.tenantId == TenantOfInsert(op);
    if op.id !in users {
      TakenBreaksUnique(users, row);
      RowIsReferenced(tenants, users, row);
    }
  }

  /** A conflict names the constraint that was in the way: the key first, then the email, then the identity. */
  lemma {:induction false} ConflictNames(tenants: set<string>, users: Table, op: Op)
    requires IsInsert(op)
    ensures var reply, tenant := Apply(tenants, users, op).1, TenantOfInsert(op);
            var email := if op.Create? then op.data.email else op.oauthData.email;
            var taken := exists id :: id in users && users[id].tenantId == tenant && users[id].email == email;
            var linked := op.CreateWithOAuth?
                          && (exists id ::
                                && id in users && users[id].tenantId == tenant
                                && users[id].oauthProvider == Some(op.oauthData.oauthProvider)
                                && users[id].oauthProviderId == Some(op.oauthData.oauthProviderId));
            && (reply == Failed(Conflict("users_pkey")) <==> op.id in users)
            && (reply == Failed(Conflict("users_tenant_email_uidx")) <==> op.id !in users && taken)
            && (reply == Failed(Conflict("users_oauth_uidx")) <==> op.id !in users && !taken && linked)
            && (reply.Created? <==> op.id !in users && !taken && !linked && tenant in tenants)
  {
    NamesDiffer();
    if op.id !in users {
      TakenMeans(users, op);
    }
  }

  lemma {:induction false} NamesDiffer()
    ensures PKEY != TENANT_EMAIL && PKEY != OAUTH && TENANT_EMAIL != OAUTH
    ensures PKEY == "users_pkey" && TENANT_EMAIL == "users_tenant_email_uidx" && OAUTH == "users_oauth_uidx"
  {
    assert PKEY[6] == 'p' && TENANT_EMAIL[6] == 't' && OAUTH[6] == 'o';
  }

  /** What being taken means for an insert, in terms of what was sent. */
  lemma {:induction false} TakenMeans(users: Table, op: Op)
    requires IsInsert(op) && op.id !in users
    ensures var row := InsertedRow(op);
            && (EmailTaken(users, row)
                <==> exists id ::
                       && id in users && users[id].tenantId == TenantOfInsert(op)
                       && users[id].email == if op.Create? then op.data.email else op.oauthData.email)
            && (OAuthTaken(users, row)
                <==> && op.CreateWithOAuth?
                     && exists id ::
                          && id in users && users[id].tenantId == TenantOfInsert(op)
                          && users[id].oauthProvider == Some(op.oauthData.oauthProvider)
                          && users[id].oauthProviderId == Some(op.oauthData.oauthProviderId))
  {
  }

  lemma {:induction false} RowIsReferenced(tenants: set<string>, users: Table, row: User)
    requires Consistent(tenants, users) && row.id !in users
    ensures Consistent(tenants, users[row.id := row]) <==> UniqueKeys(users[row.id := row]) && row.tenantId in tenants
  {
    var table := users[row.id := row];
    assert row.id in table && table[row.id] == row;
    assert forall id :: id in table ==> id == row.id || (id in users && table[id] == users[id]);
  }

  /** Adding a row breaks uniqueness exactly when its email or its OAuth identity is taken. */
  lemma {:induction false} TakenBreaksUnique(users: Table, row: User)
    requires UniqueKeys(users) && row.id !in users
    ensures UniqueKeys(users[row.id := row]) <==> !EmailTaken(users, row) && !OAuthTaken(users, row)
  {
    var table := users[row.id := row];
    if id :| id in users && (SameEmail(row, users[id]) || SameOAuth(row, users[id])) {
      assert table[row.id] == row && table[id] == users[id];
    }
    forall id | id in users && !SameEmail(row, users[id]) && !SameOAuth(row, users[id])
      ensures !SameEmail(users[id], row) && !SameOAuth(users[id], row)
    {
    }
  }

  // ---------------------------------------------------------------------------------------
  // Writing, then looking up
  // ---------------------------------------------------------------------------------------

  /** A created user is found under its email, its id and its OAuth identity, in its tenant only. */
  lemma {:induction false} InsertReadsBack(tenants: set<string>, users: Table, op: Op, other: string)
    requires Consistent(tenants, users) && IsInsert(op) && Apply(tenants, users, op).1.Created?
    ensures var (after, reply) := Apply(tenants, users, op);
            var tenant := TenantOfInsert(op);
            && Lookup(after, FindByEmail(if op.Create? then op.data.email else op.oauthData.email, tenant)) == Some(reply.user)
            && Lookup(after, FindById(op.id, None)) == Some(reply.user)
            && Lookup(after, FindById(op.id, Some(other))) == (if other == tenant then Some(reply.user) else None)
            && (op.CreateWithOAuth? ==>
                  Lookup(after, FindByOAuthId(op.oauthData.oauthProvider, op.oauthData.oauthProviderId, tenant)) == Some(reply.user))
  {
    var row := InsertedRow(op);
    assert Apply(tenants, users, op) == (users[op.id := row], Created(row));
    ApplyKeepsConsistent(tenants, users, op);
    KeysFindRow(tenants, users[op.id := row], row, other);
  }

  /** The columns of a created user: what was asked for, the defaults, and the rest empty. */
  lemma {:induction false} InsertFillsColumns(tenants: set<string>, users: Table, op: Op)
    requires Apply(tenants, users, op).1.Created?
    ensures var user := Apply(tenants, users, op).1.user;
            && user.id == op.id && user.createdAt == op.now
            && !user.mfaEnabled && user.mfaSecret.None? && user.mfaRecoveryCodes.None? && user.lastLoginAt.None?
    ensures op.Create? ==>
              var user, data := Apply(tenants, users, op).1.user, op.data;
              && user.email == data.email && user.name == data.name && user.tenantId == data.tenantId
              && user.passwordHash == data.passwordHash && user.oauthProvider.None? && user.oauthProviderId.None?
              && user.role == (if data.role.Some? then data.role.value else "user")
              && user.status == (if data.status.Some? then data.status.value else "active")
              && (user.emailVerified <==> data.emailVerified == Some(true))
    ensures op.CreateWithOAuth? ==>
              var user, data := Apply(tenants, users, op).1.user, op.oauthData;
              && user.email == data.email && user.name == data.name && user.tenantId == data.tenantId
              && user.passwordHash.None? && user.oauthProvider == Some(data.oauthProvider)
              && user.oauthProviderId == Some(data.oauthProviderId)
              && user.role == (if data.role.Some? then data.role.value else "user")
              && user.status == (if data.status.Some? then data.status.value else "active")
              && (user.emailVerified <==> data.emailVerified == Some(true))
  {
  }

  /**
   After any update that is not refused, the user is found with the columns of that update at
   the values sent and every other column as before; an unknown id changes nothing.
   */
  lemma {:induction false} UpdateReadsBack(tenants: set<string>, users: Table, op: Op)
    requires Consistent(tenants, users) && IsUpdate(op)
    ensures op.id !in users ==> Apply(tenants, users, op) == (users, Done)
    ensures op.id in users && Apply(tenants, users, op).1 == Done ==>
              var before := users[op.id];
              var found := Lookup(Apply(tenants, users, op).0, FindById(op.id, None));
              && found.Some?
              && found.value.passwordHash == (if op.UpdatePassword? then Some(op.passwordHash) else before.passwordHash)
              && found.value.mfaEnabled == (if op.UpdateMfa? then op.mfa.mfaEnabled else before.mfaEnabled)
              && found.value.mfaSecret == (if op.UpdateMfa? then op.mfa.mfaSecret else before.mfaSecret)
              && found.value.mfaRecoveryCodes == (if op.UpdateMfa? then op.mfa.mfaRecoveryCodes else before.mfaRecoveryCodes)
              && found.value.lastLoginAt == (if op.UpdateLastLogin? then Some(op.now) else before.lastLoginAt)
              && found.value.status == (if op.UpdateStatus? then op.status else before.status)
              && found.value.emailVerified == (if op.UpdateEmailVerified? then op.verified else before.emailVerified)
              && found.value.oauthProvider == (if op.LinkOAuth? then Some(op.provider) else before.oauthProvider)
              && found.value.oauthProviderId == (if op.LinkOAuth? then Some(op.providerId) else before.oauthProviderId)
              && found.value.id == before.id && found.value.email == before.email && found.value.name == before.name
              && found.value.role == before.role && found.value.tenantId == before.tenantId
              && found.value.createdAt == before.createdAt
    ensures Apply(tenants, users, op).1 != Done ==>
              op.LinkOAuth? && Apply(tenants, users, op) == (users, Failed(Conflict("users_oauth_uidx")))
  {
    NamesDiffer();
    UpdateIsWrite(tenants, users, op);
    if op.id in users && !Refused(users, op) {
      var row := Assign(op, users[op.id]);
      ApplyKeepsConsistent(tenants, users, op);
      assert row.id == op.id;
      KeysFindRow(tenants, users[op.id := row], row, "");
    }
  }

  /** A unique violation is a conflict that names its constraint; every other error is opaque. */
  lemma {:induction false} ConflictsAreUniqueViolations(error: SqlxError)
    ensures MapSqlxError(error).Conflict? <==> error.Database? && error.code == "23505"
    ensures MapSqlxError(error).Conflict? ==>
              MapSqlxError(error).constraint == if error.constraint.Some? then error.constraint.value else "unique"
  {
  }

  /** In a consistent table a row is found under each of its own keys. */
  lemma {:induction false} KeysFindRow(tenants: set<string>, users: Table, row: User, other: string)
    requires Consistent(tenants, users) && row.id in users && users[row.id] == row
    ensures Lookup(users, FindByEmail(row.email, row.tenantId)) == Some(row)
    ensures Lookup(users, FindById(row.id, None)) == Some(row)
    ensures Lookup(users, FindById(row.id, Some(other))) == if other == row.tenantId then Some(row) else None
    ensures row.oauthProvider.Some? && row.oauthProviderId.Some? ==>
              Lookup(users, FindByOAuthId(row.oauthProvider.value, row.oauthProviderId.value, row.tenantId)) == Some(row)
  {
    FoundIf(tenants, users, FindByEmail(row.email, row.tenantId), row.id);
    FoundIf(tenants, users, FindById(row.id, None), row.id);
    FoundIf(tenants, users, FindById(row.id, Some(other)), row.id);
    if row.oauthProvider.Some? && row.oauthProviderId.Some? {
      FoundIf(tenants, users, FindByOAuthId(row.oauthProvider.value, row.oauthProviderId.value, row.tenantId), row.id);
    }
  }

  lemma {:induction false} FoundIf(tenants: set<string>, users: Table, op: Op, id: string)
    requires Consistent(tenants, users) && id in users && IsFind(op)
    ensures Selects(op, users[id]) ==> Lookup(users, op) == Some(users[id])
  {
    if Selects(op, users[id]) {
      LookupIsUnique(tenants, users, op, id);
    }
  }

  /**
   Linking succeeds exactly when no other user of the tenant holds the identity; the identity
   then finds the linked user, which is otherwise as before.
   */
  lemma {:induction false} LinkReadsBack(tenants: set<string>, users: Table, id: string, provider: string, providerId: string)
    requires Consistent(tenants, users) && id in users
    ensures var (after, reply) := Apply(tenants, users, LinkOAuth(id, provider, providerId));
            var find := FindByOAuthId(provider, providerId, users[id].tenantId);
            && (reply == Done <==> forall other :: other in users && Selects(find, users[other]) ==> other == id)
            && (reply == Done ==>
                  && Lookup(after, find) == Some(after[id])
                  && after[id].(oauthProvider := users[id].oauthProvider, oauthProviderId := users[id].oauthProviderId) == users[id])
  {
    var op, find := LinkOAuth(id, provider, providerId), FindByOAuthId(provider, providerId, users[id].tenantId);
    var row := Assign(op, users[id]);
    assert forall other :: other in users ==> (SameOAuth(row, users[other]) <==> Selects(find, users[other]));
    if !OAuthTaken(users, row) {
      ApplyKeepsConsistent(tenants, users, op);
      FoundIf(tenants, Apply(tenants, users, op).0, find, id);
    }
  }

  /** Both write the same columns. */
  predicate SameColumns(a: Op, b: Op) {
    || (a.UpdatePassword? && b.UpdatePassword?) || (a.UpdateMfa? && b.UpdateMfa?)
    || (a.UpdateLastLogin? && b.UpdateLastLogin?) || (a.UpdateStatus? && b.UpdateStatus?)
    || (a.UpdateEmailVerified? && b.UpdateEmailVerified?) || (a.LinkOAuth? && b.LinkOAuth?)
  }

  ghost predicate Refused(users: Table, op: Op) {
    op.LinkOAuth? && op.id in users && OAuthTaken(users, Assign(op, users[op.id]))
  }

  ghost function Written(users: Table, op: Op): Table
    requires IsUpdate(op)
  {
    if op.id in users && !Refused(users, op) then users[op.id := Assign(op, users[op.id])] else users
  }

  lemma {:induction false} UpdateIsWrite(tenants: set<string>, users: Table, op: Op)
    requires IsUpdate(op)
    ensures Apply(tenants, users, op) == (Written(users, op), if Refused(users, op) then Failed(Conflict(OAUTH)) else Done)
  {
  }

  lemma {:induction false} AssignsCommute(a: Op, b: Op, row: User)
    requires IsUpdate(a) && IsUpdate(b) && !SameColumns(a, b)
    ensures Assign(a, Assign(b, row)) == Assign(b, Assign(a, row))
  {
  }

  /** The columns the identity index looks at, which only a link writes. */
  predicate SameIdentity(a: User, b: User) {
    && a.id == b.id && a.tenantId == b.tenantId
    && a.oauthProvider == b.oauthProvider && a.oauthProviderId == b.oauthProviderId
  }

  /** Whether an update is refused does not depend on an update of other columns. */
  lemma {:induction false} RefusalIgnores(users: Table, op: Op, before: Op)
    requires IsUpdate(op) && IsUpdate(before) && !SameColumns(op, before)
    ensures Refused(Written(users, before), op) == Refused(users, op)
  {
    var after := Written(users, before);
    if op.LinkOAuth? && op.id in users {
      assert forall id :: id in users <==> id in after;
      assert forall id :: id in users ==> SameIdentity(users[id], after[id]);
      TakenIgnores(users, after, Assign(op, users[op.id]), Assign(op, after[op.id]));
    }
  }

  lemma {:induction false} TakenIgnores(users: Table, after: Table, row: User, later: User)
    requires forall id :: id in users <==> id in after
    requires forall id :: id in users ==> SameIdentity(users[id], after[id])
    requires SameIdentity(row, later)
    ensures OAuthTaken(users, row) == OAuthTaken(after, later)
  {
    forall id | id in users ensures SameOAuth(row, users[id]) == SameOAuth(later, after[id]) {
    }
  }

  /** Updates of different columns commute, replies included: neither overwrites or blocks the other. */
  lemma {:induction false} UpdatesCommute(tenants: set<string>, users: Table, a: Op, b: Op)
    requires IsUpdate(a) && IsUpdate(b) && !SameColumns(a, b)
    ensures var (first, replyA) := Apply(tenants, users, a);
            var (second, replyB) := Apply(tenants, users, b);
            Apply(tenants, first, b).0 == Apply(tenants, second, a).0
            && Apply(tenants, first, b).1 == replyB && Apply(tenants, second, a).1 == replyA
  {
    UpdateIsWrite(tenants, users, a);
    UpdateIsWrite(tenants, users, b);
    UpdateIsWrite(tenants, Written(users, a), b);
    UpdateIsWrite(tenants, Written(users, b), a);
    WritesCommute(users, a, b);
    RefusalIgnores(users, a, b);
    RefusalIgnores(users, b, a);
  }

  /** `after` is `users` with one row reassigned, unless refused. */
  ghost predicate Reassigns(users: Table, after: Table, op: Op, refused: bool)
    requires IsUpdate(op)
  {
    && (forall id :: id in after <==> id in users)
    && (forall id :: id in users ==> after[id] == if id == op.id && !refused then Assign(op, users[id]) else users[id])
  }

  lemma {:induction false} RowsCommute(row: User, a: Op, b: Op, hitsA: bool, hitsB: bool)
    requires IsUpdate(a) && IsUpdate(b) && !SameColumns(a, b)
    ensures var first := if hitsA then Assign(a, row) else row;
            var second := if hitsB then Assign(b, row) else row;
            (if hitsB then Assign(b, first) else first) == (if hitsA then Assign(a, second) else second)
  {
    AssignsCommute(a, b, row);
  }

  lemma {:induction false} WrittenReassigns(users: Table, op: Op)
    requires IsUpdate(op)
    ensures Reassigns(users, Written(users, op), op, Refused(users, op))
  {
  }

  lemma {:induction false} WritesCommute(users: Table, a: Op, b: Op)
    requires IsUpdate(a) && IsUpdate(b) && !SameColumns(a, b)
    ensures Written(Written(users, a), b) == Written(Written(users, b), a)
  {
    RefusalIgnores(users, a, b);
    RefusalIgnores(users, b, a);
    WrittenReassigns(users, a);
    WrittenReassigns(users, b);
    WrittenReassigns(Written(users, a), b);
    WrittenReassigns(Written(users, b), a);
    ReassignmentsCommute(users, Written(users, a), Written(users, b), Written(Written(users, a), b),
                         Written(Written(users, b), a), a, b, Refused(users, a), Refused(users, b));
  }

  lemma {:induction false} ReassignmentsCommute(users: Table, first: Table, second: Table, ab: Table, ba: Table, a: Op, b: Op,
                                                refusedA: bool, refusedB: bool)
    requires IsUpdate(a) && IsUpdate(b) && !SameColumns(a, b)
    requires Reassigns(users, first, a, refusedA) && Reassigns(first, ab, b, refusedB)
    requires Reassigns(users, second, b, refusedB) && Reassigns(second, ba, a, refusedA)
    ensures ab == ba
  {
    forall id | id in users ensures ab[id] == ba[id] {
      RowsCommute(users[id], a, b, id == a.id && !refusedA, id == b.id && !refusedB);
    }
  }

  // ---------------------------------------------------------------------------------------
  // Tenant isolation
  // ---------------------------------------------------------------------------------------

  /** The table with every other tenant's rows removed. */
  ghost function View(users: Table, tenant: string): Table {
    map id | id in users && users[id].tenantId == tenant :: users[id]
  }

  /** Operations on `tenant`: its inserts, updates of its rows, and lookups scoped to it. */
  ghost predicate Concerns(users: Table, op: Op, tenant: string) {
    if op.FindById? then op.scope == Some(tenant)
    else if IsFind(op) then op.tenantId == tenant
    else if IsInsert(op) then TenantOfInsert(op) == tenant
    else op.id in users && users[op.id].tenantId == tenant
  }

  /** An insert into `tenant` whose generated id is already another tenant's row. */
  ghost predicate ForeignClash(users: Table, op: Op, tenant: string) {
    IsInsert(op) && TenantOfInsert(op) == tenant && op.id in users && users[op.id].tenantId != tenant
  }

  lemma {:induction false} LookupIsUnique(tenants: set<string>, users: Table, op: Op, id: string)
    requires Consistent(tenants, users)
    requires id in users && IsFind(op) && Selects(op, users[id])
    ensures Lookup(users, op) == Some(users[id])
  {
    forall other | other in users && Selects(op, users[other]) ensures other == id {
    }
  }

  /** Every lookup finds exactly the user it describes, by id and scope, by email, or by identity. */
  lemma {:induction false} LookupsAreExact(tenants: set<string>, users: Table, user: User)
    requires Consistent(tenants, users)
    ensures forall id, scope :: Lookup(users, FindById(id, scope)) == Some(user)
                                <==> id in users && users[id] == user && (scope == None || scope == Some(user.tenantId))
    ensures forall email, tenant :: Lookup(users, FindByEmail(email, tenant)) == Some(user)
                                    <==> user.id in users && users[user.id] == user && user.email == email && user.tenantId == tenant
    ensures forall provider, providerId, tenant ::
              Lookup(users, FindByOAuthId(provider, providerId, tenant)) == Some(user)
              <==> && user.id in users && users[user.id] == user && user.tenantId == tenant
                   && user.oauthProvider == Some(provider) && user.oauthProviderId == Some(providerId)
  {
    forall id, scope
      ensures Lookup(users, FindById(id, scope)) == Some(user)
              <==> id in users && users[id] == user && (scope == None || scope == Some(user.tenantId))
    {
      LookupIs(tenants, users, FindById(id, scope), user);
    }
    forall email, tenant
      ensures Lookup(users, FindByEmail(email, tenant)) == Some(user)
              <==> user.id in users && users[user.id] == user && user.email == email && user.tenantId == tenant
    {
      LookupIs(tenants, users, FindByEmail(email, tenant), user);
    }
    forall provider, providerId, tenant
      ensures Lookup(users, FindByOAuthId(provider, providerId, tenant)) == Some(user)
              <==> && user.id in users && users[user.id] == user && user.tenantId == tenant
                   && user.oauthProvider == Some(provider) && user.oauthProviderId == Some(providerId)
    {
      LookupIs(tenants, users, FindByOAuthId(provider, providerId, tenant), user);
    }
  }

  lemma {:induction false} LookupIs(tenants: set<string>, users: Table, op: Op, user: User)
    requires Consistent(tenants, users) && IsFind(op)
    ensures Lookup(users, op) == Some(user) <==> user.id in users && users[user.id] == user && Selects(op, user)
  {
    if user.id in users && users[user.id] == user && Selects(op, user) {
      LookupIsUnique(tenants, users, op, user.id);
    }
  }

  lemma {:induction false} ScopedLookupInView(tenants: set<string>, users: Table, op: Op, tenant: string)
    requires Consistent(tenants, users) && IsFind(op) && Concerns(users, op, tenant)
    ensures Lookup(users, op) == Lookup(View(users, tenant), op)
  {
    var view := View(users, tenant);
    assert Consistent(tenants, view);
    if id :| id in users && Selects(op, users[id]) {
      LookupIsUnique(tenants, users, op, id);
      assert id in view;
      LookupIsUnique(tenants, view, op, id);
    }
  }

  /** The uniqueness checks of a row of `tenant` only ever look at rows of `tenant`. */
  lemma {:induction false} ChecksInView(users: Table, row: User, tenant: string)
    requires row.tenantId == tenant
    ensures EmailTaken(users, row) == EmailTaken(View(users, tenant), row)
    ensures OAuthTaken(users, row) == OAuthTaken(View(users, tenant), row)
  {
    var view := View(users, tenant);
    if id :| id in users && id != row.id && SameEmail(row, users[id]) {
      assert id in view;
    }
    if id :| id in users && id != row.id && SameOAuth(row, users[id]) {
      assert id in view;
    }
  }

  lemma {:induction false} InsertInView(tenants: set<string>, users: Table, op: Op, tenant: string)
    requires IsInsert(op) && TenantOfInsert(op) == tenant && !ForeignClash(users, op, tenant)
    ensures var (after, reply) := Apply(tenants, users, op);
            (View(after, tenant), reply) == Apply(tenants, View(users, tenant), op)
  {
    var row := InsertedRow(op);
    ChecksInView(users, row, tenant);
    assert InsertError(tenants, users, row) == InsertError(tenants, View(users, tenant), row);
    assert View(users[row.id := row], tenant) == View(users, tenant)[row.id := row];
  }

  lemma {:induction false} UpdateInView(tenants: set<string>, users: Table, op: Op, tenant: string)
    requires IsUpdate(op) && op.id in users && users[op.id].tenantId == tenant
    ensures var (after, reply) := Apply(tenants, users, op);
            (View(after, tenant), reply) == Apply(tenants, View(users, tenant), op)
  {
    var row := Assign(op, users[op.id]);
    ChecksInView(users, row, tenant);
    assert View(users[op.id := row], tenant) == View(users, tenant)[op.id := row];
  }

  /** What other tenants do is invisible; what `tenant` does is what it would do alone. */
  lemma {:induction false} StepInView(tenants: set<string>, users: Table, op: Op, tenant: string)
    requires Consistent(tenants, users) && !ForeignClash(users, op, tenant)
    ensures var (after, reply) := Apply(tenants, users, op);
            if Concerns(users, op, tenant)
            then (View(after, tenant), reply) == Apply(tenants, View(users, tenant), op)
            else View(after, tenant) == View(users, tenant)
  {
    if !Concerns(users, op, tenant) {
      ForeignStepHidden(tenants, users, op, tenant);
    } else if IsFind(op) {
      ScopedLookupInView(tenants, users, op, tenant);
    } else if IsInsert(op) {
      InsertInView(tenants, users, op, tenant);
    } else {
      UpdateInView(tenants, users, op, tenant);
    }
  }

  lemma {:induction false} ForeignStepHidden(tenants: set<string>, users: Table, op: Op, tenant: string)
    requires !Concerns(users, op, tenant)
    ensures View(Apply(tenants, users, op).0, tenant) == View(users, tenant)
  {
  }

  /** The operations of a run that concern `tenant`, each judged in the state it ran in. */
  ghost function Purge(tenants: set<string>, users: Table, ops: seq<Op>, tenant: string): seq<Op>
    decreases |ops|
  {
    if ops == [] then []
    else
      (if Concerns(users, ops[0], tenant) then [ops[0]] else [])
      + Purge(tenants, Apply(tenants, users, ops[0]).0, ops[1..], tenant)
  }

  /** The replies of a run to the operations that concern `tenant`. */
  ghost function Observed(tenants: set<string>, users: Table, ops: seq<Op>, tenant: string): seq<Reply>
    decreases |ops|
  {
    if ops == [] then []
    else
      var (next, reply) := Apply(tenants, users, ops[0]);
      (if Concerns(users, ops[0], tenant) then [reply] else []) + Observed(tenants, next, ops[1..], tenant)
  }

  /** Every insert of the run into `tenant` draws an id no other tenant's row holds. */
  ghost predicate FreshIds(tenants: set<string>, users: Table, ops: seq<Op>, tenant: string)
    decreases |ops|
  {
    ops == [] ||
    (!ForeignClash(users, ops[0], tenant)
     && FreshIds(tenants, Apply(tenants, users, ops[0]).0, ops[1..], tenant))
  }

  /**
   The purge theorem. Delete from any run every operation on other tenants, and from the
   starting table every row of theirs: `tenant` gets the same reply to each of its own
   operations and lookups, and ends with the same rows.
   */
  lemma {:induction false} OtherTenantsAreInvisible(tenants: set<string>, users: Table, ops: seq<Op>, tenant: string)
    requires Consistent(tenants, users) && FreshIds(tenants, users, ops, tenant)
    ensures var alone := Run(tenants, View(users, tenant), Purge(tenants, users, ops, tenant));
            && alone.1 == Observed(tenants, users, ops, tenant)
            && alone.0 == View(Run(tenants, users, ops).0, tenant)
    decreases |ops|
  {
    if ops != [] {
      var next := Apply(tenants, users, ops[0]).0;
      StepInView(tenants, users, ops[0], tenant);
      ApplyKeepsConsistent(tenants, users, ops[0]);
      OtherTenantsAreInvisible(tenants, next, ops[1..], tenant);
      var purged, rest := Purge(tenants, users, ops, tenant), Purge(tenants, next, ops[1..], tenant);
      if Concerns(users, ops[0], tenant) {
        assert purged[0] == ops[0] && purged[1..] == rest;
      } else {
        assert purged == rest;
      }
    }
  }

  /** One operation: its reply differs from the tenant's own exactly when its id clashes. */
  lemma {:induction false} ReplyNeedsFreshId(tenants: set<string>, users: Table, op: Op, tenant: string)
    requires Consistent(tenants, users) && Concerns(users, op, tenant)
    ensures Apply(tenants, users, op).1 == Apply(tenants, View(users, tenant), op).1
            <==> !ForeignClash(users, op, tenant)
  {
    if !ForeignClash(users, op, tenant) {
      StepInView(tenants, users, op, tenant);
    }
  }

  /**
   Fresh ids are exactly what isolation needs: over any run, the tenant gets the replies it
   would get alone if and only if none of its inserts draws an id that is another tenant's.
   */
  lemma {:induction false} IsolationNeedsFreshIds(tenants: set<string>, users: Table, ops: seq<Op>, tenant: string)
    requires Consistent(tenants, users)
    ensures Run(tenants, View(users, tenant), Purge(tenants, users, ops, tenant)).1 == Observed(tenants, users, ops, tenant)
            <==> FreshIds(tenants, users, ops, tenant)
    decreases |ops|
  {
    if ops != [] {
      var op, view := ops[0], View(users, tenant);
      var (next, reply) := Apply(tenants, users, op);
      var later := Purge(tenants, next, ops[1..], tenant);
      ApplyKeepsConsistent(tenants, users, op);
      IsolationNeedsFreshIds(tenants, next, ops[1..], tenant);
      PurgeStep(tenants, users, ops, tenant);
      if Concerns(users, op, tenant) {
        ReplyNeedsFreshId(tenants, users, op, tenant);
        RunStep(tenants, view, op, later);
        var (alone, own) := Apply(tenants, view, op);
        HeadsAndTails(own, Run(tenants, alone, later).1, reply, Observed(tenants, next, ops[1..], tenant));
      }
      if !ForeignClash(users, op, tenant) {
        StepInView(tenants, users, op, tenant);
      }
    }
  }

  lemma {:induction false} PurgeStep(tenants: set<string>, users: Table, ops: seq<Op>, tenant: string)
    requires ops != []
    ensures var (next, reply) := Apply(tenants, users, ops[0]);
            var later, heard := Purge(tenants, next, ops[1..], tenant), Observed(tenants, next, ops[1..], tenant);
            && Purge(tenants, users, ops, tenant) == (if Concerns(users, ops[0], tenant) then [ops[0]] + later else later)
            && Observed(tenants, users, ops, tenant) == (if Concerns(users, ops[0], tenant) then [reply] + heard else heard)
  {
  }

  lemma {:induction false} RunStep(tenants: set<string>, users: Table, op: Op, later: seq<Op>)
    ensures var (next, reply) := Apply(tenants, users, op);
            Run(tenants, users, [op] + later).1 == [reply] + Run(tenants, next, later).1
  {
    assert ([op] + later)[1..] == later;
  }

  lemma {:induction false} HeadsAndTails(a: Reply, restA: seq<Reply>, b: Reply, restB: seq<Reply>)
    ensures [a] + restA == [b] + restB <==> a == b && restA == restB
  {
    assert ([a] + restA)[0] == a && ([b] + restB)[0] == b;
    assert ([a] + restA)[1..] == restA && ([b] + restB)[1..] == restB;
  }

  /** The clash exists: a foreign row with the generated id turns an insert into a conflict. */
  lemma {:induction false} ForeignClashExample()
    ensures var data := CreateUserData("b@x", "B", None, None, None, "globex", None);
            var foreign := NewUser("1", 0, data.(tenantId := "acme"));
            var users: Table := map["1" := foreign];
            && Consistent({"acme", "globex"}, users)
            && Apply({"acme", "globex"}, users, Create("1", 0, data)).1 == Failed(Conflict(PKEY))
            && Apply({"acme", "globex"}, View(users, "globex"), Create("1", 0, data)).1.Created?
  {
  }

  // ---------------------------------------------------------------------------------------
  // The repository object
  // ---------------------------------------------------------------------------------------

  class SqlxUserRepository {
    const tenants: set<string>
    var users: Table

    constructor (tenants: set<string>)
      ensures this.tenants == tenants && users == map[] && Consistent(tenants, users)
    {
      this.tenants := tenants;
      users := map[];
    }

    /** The lookups: at most one row, and a missing or cross-tenant one is None. */
    method FetchOptional(op: Op) returns (row: Option<User>)
      requires Consistent(tenants, users) && IsFind(op)
      ensures row == Lookup(users, op)
    {
      row := None;
      if id :| id in users && Selects(op, users[id]) {
        LookupIsUnique(tenants, users, op, id);
        row := Some(users[id]);
      }
    }

    /** The inserts, returning the stored row. */
    method FetchOne(op: Op) returns (reply: Reply)
      requires Consistent(tenants, users) && IsInsert(op)
      modifies this
      ensures Consistent(tenants, users) && (users, reply) == Apply(tenants, old(users), op)
    {
      ApplyKeepsConsistent(tenants, users, op);
      var row := InsertedRow(op);
      match InsertError(tenants, users, row) {
        case Some(error) => reply := Failed(MapSqlxError(error));
        case None =>
          users := users[row.id := row];
          reply := Created(row);
      }
    }

    /** The updates by id; an unknown id is not an error. */
    method Execute(op: Op) returns (reply: Reply)
      requires Consistent(tenants, users) && IsUpdate(op)
      modifies this
      ensures Consistent(tenants, users) && (users, reply) == Apply(tenants, old(users), op)
    {
      ApplyKeepsConsistent(tenants, users, op);
      reply := Done;
      if op.id in users {
        var row := Assign(op, users[op.id]);
        if op.LinkOAuth? && OAuthTaken(users, row) {
          return Failed(MapSqlxError(Violates(OAUTH)));
        }
        users := users[op.id := row];
      }
    }
  }
}
