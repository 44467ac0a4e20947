/** The user table and its cached lookups by id, email and token, on one instance, each call run to completion.

  `GetCached` follows the two-tier cache; `RefreshUserCache` and the writers follow the table's own code. `Coherent` is
  what all of them keep: every live cached entry, found or not found, is what a query of the table would answer. */
module UserStore {
  import opened CacheKey
  import opened CacheTtl
  import opened Seqs

  const LOGIN_SECONDS: nat := 300

  /** `profile` holds the fields an update writes besides access, `fixed` those it never writes. */
  datatype User = User(id: nat, email: string, token: string, access: string, profile: string, fixed: string,
    lastLogin: Option<nat>)

  type Table = map<nat, User>

  /** A cached answer; no record means the user was not found. */
  datatype Entry = Entry(record: Option<User>, expiry: nat)

  type Tier = map<string, Entry>

  datatype Outcome = Done | Invalid | EmailRegistered | Unavailable | NotFound

  // ----- queries -----

  predicate Matches(u: User, k: UserKey) {
    match k
    case ById(id) => u.id == id
    case ByEmail(email) => u.email == email
    case ByToken(token) => u.token == token
  }

  /** The user has the id, the email or the token. */
  predicate Has(u: User, k: UserKey) {
    (k.ById? ==> k.id == u.id) && (k.ByEmail? ==> k.email == u.email) && (k.ByToken? ==> k.token == u.token)
  }

  predicate Found(table: Table, k: UserKey) {
    exists id :: id in table && Matches(table[id], k)
  }

  /** What the table answers. */
  ghost function Query(table: Table, k: UserKey): Option<User> {
    if Found(table, k) then var id :| id in table && Matches(table[id], k); Some(table[id]) else None
  }

  /** Ids, emails and tokens are unique. */
  ghost predicate ValidTable(table: Table) {
    && (forall id :: id in table ==> table[id].id == id && id != 0)
    && (forall a, b :: a in table && b in table && a != b ==>
      table[a].email != table[b].email && table[a].token != table[b].token)
  }

  lemma QueryIs(table: Table, k: UserKey, id: nat)
    requires ValidTable(table) && id in table && Matches(table[id], k)
    ensures Query(table, k) == Some(table[id])
  {
  }

  function KeysOf(u: User): set<UserKey> {
    {ById(u.id), ByEmail(u.email), ByToken(u.token)}
  }

  ghost function KeysOfAll(users: seq<User>): set<UserKey> {
    if users == [] then {} else KeysOfAll(users[..|users| - 1]) + KeysOf(users[|users| - 1])
  }

  /** The tables differ at most in this row. */
  ghost predicate SameBeside(table: Table, later: Table, id: nat) {
    forall i :: i != id ==> (i in table <==> i in later) && (i in table ==> later[i] == table[i])
  }

  lemma OtherMatches(table: Table, later: Table, id: nat, k: UserKey)
    requires SameBeside(table, later, id) && Found(table, k)
    requires id in table ==> !Matches(table[id], k)
    ensures Found(later, k)
  {
    var i :| i in table && Matches(table[i], k);
    assert i in later && Matches(later[i], k);
  }

  /** Changing one row changes no query but those of its old and its new keys. */
  lemma OtherQueries(table: Table, later: Table, id: nat, k: UserKey)
    requires ValidTable(table) && ValidTable(later) && SameBeside(table, later, id)
    requires id in table ==> !Matches(table[id], k)
    requires id in later ==> !Matches(later[id], k)
    ensures Query(table, k) == Query(later, k)
  {
    if Found(table, k) {
      var i :| i in table && Matches(table[i], k);
      QueryIs(table, k, i);
      QueryIs(later, k, i);
    } else {
      assert !Found(later, k) by {
        if Found(later, k) { OtherMatches(later, table, id, k); }
      }
    }
  }

  // ----- coherence -----

  predicate Live(tier: Tier, now: nat, text: string) {
    text in tier && now < tier[text].expiry
  }

  ghost predicate Fresh(tier: Tier, now: nat, table: Table, k: UserKey) {
    Live(tier, now, UserKeyText(k)) ==> tier[UserKeyText(k)].record == Query(table, k)
  }

  /** Fresh under every key but these. */
  ghost predicate FreshExcept(tier: Tier, now: nat, table: Table, dirty: set<UserKey>) {
    forall k: UserKey :: k !in dirty ==> Fresh(tier, now, table, k)
  }

  lemma StoreFreshens(tier: Tier, now: nat, table: Table, dirty: set<UserKey>, k: UserKey, expiry: nat)
    requires FreshExcept(tier, now, table, dirty)
    ensures FreshExcept(tier[UserKeyText(k) := Entry(Query(table, k), expiry)], now, table, dirty - {k})
  {
    var later := tier[UserKeyText(k) := Entry(Query(table, k), expiry)];
    forall k' | k' !in dirty - {k} ensures Fresh(later, now, table, k') {
      if k' != k && UserKeyText(k') == UserKeyText(k) {
        UserKeysDiffer(k', k);
      }
    }
  }

  /** Resetting an expiry never revives an entry. */
  lemma TouchKeepsFresh(tier: Tier, now: nat, table: Table, dirty: set<UserKey>, text: string, expiry: nat)
    requires FreshExcept(tier, now, table, dirty) && Live(tier, now, text)
    ensures FreshExcept(tier[text := tier[text].(expiry := expiry)], now, table, dirty)
  {
  }

  function LocalExpiry(now: nat, record: Option<User>): nat {
    now + if record.Some? then LOCAL_SECONDS else MISSING_LOCAL_SECONDS
  }

  function RedisExpiry(now: nat, record: Option<User>): nat {
    now + if record.Some? then REDIS_SECONDS else MISSING_REDIS_SECONDS
  }

  class Store {
    var now: nat
    var table: Table
    var local: Tier
    var redis: Tier
    /** Normalizing an access list is a parameter; it may fail. */
    const normalize: string -> Option<string>

    constructor (table: Table, normalize: string -> Option<string>)
      requires ValidTable(table)
      ensures this.table == table && this.normalize == normalize && CoherentExcept({})
    {
      this.now, this.table, this.local, this.redis, this.normalize := 0, table, map[], map[], normalize;
    }

    ghost predicate CoherentExcept(dirty: set<UserKey>)
      reads this
    {
      ValidTable(table) && FreshExcept(local, now, table, dirty) && FreshExcept(redis, now, table, dirty)
    }

    ghost predicate Coherent()
      reads this
    {
      CoherentExcept({})
    }

    method Wait(seconds: nat)
      requires Coherent()
      modifies this`now
      ensures Coherent() && now == old(now) + seconds
    {
      now := now + seconds;
      forall k: UserKey ensures Fresh(local, now, table, k) && Fresh(redis, now, table, k) {
        assert old(Fresh(local, now, table, k)) && old(Fresh(redis, now, table, k));
      }
    }

    /** The query a lookup sends to the database. */
    method Load(k: UserKey) returns (record: Option<User>)
      requires ValidTable(table)
      ensures record == Query(table, k)
      ensures record.Some? ==>
        record.value.id in table && table[record.value.id] == record.value && Has(record.value, k)
      ensures record.None? ==> forall id :: id in table ==> !Has(table[id], k)
    {
      var rest := table.Keys;
      while rest != {}
        invariant rest <= table.Keys && forall id :: id in table.Keys - rest ==> !Matches(table[id], k)
        decreases |rest|
      {
        var id :| id in rest;
        if Matches(table[id], k) {
          QueryIs(table, k, id);
          return Some(table[id]);
        }
        rest := rest - {id};
      }
      record := None;
    }

    /** A forced lookup first caps what is cached. */
    method Cap(k: UserKey, ghost dirty: set<UserKey>)
      requires CoherentExcept(dirty)
      modifies this`local, this`redis
      ensures CoherentExcept(dirty)
      ensures var t := UserKeyText(k);
        && local == (if old(Live(local, now, t)) then old(local)[t := old(local)[t].(expiry := now + TOUCH_SECONDS)]
          else old(local))
        && redis == (if old(Live(redis, now, t)) then old(redis)[t := old(redis)[t].(expiry := now + EXPIRE_SECONDS)]
          else old(redis))
    {
      var t := UserKeyText(k);
      if Live(local, now, t) {
        TouchKeepsFresh(local, now, table, dirty, t, now + TOUCH_SECONDS);
        local := local[t := local[t].(expiry := now + TOUCH_SECONDS)];
      }
      if Live(redis, now, t) {
        TouchKeepsFresh(redis, now, table, dirty, t, now + EXPIRE_SECONDS);
        redis := redis[t := redis[t].(expiry := now + EXPIRE_SECONDS)];
      }
    }

    /** One cached lookup. Forced, it caps what is cached, loads, and stores; otherwise it answers from the first tier
        that has a live entry, filling the local one. Only the entries of its key change. */
    method GetCached(k: UserKey, force: bool, ghost dirty: set<UserKey>) returns (record: Option<User>)
      requires CoherentExcept(dirty) && (k in dirty ==> force)
      modifies this`local, this`redis
      ensures CoherentExcept(dirty - {k}) && record == Query(table, k)
      ensures var t, local0, redis0 := UserKeyText(k), old(local), old(redis);
        if !force && t in local0 && now < local0[t].expiry then local == local0 && redis == redis0
        else
          && local == local0[t := Entry(record, now + 15)]
          && redis == if !force && t in redis0 && now < redis0[t].expiry then redis0
             else redis0[t := Entry(record, now + if record.Some? then 1800 else 60)]
    {
      var t := UserKeyText(k);
      if force {
        Cap(k, dirty);
      } else {
        assert Fresh(local, now, table, k) && Fresh(redis, now, table, k) && dirty - {k} == dirty;
        if Live(local, now, t) {
          return local[t].record;
        }
        if Live(redis, now, t) {
          record := redis[t].record;
          StoreFreshens(local, now, table, dirty, k, LocalExpiry(now, record));
          local := local[t := Entry(record, LocalExpiry(now, record))];
          return;
        }
      }
      record := Load(k);
      StoreFreshens(local, now, table, dirty, k, LocalExpiry(now, record));
      local := local[t := Entry(record, LocalExpiry(now, record))];
      StoreFreshens(redis, now, table, dirty, k, RedisExpiry(now, record));
      redis := redis[t := Entry(record, RedisExpiry(now, record))];
    }

    /** The key's entries are what a load now would store. */
    ghost predicate Renewed(k: UserKey)
      reads this
    {
      var t, q := UserKeyText(k), Query(table, k);
      && t in local && local[t] == Entry(q, LocalExpiry(now, q))
      && t in redis && redis[t] == Entry(q, RedisExpiry(now, q))
    }

    /** Since the tiers were `local0` and `redis0`, exactly these keys have been refreshed. */
    ghost predicate Refreshed(local0: Tier, redis0: Tier, dirty: set<UserKey>, keys: set<UserKey>)
      reads this
    {
      && CoherentExcept(dirty - keys) && (forall k :: k in keys ==> Renewed(k))
      && SameBut(local0, local, keys) && SameBut(redis0, redis, keys)
    }

    /** A forced lookup, unless the key has had one. */
    method RefreshOnce(k: UserKey, seen: bool, ghost local0: Tier, ghost redis0: Tier, ghost dirty: set<UserKey>,
        ghost keys: set<UserKey>)
      requires Refreshed(local0, redis0, dirty, keys) && (seen ==> k in keys)
      modifies this`local, this`redis
      ensures Refreshed(local0, redis0, dirty, keys + {k})
    {
      if seen {
        assert keys + {k} == keys;
      } else {
        var _ := GetCached(k, true, dirty - keys);
        assert dirty - keys - {k} == dirty - (keys + {k});
        forall d | d in keys + {k} ensures Renewed(d) {
          assert d in keys ==> old(Renewed(d));
          if d != k && UserKeyText(d) == UserKeyText(k) {
            UserKeysDiffer(d, k);
          }
        }
      }
    }

    /** One user's three lookups. */
    method RefreshUser(user: User, seen: SeenKeys, ghost local0: Tier, ghost redis0: Tier,
        ghost dirty: set<UserKey>, ghost keys: set<UserKey>)
      returns (later: SeenKeys)
      requires Refreshed(local0, redis0, dirty, keys) && SeenIn(seen, keys)
      modifies this`local, this`redis
      ensures Refreshed(local0, redis0, dirty, keys + KeysOf(user)) && SeenIn(later, keys + KeysOf(user))
    {
      RefreshOnce(ById(user.id), user.id in seen.ids, local0, redis0, dirty, keys);
      ghost var keys1 := keys + {ById(user.id)};
      RefreshOnce(ByEmail(user.email), user.email in seen.emails, local0, redis0, dirty, keys1);
      ghost var keys2 := keys1 + {ByEmail(user.email)};
      RefreshOnce(ByToken(user.token), user.token in seen.tokens, local0, redis0, dirty, keys2);
      assert keys2 + {ByToken(user.token)} == keys + KeysOf(user);
      later := With(seen, user);
      SeenNext(seen, user, keys);
    }

    /** Refreshes each id, each email and each token of the users once. */
    method RefreshUserCache(users: seq<User>, ghost dirty: set<UserKey>)
      requires CoherentExcept(dirty)
      modifies this`local, this`redis
      ensures Refreshed(old(local), old(redis), dirty, KeysOfAll(users))
    {
      var seen := SeenKeys({}, {}, {});
      assert dirty - {} == dirty;
      for i := 0 to |users|
        invariant Refreshed(old(local), old(redis), dirty, KeysOfAll(users[..i])) && SeenIn(seen, KeysOfAll(users[..i]))
      {
        seen := RefreshUser(users[i], seen, old(local), old(redis), dirty, KeysOfAll(users[..i]));
        KeysOfNext(users, i);
      }
      assert users[..|users|] == users;
    }

    // ----- the writers -----

    /** Inserts a row; a zero id is replaced by the one the database assigns. */
    method Create(user: User, nextId: nat) returns (outcome: Outcome)
      requires Coherent() && nextId != 0 && nextId !in table
      modifies this`table, this`local, this`redis
      ensures Coherent()
      ensures outcome == Done ==>
        var id := if user.id == 0 then nextId else user.id;
        && id !in old(table) && id in table && normalize(user.access) == Some(table[id].access)
        && table[id] == user.(id := id, access := table[id].access)
      ensures user.id !in old(table) && normalize(user.access).Some? ==>
        && (outcome == Done <==> !Taken(old(table), 0, user.email, user.token))
        && (outcome == EmailRegistered <==> EmailIsTaken(old(table), 0, user.email))
      ensures outcome != Done ==> table == old(table) && local == old(local) && redis == old(redis)
      ensures var row := Row(user, nextId, normalize(user.access));
        && outcome == (if normalize(user.access).None? then Invalid
          else WriteOutcome(old(table), row, row.id in old(table)))
        && (outcome == Done ==>
          table == old(table)[row.id := row] && Refreshed(old(local), old(redis), KeysOf(row), KeysOf(row)))
    {
      var access := normalize(user.access);
      if access.None? {
        return Invalid;
      }
      var row := Row(user, nextId, access);
      outcome := WriteOutcome(table, row, row.id in table);
      if outcome != Done {
        return;
      }
      RowWritten(local, redis, now, table, row);
      table := table[row.id := row];
      OneUser(row);
      RefreshUserCache([row], KeysOf(row));
    }

    /** Rewrites what an update may change; the row's other fields stay. */
    method Update(user: User) returns (outcome: Outcome)
      requires Coherent()
      modifies this`table, this`local, this`redis
      ensures Coherent()
      ensures outcome != Done ==> table == old(table) && local == old(local) && redis == old(redis)
      ensures outcome ==
        (if user.id == 0 || normalize(user.access).None? then Invalid
         else if user.id !in old(table) then Unavailable
         else WriteOutcome(old(table), Updated(old(table)[user.id], user, normalize(user.access)), false))
      ensures outcome == Done ==>
        && user.id in old(table) && user.id in table && Rewritten(old(table)[user.id], user, table[user.id])
        && normalize(user.access) == Some(table[user.id].access)
      ensures user.id in old(table) && user.id != 0 && normalize(user.access).Some? ==>
        && (outcome == Done <==> !Taken(old(table), user.id, user.email, user.token))
        && (outcome == EmailRegistered <==> EmailIsTaken(old(table), user.id, user.email))
      ensures outcome == Done ==>
        var previous := old(table)[user.id];
        var row := Updated(previous, user, normalize(user.access));
        table == old(table)[user.id := row]
        && Refreshed(old(local), old(redis), KeysOf(previous) + KeysOf(row), KeysOf(previous) + KeysOf(row))
    {
      if user.id == 0 {
        return Invalid;
      }
      var access := normalize(user.access);
      if access.None? {
        return Invalid;
      }
      if user.id !in table {
        return Unavailable;
      }
      var previous := table[user.id];
      var row := Updated(previous, user, access);
      outcome := WriteOutcome(table, row, false);
      if outcome != Done {
        return;
      }
      RowWritten(local, redis, now, table, row);
      table := table[user.id := row];
      TwoUsers(previous, user);
      RefreshUserCache([previous, user], KeysOf(previous) + KeysOf(row));
    }

    method Delete(id: nat) returns (outcome: Outcome)
      requires Coherent()
      modifies this`table, this`local, this`redis
      ensures Coherent()
      ensures outcome == if id == 0 then Invalid else if id !in old(table) then NotFound else Done
      ensures outcome != Done ==> table == old(table) && local == old(local) && redis == old(redis)
      ensures outcome == Done ==>
        table == old(table) - {id} && Refreshed(old(local), old(redis), KeysOf(old(table)[id]), KeysOf(old(table)[id]))
    {
      if id == 0 {
        return Invalid;
      }
      if id !in table {
        return NotFound;
      }
      var previous := table[id];
      RowRemoved(local, redis, now, table, id);
      table := table - {id};
      OneUser(previous);
      RefreshUserCache([previous], KeysOf(previous));
      outcome := Done;
    }

    /** Stamps the row's last login when it is five minutes old, then refreshes the keys of the copy it was given, not
        of the row. The caches stay coherent if and only if no key of the row that the copy lacks was cached. */
    method RecordLogin(user: User) returns (outcome: Outcome, lastLogin: Option<nat>)
      requires Coherent()
      modifies this`table, this`local, this`redis
      ensures outcome == if user.id == 0 then Invalid else if user.id !in old(table) then NotFound else Done
      ensures outcome == Done ==> user.id in table && lastLogin == table[user.id].lastLogin
      ensures
        if outcome == Done && LoginDue(old(table)[user.id], now) then
          var row := old(table)[user.id];
          && table == old(table)[user.id := row.(lastLogin := Some(now))]
          && Refreshed(old(local), old(redis), KeysOf(row), KeysOf(user))
          && (Coherent() <==>
                && Unseen(old(local), now, KeysOf(row) - KeysOf(user))
                && Unseen(old(redis), now, KeysOf(row) - KeysOf(user)))
        else Coherent() && table == old(table) && local == old(local) && redis == old(redis)
    {
      lastLogin := None;
      if user.id == 0 {
        return Invalid, None;
      }
      var due := user.id in table && LoginDue(table[user.id], now);
      if user.id !in table {
        return NotFound, None;
      }
      ghost var table0, local0, redis0 := table, local, redis;
      var row := table[user.id];
      if due {
        RowWritten(local, redis, now, table, row.(lastLogin := Some(now)));
        table := table[user.id := row.(lastLogin := Some(now))];
      }
      lastLogin := table[user.id].lastLogin;
      if due {
        OneUser(user);
        assert OldKeys(table0, user.id) + KeysOf(row.(lastLogin := Some(now))) == KeysOf(row);
        RefreshUserCache([user], KeysOf(row));
        CoherentIfUnseen(local0, local, now, table0, table, row, KeysOf(row), KeysOf(user));
        CoherentIfUnseen(redis0, redis, now, table0, table, row, KeysOf(row), KeysOf(user));
      }
      outcome := Done;
    }

    /** Any sequence of writes, lookups and waits answers every lookup exactly as the table alone would at that
        moment. */
    method Run(ops: seq<Op>) returns (answers: seq<Option<User>>)
      requires Coherent() && GoodIds(table, ops, normalize)
      modifies this`table, this`local, this`redis, this`now
      ensures Coherent() && table == TableAfter(old(table), ops, normalize)
      ensures Answered(old(table), ops, answers, normalize)
    {
      answers := [];
      for i := 0 to |ops|
        invariant Coherent() && table == TableAfter(old(table), ops[..i], normalize)
        invariant Answered(old(table), ops[..i], answers, normalize)
      {
        assert GoodId(table, ops[i]);
        var answer := Step(ops[i]);
        AnsweredNext(old(table), ops, i, answers, answer, normalize);
        answers := answers + [answer];
      }
      assert ops[..|ops|] == ops;
    }

    method Step(op: Op) returns (answer: Option<User>)
      requires Coherent() && GoodId(table, op)
      modifies this`table, this`local, this`redis, this`now
      ensures Coherent() && table == Applied(old(table), op, normalize)
      ensures op.LookUp? ==> answer == Query(old(table), op.key)
    {
      answer := None;
      match op
      case CreateOp(user, nextId) => var _ := Create(user, nextId);
      case UpdateOp(user) => var _ := Update(user);
      case DeleteOp(id) => var _ := Delete(id);
      case LookUp(k) =>
        answer := GetCached(k, false, {});
        assert {} - {k} == {};
      case WaitOp(seconds) => Wait(seconds);
    }
  }

  // ----- a run that ends incoherent -----

  /** A store with one user, who has never logged in. */
  method OneUserStore(user: User) returns (store: Store, row: User)
    requires user.lastLogin == None
    ensures fresh(store) && store.Coherent() && row == user.(id := 1) && store.table == map[1 := row]
    ensures store.normalize == (access => Some(access))
  {
    store := new Store(map[], access => Some(access));
    row := user.(id := 1);
    var outcome := store.Create(row, 1);
    assert !EmailTaken(map[], row) && !TokenTaken(map[], row);
  }

  lemma OnlyRow(table: Table, row: User, changed: User)
    requires table == map[1 := row] && row.id == 1 && changed.id == 1
    ensures WriteOutcome(table, changed, false) == Done && table[1 := changed] == map[1 := changed]
  {
  }

  /** The new email is then cached. */
  method ChangeEmail(store: Store, row: User, email: string)
    requires store.Coherent() && row.id == 1 && store.table == map[1 := row]
      && store.normalize(row.access) == Some(row.access)
    modifies store`table, store`local, store`redis
    ensures store.Coherent() && store.table == map[1 := row.(email := email)]
    ensures Live(store.local, store.now, UserKeyText(ByEmail(email)))
  {
    var changed := row.(email := email);
    OnlyRow(store.table, row, changed);
    var outcome := store.Update(changed);
    assert Updated(row, changed, Some(row.access)) == changed;
    assert ByEmail(email) in KeysOf(row) + KeysOf(changed);
    assert store.Renewed(ByEmail(email));
  }

  /** A login recorded with a copy that has another email leaves the cached one stale. */
  method RecordStale(store: Store, row: User, copy: User)
    requires store.Coherent() && row.id == copy.id == 1 && store.table == map[1 := row]
    requires row.lastLogin == None && row.email != copy.email
      && Live(store.local, store.now, UserKeyText(ByEmail(row.email)))
    modifies store`table, store`local, store`redis
    ensures !store.Coherent()
  {
    assert ByEmail(row.email) in KeysOf(row) - KeysOf(copy);
    var _, _ := store.RecordLogin(copy);
  }

  /** A user is created and looked up, the email is changed, and a login is recorded with the copy looked up before. */
  method StaleCopyRun(user: User, email: string) returns (store: Store)
    requires email != user.email && user.lastLogin == None
    ensures fresh(store) && !store.Coherent()
  {
    var row: User;
    store, row := OneUserStore(user);
    assert Matches(store.table[1], ById(1));
    QueryIs(store.table, ById(1), 1);
    var copy := store.GetCached(ById(1), false, {});
    assert copy == Some(row);
    assert {} - {ById(1)} == {};
    ChangeEmail(store, row, email);
    RecordStale(store, row.(email := email), copy.value);
  }

  /** What a refresh of several users has already looked up. */
  datatype SeenKeys = SeenKeys(ids: set<nat>, emails: set<string>, tokens: set<string>)

  ghost predicate SeenIn(seen: SeenKeys, keys: set<UserKey>) {
    && (forall id :: id in seen.ids ==> ById(id) in keys)
    && (forall email :: email in seen.emails ==> ByEmail(email) in keys)
    && (forall token :: token in seen.tokens ==> ByToken(token) in keys)
  }

  function With(seen: SeenKeys, user: User): SeenKeys {
    SeenKeys(seen.ids + {user.id}, seen.emails + {user.email}, seen.tokens + {user.token})
  }

  lemma SeenNext(seen: SeenKeys, user: User, keys: set<UserKey>)
    requires SeenIn(seen, keys)
    ensures SeenIn(With(seen, user), keys + KeysOf(user))
  {
  }

  lemma SeenIs(seen: SeenKeys, user: User)
    ensures With(seen, user)
      == SeenKeys(seen.ids + {user.id}, seen.emails + {user.email}, seen.tokens + {user.token})
  {
  }

  // ----- rows -----

  function Row(user: User, nextId: nat, access: Option<string>): User {
    user.(id := if user.id == 0 then nextId else user.id, access := if access.Some? then access.value else "")
  }

  function Updated(previous: User, user: User, access: Option<string>): User {
    previous.(email := user.email, token := user.token, profile := user.profile,
              access := if access.Some? then access.value else "")
  }

  /** An update writes the email, the token, the access list and the profile, and leaves the rest of the row. */
  ghost predicate Rewritten(previous: User, user: User, row: User) {
    && row.email == user.email && row.token == user.token && row.profile == user.profile
    && row.id == previous.id && row.fixed == previous.fixed && row.lastLogin == previous.lastLogin
  }

  /** Another row than this has the email. */
  ghost predicate EmailIsTaken(table: Table, id: nat, email: string) {
    exists other :: other in table && other != id && table[other].email == email
  }

  ghost predicate Taken(table: Table, id: nat, email: string, token: string) {
    EmailIsTaken(table, id, email) || exists other :: other in table && other != id && table[other].token == token
  }

  predicate EmailTaken(table: Table, row: User) {
    exists id :: id in table && id != row.id && table[id].email == row.email
  }

  predicate TokenTaken(table: Table, row: User) {
    exists id :: id in table && id != row.id && table[id].token == row.token
  }

  /** What the unique indexes make of writing a row. */
  function WriteOutcome(table: Table, row: User, idTaken: bool): Outcome {
    if idTaken then Unavailable
    else if EmailTaken(table, row) then EmailRegistered
    else if TokenTaken(table, row) then Unavailable
    else Done
  }

  function OldKeys(table: Table, id: nat): set<UserKey> {
    if id in table then KeysOf(table[id]) else {}
  }

  lemma KeysAreMatches(u: User, k: UserKey)
    ensures Matches(u, k) <==> k in KeysOf(u)
  {
  }

  lemma FreshBeside(tier: Tier, now: nat, table: Table, later: Table, id: nat)
    requires ValidTable(table) && ValidTable(later) && SameBeside(table, later, id) && FreshExcept(tier, now, table, {})
    ensures FreshExcept(tier, now, later, OldKeys(table, id) + OldKeys(later, id))
  {
    forall k: UserKey | k !in OldKeys(table, id) + OldKeys(later, id) ensures Fresh(tier, now, later, k) {
      FreshStays(tier, now, table, later, id, k);
    }
  }

  lemma FreshStays(tier: Tier, now: nat, table: Table, later: Table, id: nat, k: UserKey)
    requires ValidTable(table) && ValidTable(later) && SameBeside(table, later, id) && FreshExcept(tier, now, table, {})
    requires k !in OldKeys(table, id) && k !in OldKeys(later, id)
    ensures Fresh(tier, now, later, k)
  {
    assert Fresh(tier, now, table, k);
    if id in table { KeysAreMatches(table[id], k); }
    if id in later { KeysAreMatches(later[id], k); }
    OtherQueries(table, later, id, k);
  }

  /** Writing a row that the indexes accept leaves only its old and its new keys stale. */
  lemma RowWritten(local: Tier, redis: Tier, now: nat, table: Table, row: User)
    requires ValidTable(table) && row.id != 0 && !EmailTaken(table, row) && !TokenTaken(table, row)
    requires FreshExcept(local, now, table, {}) && FreshExcept(redis, now, table, {})
    ensures var later := table[row.id := row];
      && ValidTable(later)
      && FreshExcept(local, now, later, OldKeys(table, row.id) + KeysOf(row))
      && FreshExcept(redis, now, later, OldKeys(table, row.id) + KeysOf(row))
  {
    var later := table[row.id := row];
    assert ValidTable(later);
    FreshBeside(local, now, table, later, row.id);
    FreshBeside(redis, now, table, later, row.id);
  }

  lemma RowRemoved(local: Tier, redis: Tier, now: nat, table: Table, id: nat)
    requires ValidTable(table) && id in table
    requires FreshExcept(local, now, table, {}) && FreshExcept(redis, now, table, {})
    ensures var later := table - {id};
      && ValidTable(later)
      && FreshExcept(local, now, later, KeysOf(table[id])) && FreshExcept(redis, now, later, KeysOf(table[id]))
  {
    var later := table - {id};
    FreshBeside(local, now, table, later, id);
    FreshBeside(redis, now, table, later, id);
    assert OldKeys(table, id) + OldKeys(later, id) == KeysOf(table[id]);
  }

  predicate LoginDue(row: User, now: nat) {
    row.lastLogin.None? || row.lastLogin.value + LOGIN_SECONDS < now
  }

  /** A login is due after five minutes; a user who never logged in is due at once. */
  lemma LoginDueIs(row: User, now: nat)
    ensures !LoginDue(row, now) <==> row.lastLogin.Some? && now <= row.lastLogin.value + 5 * 60
  {
  }

  /** None of these keys has a live entry. */
  ghost predicate Unseen(tier: Tier, now: nat, keys: set<UserKey>) {
    forall k :: k in keys ==> !Live(tier, now, UserKeyText(k))
  }

  lemma SameEntry(a: Tier, b: Tier, keys: set<UserKey>, k: UserKey)
    requires SameBut(a, b, keys) && k !in keys
    ensures var t := UserKeyText(k); (t in a <==> t in b) && (t in a ==> a[t] == b[t])
  {
    forall d | d in keys ensures UserKeyText(d) != UserKeyText(k) {
      if UserKeyText(d) == UserKeyText(k) { UserKeysDiffer(d, k); }
    }
  }

  /** A stamped row whose keys were not all refreshed: the others are fresh exactly when they were not cached. */
  lemma CoherentIfUnseen(tier: Tier, later: Tier, now: nat, table: Table, table': Table, row: User,
      dirty: set<UserKey>, keys: set<UserKey>)
    requires ValidTable(table) && ValidTable(table') && row.id in table && table[row.id] == row && LoginDue(row, now)
    requires table' == table[row.id := row.(lastLogin := Some(now))] && dirty == KeysOf(row)
    requires FreshExcept(tier, now, table, {}) && FreshExcept(later, now, table', dirty - keys)
      && SameBut(tier, later, keys)
    ensures FreshExcept(later, now, table', {}) <==> Unseen(tier, now, dirty - keys)
  {
    forall k | k in dirty - keys ensures Fresh(later, now, table', k) <==> !Live(tier, now, UserKeyText(k)) {
      SameEntry(tier, later, keys, k);
      assert Fresh(tier, now, table, k);
      KeysAreMatches(row, k);
      QueryIs(table, k, row.id);
      KeysAreMatches(table'[row.id], k);
      QueryIs(table', k, row.id);
    }
  }

  lemma OneUser(u: User)
    ensures KeysOfAll([u]) == KeysOf(u)
  {
    assert [u][..0] == [];
  }

  lemma TwoUsers(u: User, v: User)
    ensures KeysOfAll([u, v]) == KeysOf(u) + KeysOf(v)
  {
    assert [u, v][..1] == [u];
    OneUser(u);
  }

  // ----- the table without caches -----

  datatype Op =
    | CreateOp(user: User, nextId: nat)
    | UpdateOp(user: User)
    | DeleteOp(id: nat)
    | LookUp(key: UserKey)
    | WaitOp(seconds: nat)

  /** The database assigns ids that are not in use. */
  predicate GoodId(table: Table, op: Op) {
    op.CreateOp? ==> op.nextId != 0 && op.nextId !in table
  }

  function Applied(table: Table, op: Op, normalize: string -> Option<string>): Table {
    match op
    case CreateOp(user, nextId) =>
      var row := Row(user, nextId, normalize(user.access));
      var ok := normalize(user.access).Some? && WriteOutcome(table, row, row.id in table) == Done;
      if ok then table[row.id := row] else table
    case UpdateOp(user) =>
      if user.id == 0 || normalize(user.access).None? || user.id !in table then table
      else
        var row := Updated(table[user.id], user, normalize(user.access));
        if WriteOutcome(table, row, false) == Done then table[user.id := row] else table
    case DeleteOp(id) => if id == 0 then table else table - {id}
    case _ => table
  }

  function TableAfter(table: Table, ops: seq<Op>, normalize: string -> Option<string>): Table {
    if ops == [] then table else Applied(TableAfter(table, ops[..|ops| - 1], normalize), ops[|ops| - 1], normalize)
  }

  ghost predicate GoodIds(table: Table, ops: seq<Op>, normalize: string -> Option<string>) {
    forall i :: 0 <= i < |ops| ==> GoodId(TableAfter(table, ops[..i], normalize), ops[i])
  }

  /** Every lookup was answered by a query of the table at that moment. */
  ghost predicate Answered(table: Table, ops: seq<Op>, answers: seq<Option<User>>,
      normalize: string -> Option<string>)
  {
    |answers| == |ops| && forall i :: 0 <= i < |ops| && ops[i].LookUp? ==>
      answers[i] == Query(TableAfter(table, ops[..i], normalize), ops[i].key)
  }

  lemma AnsweredNext(table: Table, ops: seq<Op>, i: nat, answers: seq<Option<User>>, answer: Option<User>,
                     normalize: string -> Option<string>)
    requires i < |ops| && Answered(table, ops[..i], answers, normalize)
    requires ops[i].LookUp? ==> answer == Query(TableAfter(table, ops[..i], normalize), ops[i].key)
    ensures Answered(table, ops[..i + 1], answers + [answer], normalize)
    ensures TableAfter(table, ops[..i + 1], normalize)
      == Applied(TableAfter(table, ops[..i], normalize), ops[i], normalize)
  {
    var longer := ops[..i + 1];
    assert longer[..i] == ops[..i];
    forall j | 0 <= j < |longer| && longer[j].LookUp?
      ensures (answers + [answer])[j] == Query(TableAfter(table, longer[..j], normalize), longer[j].key)
    {
      assert longer[..j] == ops[..i][..j] || j == i;
      assert j < i ==> ops[..i][j] == longer[j];
    }
  }

  lemma KeysOfNext(users: seq<User>, i: nat)
    requires i < |users|
    ensures KeysOfAll(users[..i + 1]) == KeysOfAll(users[..i]) + KeysOf(users[i])
  {
    assert users[..i + 1][..i] == users[..i];
  }

  /** The tiers agree on every key text but those of these keys. */
  ghost predicate SameBut(a: Tier, b: Tier, keys: set<UserKey>) {
    forall t: string :: (forall k :: k in keys ==> UserKeyText(k) != t) ==>
      (t in a <==> t in b) && (t in a ==> a[t] == b[t])
  }
}
