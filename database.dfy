/** The session/persistent key-value database kept as one item of the
    document store: `persistent` maps keys to values, `session` maps each
    session id to its own key-value object. Every operation reloads the
    item, changes it and writes it back under the store's lock. */
module KeyValueDatabase {
  import opened Wrappers
  import opened JsonValue
  import opened DocumentStore
  import RandomId

  const CreatedAt := "_createdAt"
  const NoDatabaseError := "There is no database!"
  const InvalidDatabaseError := "Database is invalid!"
  const ZeroLengthError := "Session id length can not be 0!"
  const DefaultIdLength := 32

  /** The stored item: either an object with both scopes, or anything else,
      only its truthiness mattering. */
  datatype DbValue =
    | Db(persistent: map<string, Json>, session: map<string, map<string, Json>>)
    | Other(truthy: bool)

  function InitialDb(): DbValue {
    Db(map[], map[])
  }

  /** `getDatabase`, given what the store returns for the item. */
  function Check(item: Result<Option<DbValue>>): (r: Result<DbValue>)
    ensures r.Ok? ==> r.value.Db? && item == Ok(Some(r.value))
    ensures item.Ok? && item.value.Some? && item.value.value.Db? ==> r == Ok(item.value.value)
  {
    match item
    case Err(e) => Err(e)
    case Ok(None) => Err(NoDatabaseError)
    case Ok(Some(Other(truthy))) => if truthy then Err(InvalidDatabaseError) else Err(NoDatabaseError)
    case Ok(Some(db)) => Ok(db)
  }

  /** The item as read from the store's state. */
  function Load(destroyed: bool, doc: Option<DocFile<DbValue>>, filename: string, name: string): Result<DbValue> {
    if destroyed then Err(DestroyedError) else Check(GetFromDoc(doc, filename, name))
  }

  /** The document once the item is written, when writing succeeds. */
  function Written(doc: Option<DocFile<DbValue>>, filename: string, name: string, v: DbValue): Option<DocFile<DbValue>> {
    var d := SetInDoc(doc, filename, name, v);
    if d.Ok? then Some(d.value) else doc
  }

  /** What is written is what the next load sees. */
  lemma LoadAfterWrite(doc: Option<DocFile<DbValue>>, filename: string, name: string, v: DbValue)
    requires v.Db? && Decode(doc, filename).Ok?
    ensures Load(false, Written(doc, filename, name, v), filename, name) == Ok(v)
  {
  }

  /** A successful load means the document decodes, so the write succeeds. */
  lemma LoadedMeansWritable(destroyed: bool, doc: Option<DocFile<DbValue>>, filename: string, name: string)
    requires Load(destroyed, doc, filename, name).Ok?
    ensures !destroyed && Decode(doc, filename).Ok?
  {
  }

  // ----- the item transformations ----------------------------------------

  predicate TruthyAt(o: map<string, Json>, key: string) {
    key in o && Truthy(o[key])
  }

  /** `database.session[id]`, absent as the empty object. */
  function SessionOf(session: map<string, map<string, Json>>, id: string): map<string, Json> {
    if id in session then session[id] else map[]
  }

  /** `ensureDateOfCreation`: `_createdAt` is set to `now` where it is missing
      or falsy, in the persistent scope and in the session's object. */
  function WithDateOfCreation(persistent: map<string, Json>, session: map<string, map<string, Json>>,
                              id: string, now: int): DbValue {
    Db(if TruthyAt(persistent, CreatedAt) then persistent else persistent[CreatedAt := Num(now)],
       if id in session && TruthyAt(session[id], CreatedAt) then session
       else session[id := SessionOf(session, id)[CreatedAt := Num(now)]])
  }

  /** The item `ensureDatabase` leaves behind: a valid item is kept, anything
      else is replaced by the initial one. */
  function Ensured(item: Result<DbValue>): (r: DbValue)
    ensures r.Db?
    ensures item.Ok? && item.value.Db? ==> r == item.value
  {
    if item.Ok? && item.value.Db? then item.value else InitialDb()
  }

  /** `init`'s registration of a new session as `{_id: id}`. */
  function WithSessionStarted(session: map<string, map<string, Json>>, id: string): map<string, map<string, Json>> {
    session[id := map["_id" := Str(id)]]
  }

  /** `setSessionValue`: the session's object spread with one key. */
  function SetSession(session: map<string, map<string, Json>>, id: string, key: string, v: Option<Json>): map<string, map<string, Json>> {
    session[id := Put(SessionOf(session, id), key, v)]
  }

  /** `removeSessionKey`: nothing happens when the session has no object. */
  function RemoveSession(session: map<string, map<string, Json>>, id: string, key: string): map<string, map<string, Json>> {
    if id in session then session[id := session[id] - {key}] else session
  }

  /** `getSessionValue`: a falsy key returns the session's whole object. */
  function GetSession(session: map<string, map<string, Json>>, id: string, key: string): Option<Json> {
    if key != "" then (if id in session then Get(session[id], key) else None)
    else if id in session then Some(Obj(session[id])) else None
  }

  /** `getPersistentValue`: a falsy key returns the whole scope. */
  function GetPersistent(persistent: map<string, Json>, key: string): Option<Json> {
    if key != "" then Get(persistent, key) else Some(Obj(persistent))
  }

  lemma SessionSetThenGet(session: map<string, map<string, Json>>, id: string, key: string, v: Option<Json>,
                          otherId: string, otherKey: string)
    requires key != ""
    ensures GetSession(SetSession(session, id, key, v), id, key) == v
    ensures otherKey != key && otherKey != "" ==>
      GetSession(SetSession(session, id, key, v), id, otherKey) == GetSession(session, id, otherKey)
    ensures otherId != id ==>
      GetSession(SetSession(session, id, key, v), otherId, otherKey) == GetSession(session, otherId, otherKey)
  {
  }

  lemma PersistentSetThenGet(persistent: map<string, Json>, key: string, v: Option<Json>, otherKey: string)
    requires key != ""
    ensures GetPersistent(Put(persistent, key, v), key) == v
    ensures otherKey != key && otherKey != "" ==>
      GetPersistent(Put(persistent, key, v), otherKey) == GetPersistent(persistent, otherKey)
  {
  }

  lemma SessionRemoveOnlyThatKey(session: map<string, map<string, Json>>, id: string, key: string,
                                 otherId: string, otherKey: string)
    requires key != "" && otherKey != ""
    ensures GetSession(RemoveSession(session, id, key), id, key) == None
    ensures (otherId != id || otherKey != key) ==>
      GetSession(RemoveSession(session, id, key), otherId, otherKey) == GetSession(session, otherId, otherKey)
  {
  }

  /** Destroying a session removes that session's object and nothing else. */
  lemma DestroyOnlyCurrent(session: map<string, map<string, Json>>, id: string, otherId: string, key: string)
    ensures GetSession(session - {id}, id, key) == None
    ensures otherId != id ==> GetSession(session - {id}, otherId, key) == GetSession(session, otherId, key)
  {
  }

  /** A session `init` starts holds exactly its `_id` and `_createdAt`;
      every other session is kept, and the persistent scope only gains
      `_createdAt` where it was missing or falsy. */
  lemma StartedSessionShape(persistent: map<string, Json>, session: map<string, map<string, Json>>,
                            id: string, now: int)
    ensures var n := WithDateOfCreation(persistent, WithSessionStarted(session, id), id, now);
      && n.session[id] == map["_id" := Str(id), CreatedAt := Num(now)]
      && n.session.Keys == session.Keys + {id}
      && (forall other :: other in session && other != id ==> n.session[other] == session[other])
      && n.persistent.Keys == persistent.Keys + {CreatedAt}
      && (forall k :: k in persistent && k != CreatedAt ==> n.persistent[k] == persistent[k])
  {
    var started := WithSessionStarted(session, id);
    assert !TruthyAt(started[id], CreatedAt) by {
      assert CreatedAt != "_id";
    }
  }

  /** After `clearPersistent`, the persistent scope holds only `_createdAt`. */
  lemma ClearedPersistentHoldsOnlyDate(session: map<string, map<string, Json>>, id: string, now: int)
    requires now != 0
    ensures WithDateOfCreation(map[], session, id, now).persistent == map[CreatedAt := Num(now)]
  {
  }

  /** `_createdAt` changes only where it was missing or falsy, and is truthy
      afterwards whenever the clock reading is not zero; no other key or
      session changes. */
  lemma DateOfCreationOnlyWhereFalsy(persistent: map<string, Json>, session: map<string, map<string, Json>>,
                                     id: string, now: int, otherId: string, key: string)
    ensures var d := WithDateOfCreation(persistent, session, id, now);
      && (TruthyAt(persistent, CreatedAt) ==> d.persistent == persistent)
      && (!TruthyAt(persistent, CreatedAt) ==> d.persistent == persistent[CreatedAt := Num(now)])
      && (id in session && TruthyAt(session[id], CreatedAt) ==> d.session == session)
      && (now != 0 ==> TruthyAt(d.persistent, CreatedAt) && id in d.session && TruthyAt(d.session[id], CreatedAt))
      && (otherId != id ==> GetSession(d.session, otherId, key) == GetSession(session, otherId, key))
      && (key != CreatedAt ==> GetSession(d.session, id, key) == GetSession(session, id, key) || key == "")
  {
  }

  /** The first draw that is a non-empty id not used by any session. */
  predicate IsFirstFresh(ids: nat -> string, used: set<string>, k: nat) {
    && ids(k) != "" && ids(k) !in used
    && forall j :: 0 <= j < k ==> ids(j) == "" || ids(j) in used
  }

  /** `generateSessionId`'s loop: `ids(k)` is the k-th `getRandomId`
      result. */
  method PickSessionId(used: set<string>, ids: nat -> string) returns (id: string)
    requires exists k: nat :: ids(k) != "" && ids(k) !in used
    ensures exists k: nat :: IsFirstFresh(ids, used, k) && id == ids(k)
  {
    ghost var bound: nat :| ids(bound) != "" && ids(bound) !in used;
    id := "";
    var k: nat := 0;
    while id in used || id == ""
      invariant k <= bound + 1
      invariant k == 0 ==> id == ""
      invariant k > 0 ==> id == ids(k - 1)
      invariant forall j :: 0 <= j < k - 1 ==> ids(j) == "" || ids(j) in used
      decreases bound + 1 - k
    {
      id := ids(k);
      k := k + 1;
    }
    assert IsFirstFresh(ids, used, k - 1);
  }

  /** Draws that are never empty and never repeat. */
  ghost predicate NeverRepeats(ids: nat -> string) {
    && (forall k: nat :: ids(k) != "")
    && (forall i: nat, j: nat :: i != j ==> ids(i) != ids(j))
  }

  ghost function Drawn(ids: nat -> string, n: nat): set<string> {
    set k: nat | k < n :: ids(k)
  }

  lemma {:induction false} DrawnCount(ids: nat -> string, n: nat)
    requires NeverRepeats(ids)
    ensures |Drawn(ids, n)| == n
  {
    if n > 0 {
      DrawnCount(ids, n - 1);
      assert Drawn(ids, n) == Drawn(ids, n - 1) + {ids(n - 1)};
      assert ids(n - 1) !in Drawn(ids, n - 1);
    }
  }

  /** With a negative length every `getRandomId` draw is empty, so the
      `while (... || !id)` loop of `generateSessionId` never ends: the
      `!idLength` guard lets such a length through. */
  lemma NegativeLengthDrawsOnlyEmpty(ids: nat -> string, idLength: int, used: set<string>)
    requires idLength < 0
    requires forall k: nat :: RandomId.IsRandomId(ids(k), idLength)
    ensures forall k: nat :: ids(k) == "" && !(ids(k) != "" && ids(k) !in used)
  {
  }

  /** Draws that never repeat avoid any finite set of ids sooner or later. */
  lemma NeverRepeatingDrawsEscape(ids: nat -> string, used: set<string>)
    requires NeverRepeats(ids)
    ensures exists k: nat :: ids(k) != "" && ids(k) !in used
  {
    DrawnCount(ids, |used| + 1);
    if forall k: nat :: k < |used| + 1 ==> ids(k) in used {
      assert Drawn(ids, |used| + 1) <= used;
      SubsetSize(Drawn(ids, |used| + 1), used);
      assert false;
    }
    var k: nat :| k < |used| + 1 && ids(k) !in used;
  }

  lemma SubsetSize(a: set<string>, b: set<string>)
    requires a <= b
    ensures |a| <= |b|
  {
    assert b == a + (b - a);
    assert a * (b - a) == {};
  }

  // ----- the database ----------------------------------------------------

  class Database {
    var databaseName: string
    var sessionId: string
    var initialised: bool
    const localStorage: DocumentStorage<DbValue>

    constructor (dirname: string, doc: Option<DocFile<DbValue>>, lock: Option<string>, clientPaths: set<string>)
      ensures databaseName == "" && sessionId == "" && !initialised
      ensures fresh(localStorage) && localStorage.dirname == dirname && localStorage.destroyed
      ensures localStorage.doc == doc && localStorage.lock == lock && localStorage.clientPaths == clientPaths
    {
      databaseName := "";
      sessionId := "";
      initialised := false;
      localStorage := new DocumentStorage(dirname, doc, lock, clientPaths);
    }

    /** The item as the next `getDatabase` would see it. */
    function Stored(): Result<DbValue>
      reads this, localStorage
    {
      Load(localStorage.destroyed, localStorage.doc, localStorage.Filename(), databaseName)
    }

    /** The store's state apart from its document: the session, the lock
        and the client directories. */
    twostate predicate StoreSessionUnchanged()
      reads this, localStorage
    {
      && localStorage.destroyed == old(localStorage.destroyed)
      && localStorage.sessionId == old(localStorage.sessionId)
      && localStorage.clientPaths == old(localStorage.clientPaths)
      && localStorage.lock == None
    }

    method IsValidDatabase() returns (r: Result<bool>)
      requires localStorage.lock.None?
      modifies localStorage
      ensures localStorage.doc == old(localStorage.doc) && StoreSessionUnchanged()
      ensures localStorage.destroyed ==> r == Err(DestroyedError)
      ensures !localStorage.destroyed ==>
        var item := GetFromDoc(localStorage.doc, localStorage.Filename(), databaseName);
        && (item.Err? ==> r == Err(item.error))
        && (item.Ok? ==> r == Ok(item.value.Some? && item.value.value.Db?))
    {
      var item := localStorage.GetItem(databaseName);
      if item.Err? {
        return Err(item.error);
      }
      r := Ok(item.value.Some? && item.value.value.Db?);
    }

    method GetDatabase() returns (r: Result<DbValue>)
      requires localStorage.lock.None?
      modifies localStorage
      ensures localStorage.doc == old(localStorage.doc) && StoreSessionUnchanged()
      ensures r == Stored()
    {
      var item := localStorage.GetItem(databaseName);
      if item.Err? {
        return Err(item.error);
      }
      if item.value.None? || (item.value.value.Other? && !item.value.value.truthy) {
        return Err(NoDatabaseError);
      }
      var valid := IsValidDatabase();
      if valid != Ok(true) {
        return Err(InvalidDatabaseError);
      }
      r := Ok(item.value.value);
    }

    method UpdateDatabase(db: DbValue) returns (r: Result<()>)
      requires localStorage.lock.None?
      modifies localStorage
      ensures StoreSessionUnchanged()
      ensures localStorage.destroyed ==> r == Err(DestroyedError) && localStorage.doc == old(localStorage.doc)
      ensures !localStorage.destroyed ==>
        && localStorage.doc == Written(old(localStorage.doc), localStorage.Filename(), databaseName, db)
        && var d := SetInDoc(old(localStorage.doc), localStorage.Filename(), databaseName, db);
           && (d.Ok? ==> r == Ok(()))
           && (d.Err? ==> r == Err(d.error))
    {
      r := localStorage.SetItem(databaseName, db);
    }

    /** `ensureDatabase`: an unreadable-as-valid item is replaced by the
        initial one. */
    method EnsureDatabase() returns (r: Result<()>)
      requires localStorage.lock.None?
      modifies localStorage
      ensures StoreSessionUnchanged()
      ensures r.Ok? ==> Stored().Ok?
      ensures r.Ok? && !old(Stored()).Ok? ==> Stored() == Ok(InitialDb())
      ensures old(Stored()).Ok? ==> r.Ok? && localStorage.doc == old(localStorage.doc)
      ensures r.Ok? ==> Stored() == Ok(Ensured(old(Stored())))
    {
      var valid := IsValidDatabase();
      if valid.Err? {
        return Err(valid.error);
      }
      if !valid.value {
        r := UpdateDatabase(InitialDb());
        if r.Ok? {
          LoadAfterWrite(old(localStorage.doc), localStorage.Filename(), databaseName, InitialDb());
        }
        return;
      }
      r := Ok(());
    }

    /** `ensureDateOfCreation` with `now` as the clock reading. */
    method EnsureDateOfCreation(now: int) returns (r: Result<()>)
      requires localStorage.lock.None?
      modifies localStorage
      ensures StoreSessionUnchanged()
      ensures old(Stored()).Err? ==> r == Err(old(Stored()).error) && localStorage.doc == old(localStorage.doc)
      ensures old(Stored()).Ok? ==>
        var db := old(Stored()).value;
        r == Ok(()) && Stored() == Ok(WithDateOfCreation(db.persistent, db.session, sessionId, now))
    {
      var db := GetDatabase();
      if db.Err? {
        return Err(db.error);
      }
      var next := WithDateOfCreation(db.value.persistent, db.value.session, sessionId, now);
      LoadedMeansWritable(localStorage.destroyed, localStorage.doc, localStorage.Filename(), databaseName);
      LoadAfterWrite(localStorage.doc, localStorage.Filename(), databaseName, next);
      r := UpdateDatabase(next);
    }

    /** `generateSessionId(idLength)`; `ids(k)` is the k-th call of
        `getRandomId(idLength)`. */
    method GenerateSessionId(idLength: int, ids: nat -> string) returns (r: Result<string>)
      requires localStorage.lock.None?
      requires forall k: nat :: RandomId.IsRandomId(ids(k), idLength)
      requires Stored().Ok? ==> exists k: nat :: ids(k) != "" && ids(k) !in Stored().value.session.Keys
      modifies localStorage
      ensures localStorage.doc == old(localStorage.doc) && (idLength != 0 ==> StoreSessionUnchanged())
      ensures idLength == 0 ==> r == Err(ZeroLengthError)
      ensures idLength != 0 && Stored().Err? ==> r == Err(Stored().error)
      ensures idLength != 0 && Stored().Ok? ==>
        r.Ok? && exists k: nat :: IsFirstFresh(ids, Stored().value.session.Keys, k) && r.value == ids(k)
      ensures r.Ok? ==> |r.value| == idLength && r.value !in Stored().value.session
    {
      if idLength == 0 {
        return Err(ZeroLengthError);
      }
      var db := GetDatabase();
      if db.Err? {
        return Err(db.error);
      }
      var used := db.value.session.Keys;
      var id := PickSessionId(used, ids);
      r := Ok(id);
    }

    /** `setSessionValue`; `None` is `undefined`, absent once written. */
    method SetSessionValue(key: string, value: Option<Json>) returns (r: Result<()>)
      requires localStorage.lock.None?
      modifies localStorage
      ensures StoreSessionUnchanged()
      ensures old(Stored()).Err? ==> r == Err(old(Stored()).error) && localStorage.doc == old(localStorage.doc)
      ensures old(Stored()).Ok? ==>
        var db := old(Stored()).value;
        r == Ok(()) && Stored() == Ok(db.(session := SetSession(db.session, sessionId, key, value)))
    {
      var db := GetDatabase();
      if db.Err? {
        return Err(db.error);
      }
      var next := db.value.(session := SetSession(db.value.session, sessionId, key, value));
      LoadedMeansWritable(localStorage.destroyed, localStorage.doc, localStorage.Filename(), databaseName);
      LoadAfterWrite(localStorage.doc, localStorage.Filename(), databaseName, next);
      r := UpdateDatabase(next);
    }

    method SetPersistentValue(key: string, value: Option<Json>) returns (r: Result<()>)
      requires localStorage.lock.None?
      modifies localStorage
      ensures StoreSessionUnchanged()
      ensures old(Stored()).Err? ==> r == Err(old(Stored()).error) && localStorage.doc == old(localStorage.doc)
      ensures old(Stored()).Ok? ==>
        var db := old(Stored()).value;
        r == Ok(()) && Stored() == Ok(db.(persistent := Put(db.persistent, key, value)))
    {
      var db := GetDatabase();
      if db.Err? {
        return Err(db.error);
      }
      var next := db.value.(persistent := Put(db.value.persistent, key, value));
      LoadedMeansWritable(localStorage.destroyed, localStorage.doc, localStorage.Filename(), databaseName);
      LoadAfterWrite(localStorage.doc, localStorage.Filename(), databaseName, next);
      r := UpdateDatabase(next);
    }

    /** `getSessionValue(key)`, the empty key standing for an omitted one. */
    method GetSessionValue(key: string) returns (r: Result<Option<Json>>)
      requires localStorage.lock.None?
      modifies localStorage
      ensures localStorage.doc == old(localStorage.doc) && StoreSessionUnchanged()
      ensures Stored().Err? ==> r == Err(Stored().error)
      ensures Stored().Ok? ==> r == Ok(GetSession(Stored().value.session, sessionId, key))
    {
      var db := GetDatabase();
      if db.Err? {
        return Err(db.error);
      }
      r := Ok(GetSession(db.value.session, sessionId, key));
    }

    method GetPersistentValue(key: string) returns (r: Result<Option<Json>>)
      requires localStorage.lock.None?
      modifies localStorage
      ensures localStorage.doc == old(localStorage.doc) && StoreSessionUnchanged()
      ensures Stored().Err? ==> r == Err(Stored().error)
      ensures Stored().Ok? ==> r == Ok(GetPersistent(Stored().value.persistent, key))
    {
      var db := GetDatabase();
      if db.Err? {
        return Err(db.error);
      }
      r := Ok(GetPersistent(db.value.persistent, key));
    }

    method RemoveSessionKey(key: string) returns (r: Result<()>)
      requires localStorage.lock.None?
      modifies localStorage
      ensures StoreSessionUnchanged()
      ensures old(Stored()).Err? ==> r == Err(old(Stored()).error) && localStorage.doc == old(localStorage.doc)
      ensures old(Stored()).Ok? ==>
        var db := old(Stored()).value;
        r == Ok(()) && Stored() == Ok(db.(session := RemoveSession(db.session, sessionId, key)))
    {
      var db := GetDatabase();
      if db.Err? {
        return Err(db.error);
      }
      var next := db.value.(session := RemoveSession(db.value.session, sessionId, key));
      LoadedMeansWritable(localStorage.destroyed, localStorage.doc, localStorage.Filename(), databaseName);
      LoadAfterWrite(localStorage.doc, localStorage.Filename(), databaseName, next);
      r := UpdateDatabase(next);
    }

    method RemovePersistentKey(key: string) returns (r: Result<()>)
      requires localStorage.lock.None?
      modifies localStorage
      ensures StoreSessionUnchanged()
      ensures old(Stored()).Err? ==> r == Err(old(Stored()).error) && localStorage.doc == old(localStorage.doc)
      ensures old(Stored()).Ok? ==>
        var db := old(Stored()).value;
        r == Ok(()) && Stored() == Ok(db.(persistent := db.persistent - {key}))
    {
      var db := GetDatabase();
      if db.Err? {
        return Err(db.error);
      }
      var next := db.value.(persistent := db.value.persistent - {key});
      LoadedMeansWritable(localStorage.destroyed, localStorage.doc, localStorage.Filename(), databaseName);
      LoadAfterWrite(localStorage.doc, localStorage.Filename(), databaseName, next);
      r := UpdateDatabase(next);
    }

    /** `init(name)`: once only. The store's session starts, the item is
        made valid, and a new session id is drawn and registered with its
        `_id` before the creation dates are ensured. */
    method Init(name: string, startDate: int, clock: nat -> int, ids: nat -> string, now: int) returns (r: Result<()>)
      requires localStorage.lock.None?
      requires NeverRepeats(ids)
      requires forall k: nat :: RandomId.IsRandomId(ids(k), DefaultIdLength)
      modifies this, localStorage
      ensures old(initialised) ==> r == Ok(()) && unchanged(this) && unchanged(localStorage)
      ensures !old(initialised) ==> initialised && localStorage.lock == None
      ensures !old(initialised) && r.Ok? ==>
        && databaseName == name && !localStorage.destroyed && sessionId != "" && Stored().Ok?
        && (old(sessionId) != "" ==> sessionId == old(sessionId))
        && (old(sessionId) == "" ==>
              && sessionId in Stored().value.session && |sessionId| == DefaultIdLength
              && Get(Stored().value.session[sessionId], "_id") == Some(Str(sessionId))
              && (now != 0 ==> TruthyAt(Stored().value.persistent, CreatedAt)
                               && TruthyAt(Stored().value.session[sessionId], CreatedAt)))
      ensures !old(initialised) && r.Ok? ==>
        var e := Ensured(Load(false, if old(localStorage.doc).None? then Some(Text("")) else old(localStorage.doc),
                              localStorage.Filename(), name));
        && (old(sessionId) != "" ==> Stored() == Ok(e))
        && (old(sessionId) == "" ==>
              Stored() == Ok(WithDateOfCreation(e.persistent, WithSessionStarted(e.session, sessionId), sessionId, now)))
    {
      if initialised {
        return Ok(());
      }
      initialised := true;
      var started := localStorage.Init(startDate, clock);
      if started.Err? {
        return Err(started.error);
      }
      databaseName := name;
      r := EnsureDatabase();
      if r.Err? {
        return;
      }
      if sessionId != "" {
        return Ok(());
      }
      NeverRepeatingDrawsEscape(ids, Stored().value.session.Keys);
      var id := GenerateSessionId(DefaultIdLength, ids);
      sessionId := id.value;
      r := StartSession(now);
    }

    /** The end of `init`: `{_id}` for the new session, then the dates. */
    method StartSession(now: int) returns (r: Result<()>)
      requires localStorage.lock.None?
      requires Stored().Ok? && sessionId !in Stored().value.session
      modifies localStorage
      ensures localStorage.lock == None && localStorage.destroyed == old(localStorage.destroyed)
      ensures r.Ok?
      ensures Stored().Ok? && sessionId in Stored().value.session
      ensures Get(Stored().value.session[sessionId], "_id") == Some(Str(sessionId))
      ensures now != 0 ==> TruthyAt(Stored().value.persistent, CreatedAt)
                           && TruthyAt(Stored().value.session[sessionId], CreatedAt)
      ensures var db := old(Stored()).value;
        Stored() == Ok(WithDateOfCreation(db.persistent, WithSessionStarted(db.session, sessionId), sessionId, now))
    {
      var db := GetDatabase();
      var valid := IsValidDatabase();
      if db.Ok? && valid == Ok(true) {
        var next := db.value.(session := WithSessionStarted(db.value.session, sessionId));
        LoadedMeansWritable(localStorage.destroyed, localStorage.doc, localStorage.Filename(), databaseName);
        LoadAfterWrite(localStorage.doc, localStorage.Filename(), databaseName, next);
        var _ := UpdateDatabase(next);
      }
      r := EnsureDateOfCreation(now);
    }

    /** `destroySession`: the current session's object is deleted, then the
        store's session ends; `sessionId` and `initialised` are kept. */
    method DestroySession() returns (r: Result<()>)
      requires localStorage.lock.None?
      modifies localStorage
      ensures localStorage.lock == None
      ensures old(Stored()).Err? ==>
        r == Err(old(Stored()).error) && localStorage.doc == old(localStorage.doc) && StoreSessionUnchanged()
      ensures old(Stored()).Ok? ==>
        var db := old(Stored()).value;
        && r == Ok(())
        && localStorage.doc == Written(old(localStorage.doc), localStorage.Filename(), databaseName,
                                       db.(session := db.session - {sessionId}))
        && localStorage.destroyed && localStorage.sessionId == ""
    {
      var db := GetDatabase();
      if db.Err? {
        return Err(db.error);
      }
      var valid := IsValidDatabase();
      if valid == Ok(true) {
        var _ := UpdateDatabase(db.value.(session := db.value.session - {sessionId}));
      }
      r := localStorage.DestroySession();
    }

    /** `clearPersistent`: the persistent scope is emptied, then the dates
        are ensured again. */
    method ClearPersistent(now: int) returns (r: Result<()>)
      requires localStorage.lock.None?
      modifies localStorage
      ensures StoreSessionUnchanged()
      ensures old(Stored()).Err? ==> r == Err(old(Stored()).error) && localStorage.doc == old(localStorage.doc)
      ensures old(Stored()).Ok? ==>
        var db := old(Stored()).value;
        r == Ok(()) && Stored() == Ok(WithDateOfCreation(map[], db.session, sessionId, now))
    {
      var db := GetDatabase();
      if db.Err? {
        return Err(db.error);
      }
      var valid := IsValidDatabase();
      if valid == Ok(true) {
        var next := db.value.(persistent := map[]);
        LoadedMeansWritable(localStorage.destroyed, localStorage.doc, localStorage.Filename(), databaseName);
        LoadAfterWrite(localStorage.doc, localStorage.Filename(), databaseName, next);
        var _ := UpdateDatabase(next);
      }
      r := EnsureDateOfCreation(now);
    }

    /** `deleteAll`: the whole item is removed from the store. */
    method DeleteAll() returns (r: Result<()>)
      requires localStorage.lock.None?
      modifies localStorage
      ensures StoreSessionUnchanged()
      ensures localStorage.destroyed ==> r == Err(DestroyedError) && localStorage.doc == old(localStorage.doc)
      ensures !localStorage.destroyed ==>
        var d := RemoveFromDoc(old(localStorage.doc), localStorage.Filename(), databaseName);
        && (d.Ok? ==> r == Ok(()) && localStorage.doc == Some(d.value) && Stored() == Err(NoDatabaseError))
        && (d.Err? ==> r == Err(d.error) && localStorage.doc == old(localStorage.doc))
    {
      r := localStorage.RemoveItem(databaseName);
    }
  }
}
