/** The locked, encrypted key-value document: one document file holding an
    encrypted JSON object, a lock file holding the session id of its holder,
    and one directory per registered client. Every item operation takes the
    lock, works on the decoded object and releases the lock on every path.
    Encryption and JSON are symbolic: a document the store wrote is
    `Sealed(object)`; any other content is `Text`. */
module DocumentStore {
  import opened Wrappers
  import opened JsString
  import UniqueBasename

  const Basename := "wpd_encrypted_ds.txt"
  const BasenameLocked := "wpd_encrypted_ds.lock.txt"
  const DestroyedError := "Document storage session is destroyed! First initialize session!"
  /** Stands for the error the decryption or `JSON.parse` of foreign
      content throws; its text belongs to those libraries. */
  const UndecodableError := "Document content cannot be decrypted and parsed"
  const ClientPrefix := "client_"

  datatype DocFile<V> = Text(text: string) | Sealed(doc: map<string, V>)

  datatype Details = Details(dirname: string, basename: string, basenameLocked: string,
                             filename: string, filenameLocked: string)

  function DocumentDetails(dirname: string): Details {
    Details(dirname, Basename, BasenameLocked, dirname + "/" + Basename, dirname + "/" + BasenameLocked)
  }

  function ClientsDir(dirname: string): string {
    dirname + "/clients"
  }

  function ClientDir(dirname: string, sessionId: string): string {
    ClientsDir(dirname) + "/" + sessionId
  }

  function MissingDocumentError(filename: string): string {
    "Document filename doesn't exist \"" + filename + "\"!"
  }

  function AlreadyLockedError(holder: string): string {
    "Document already locked by \"" + holder + "\"!"
  }

  // ----- pure specification ----------------------------------------------

  /** `decodeData(getDocument())` followed by the object check: an empty
      document is an empty object. */
  function Decode<V>(doc: Option<DocFile<V>>, filename: string): (r: Result<map<string, V>>)
    ensures doc.None? ==> r == Err(MissingDocumentError(filename))
    ensures doc == Some(Text("")) ==> r == Ok(map[])
    ensures doc.Some? && doc.value.Sealed? ==> r == Ok(doc.value.doc)
    ensures r.Err? <==> (doc.None? || (doc.value.Text? && doc.value.text != ""))
  {
    match doc
    case None => Err(MissingDocumentError(filename))
    case Some(Text(t)) => if t == "" then Ok(map[]) else Err(UndecodableError)
    case Some(Sealed(m)) => Ok(m)
  }

  /** The document after `setItem(key, value)`, or the error. */
  function SetInDoc<V>(doc: Option<DocFile<V>>, filename: string, key: string, value: V): Result<DocFile<V>> {
    var m := Decode(doc, filename);
    if m.Err? then Err(m.error) else Ok(Sealed(m.value[key := value]))
  }

  /** The document after `removeItem(key)`, or the error. */
  function RemoveFromDoc<V>(doc: Option<DocFile<V>>, filename: string, key: string): Result<DocFile<V>> {
    var m := Decode(doc, filename);
    if m.Err? then Err(m.error) else Ok(Sealed(m.value - {key}))
  }

  /** `getItem(key)`: the value, `None` for `undefined`, or the error. */
  function GetFromDoc<V>(doc: Option<DocFile<V>>, filename: string, key: string): Result<Option<V>> {
    var m := Decode(doc, filename);
    if m.Err? then Err(m.error) else Ok(if key in m.value then Some(m.value[key]) else None)
  }

  /** `lockDocument`: the new lock file content, or the error. */
  function LockOutcome(destroyed: bool, lock: Option<string>, sessionId: string): (r: Result<string>)
    ensures r.Ok? <==> !destroyed && lock.None?
  {
    if destroyed then Err(DestroyedError)
    else if lock.Some? then Err(AlreadyLockedError(lock.value))
    else Ok(sessionId)
  }

  /** `releaseDocumentLock`: what it returns and the lock left behind, or
      the error. It returns `false` (`Some(false)`) when another session
      holds the lock, and the `undefined` that `Deno.remove` resolves to
      (`None`) once the lock file is removed. */
  function ReleaseOutcome(destroyed: bool, lock: Option<string>, sessionId: string): Result<(Option<bool>, Option<string>)> {
    if destroyed then Err(DestroyedError)
    else if lock != Some(sessionId) then Ok((Some(false), lock))
    else Ok((None, None))
  }

  lemma SetThenGet<V>(doc: Option<DocFile<V>>, filename: string, key: string, value: V, other: string)
    requires SetInDoc(doc, filename, key, value).Ok?
    ensures GetFromDoc(Some(SetInDoc(doc, filename, key, value).value), filename, key) == Ok(Some(value))
    ensures other != key ==>
      GetFromDoc(Some(SetInDoc(doc, filename, key, value).value), filename, other) == GetFromDoc(doc, filename, other)
  {
  }

  lemma RemoveThenGet<V>(doc: Option<DocFile<V>>, filename: string, key: string, other: string)
    requires RemoveFromDoc(doc, filename, key).Ok?
    ensures GetFromDoc(Some(RemoveFromDoc(doc, filename, key).value), filename, key) == Ok(None)
    ensures other != key ==>
      GetFromDoc(Some(RemoveFromDoc(doc, filename, key).value), filename, other) == GetFromDoc(doc, filename, other)
  {
  }

  /** Every item operation fails exactly when reading the document does, and
      with the same error. */
  lemma ItemOperationsFailTogether<V>(doc: Option<DocFile<V>>, filename: string, key: string, value: V)
    ensures SetInDoc(doc, filename, key, value).Err? <==> Decode(doc, filename).Err?
    ensures RemoveFromDoc(doc, filename, key).Err? <==> Decode(doc, filename).Err?
    ensures GetFromDoc(doc, filename, key).Err? <==> Decode(doc, filename).Err?
    ensures Decode(doc, filename).Err? ==>
      && SetInDoc(doc, filename, key, value).error == Decode(doc, filename).error
      && GetFromDoc(doc, filename, key).error == Decode(doc, filename).error
  {
  }

  /** A lock taken by this session is released by it; a lock held by any
      other content is never removed. */
  lemma LockReleaseRoundTrip(lock: Option<string>, sessionId: string)
    ensures LockOutcome(false, None, sessionId) == Ok(sessionId)
    ensures ReleaseOutcome(false, Some(sessionId), sessionId) == Ok((None, None))
    ensures lock != Some(sessionId) ==> ReleaseOutcome(false, lock, sessionId) == Ok((Some(false), lock))
    ensures ReleaseOutcome(true, lock, sessionId) == Err(DestroyedError)
  {
  }

  // ----- the store --------------------------------------------------------

  class DocumentStorage<V> {
    const dirname: string
    var sessionId: string
    var destroyed: bool
    /** The document file at `DocumentDetails(dirname).filename`. */
    var doc: Option<DocFile<V>>
    /** The lock file at `DocumentDetails(dirname).filenameLocked`. */
    var lock: Option<string>
    /** The paths that exist under `ClientsDir(dirname)`. */
    var clientPaths: set<string>

    /** A store over what is on disk already; no session yet. */
    constructor (dirname: string, doc: Option<DocFile<V>>, lock: Option<string>, clientPaths: set<string>)
      ensures this.dirname == dirname && this.doc == doc && this.lock == lock && this.clientPaths == clientPaths
      ensures sessionId == "" && destroyed
    {
      this.dirname := dirname;
      this.doc := doc;
      this.lock := lock;
      this.clientPaths := clientPaths;
      sessionId := "";
      destroyed := true;
    }

    function Filename(): string
      reads this
    {
      DocumentDetails(dirname).filename
    }

    /** `init`: the session is live, an empty document is created when
        there is none, and the client registers under the first free
        `client_<n>` name (clock readings as in `generateUniqueBasename`). */
    method Init(startDate: int, now: nat -> int) returns (r: Result<()>)
      modifies this
      ensures !destroyed && lock == old(lock)
      ensures doc == if old(doc).None? then Some(Text("")) else old(doc)
      ensures r.Ok? ==>
        && StartsWith(sessionId, ClientPrefix)
        && ClientDir(dirname, sessionId) !in old(clientPaths)
        && clientPaths == old(clientPaths) + {ClientDir(dirname, sessionId)}
      ensures r.Ok? ==> exists n: nat ::
        && sessionId == UniqueBasename.Basename(ClientPrefix, n, "")
        && UniqueBasename.FirstFree(ClientsDir(dirname), ClientPrefix, "", old(clientPaths), n)
      ensures r.Err? ==>
        && r.error == UniqueBasename.TimeoutError
        && clientPaths == old(clientPaths) && sessionId == old(sessionId)
    {
      destroyed := false;
      if doc.None? {
        doc := Some(Text(""));
      }
      var name := UniqueBasename.GenerateUniqueBasename(ClientsDir(dirname), ClientPrefix, "", None,
                                                        startDate, now, clientPaths);
      if name.Err? {
        return Err(name.error);
      }
      ghost var n: nat :| name.value == UniqueBasename.Basename(ClientPrefix, n, "")
        && UniqueBasename.FirstFree(ClientsDir(dirname), ClientPrefix, "", clientPaths, n);
      assert ClientDir(dirname, name.value) == UniqueBasename.CandidatePath(ClientsDir(dirname), ClientPrefix, n, "");
      sessionId := name.value;
      clientPaths := clientPaths + {ClientDir(dirname, sessionId)};
      r := Ok(());
    }

    /** `destroySession`: refused when already destroyed; otherwise the
        client directory goes and the session ends with an empty id. */
    method DestroySession() returns (r: Result<()>)
      modifies this
      ensures old(destroyed) ==> r == Err(DestroyedError) && unchanged(this)
      ensures !old(destroyed) ==>
        && r == Ok(()) && destroyed && sessionId == ""
        && clientPaths == old(clientPaths) - {old(ClientDir(dirname, sessionId))}
        && doc == old(doc) && lock == old(lock)
    {
      if destroyed {
        return Err(DestroyedError);
      }
      var clientDir := ClientDir(dirname, sessionId);
      if clientDir in clientPaths {
        clientPaths := clientPaths - {clientDir};
      }
      sessionId := "";
      destroyed := true;
      r := Ok(());
    }

    method LockDocument() returns (r: Result<()>)
      modifies this
      ensures var o := LockOutcome(old(destroyed), old(lock), old(sessionId));
        && (o.Ok? ==> r == Ok(()) && lock == Some(o.value))
        && (o.Err? ==> r == Err(o.error) && lock == old(lock))
      ensures destroyed == old(destroyed) && sessionId == old(sessionId) && doc == old(doc)
      ensures clientPaths == old(clientPaths)
    {
      if destroyed {
        return Err(DestroyedError);
      }
      if lock.Some? {
        return Err(AlreadyLockedError(lock.value));
      }
      lock := Some(sessionId);
      r := Ok(());
    }

    method ReleaseDocumentLock() returns (r: Result<Option<bool>>)
      modifies this
      ensures var o := ReleaseOutcome(old(destroyed), old(lock), old(sessionId));
        && (o.Ok? ==> r == Ok(o.value.0) && lock == o.value.1)
        && (o.Err? ==> r == Err(o.error) && lock == old(lock))
      ensures destroyed == old(destroyed) && sessionId == old(sessionId) && doc == old(doc)
      ensures clientPaths == old(clientPaths)
    {
      if destroyed {
        return Err(DestroyedError);
      }
      if lock != Some(sessionId) {
        return Ok(Some(false));
      }
      lock := None;
      r := Ok(None);
    }

    /** `setItem`: the lock is free on entry (waiting for another holder is
        not modelled) and free again on every exit. */
    method SetItem(key: string, value: V) returns (r: Result<()>)
      requires lock.None?
      modifies this
      ensures lock == None
      ensures old(destroyed) ==> r == Err(DestroyedError) && doc == old(doc)
      ensures !old(destroyed) ==>
        var d := SetInDoc(old(doc), Filename(), key, value);
        && (d.Ok? ==> r == Ok(()) && doc == Some(d.value))
        && (d.Err? ==> r == Err(d.error) && doc == old(doc))
      ensures destroyed == old(destroyed) && sessionId == old(sessionId) && clientPaths == old(clientPaths)
    {
      var taken := LockDocument();
      if taken.Err? {
        return Err(taken.error);
      }
      var data := Decode(doc, Filename());
      if data.Err? {
        var _ := ReleaseDocumentLock();
        return Err(data.error);
      }
      var m := data.value[key := value];
      doc := Some(Sealed(m));
      var _ := ReleaseDocumentLock();
      r := Ok(());
    }

    method GetItem(key: string) returns (r: Result<Option<V>>)
      requires lock.None?
      modifies this
      ensures lock == None && doc == old(doc)
      ensures old(destroyed) ==> r == Err(DestroyedError)
      ensures !old(destroyed) ==> r == GetFromDoc(doc, Filename(), key)
      ensures destroyed == old(destroyed) && sessionId == old(sessionId) && clientPaths == old(clientPaths)
    {
      var taken := LockDocument();
      if taken.Err? {
        return Err(taken.error);
      }
      var data := Decode(doc, Filename());
      if data.Err? {
        var _ := ReleaseDocumentLock();
        return Err(data.error);
      }
      var value := if key in data.value then Some(data.value[key]) else None;
      var _ := ReleaseDocumentLock();
      r := Ok(value);
    }

    method RemoveItem(key: string) returns (r: Result<()>)
      requires lock.None?
      modifies this
      ensures lock == None
      ensures old(destroyed) ==> r == Err(DestroyedError) && doc == old(doc)
      ensures !old(destroyed) ==>
        var d := RemoveFromDoc(old(doc), Filename(), key);
        && (d.Ok? ==> r == Ok(()) && doc == Some(d.value))
        && (d.Err? ==> r == Err(d.error) && doc == old(doc))
      ensures destroyed == old(destroyed) && sessionId == old(sessionId) && clientPaths == old(clientPaths)
    {
      var taken := LockDocument();
      if taken.Err? {
        return Err(taken.error);
      }
      var data := Decode(doc, Filename());
      if data.Err? {
        var _ := ReleaseDocumentLock();
        return Err(data.error);
      }
      doc := Some(Sealed(data.value - {key}));
      var _ := ReleaseDocumentLock();
      r := Ok(());
    }
  }
}
