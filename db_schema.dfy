/** The application's concrete three-table schema, fed once to the schema
    builder; the database name is a parameter because its constant is not
    part of this model. */
module DbSchema {
  import opened Wrappers
  import opened SqliteSchema

  const IdType := "INTEGER PRIMARY KEY AUTOINCREMENT"
  const CreatedAtType := "INTEGER DEFAULT (strftime('%s','now'))"

  const Sessions := Table("sessions",
    [Column("id", IdType), Column("created_at", CreatedAtType)],
    None, None)

  const SessionData := Table("session_data",
    [Column("id", IdType),
     Column("session_id", "INTEGER NOT NULL"),
     Column("created_at", CreatedAtType),
     Column("key", "TEXT"),
     Column("value", "TEXT NULL")],
    Some([ForeignKey("session_id", Reference("sessions", "id"))]),
    Some([UniqueIndex(["session_id", "key"])]))

  const PersistentData := Table("persistent_data",
    [Column("id", IdType),
     Column("created_at", CreatedAtType),
     Column("key", "TEXT"),
     Column("value", "TEXT NULL")],
    None,
    Some([UniqueIndex(["key"])]))

  /** The `tables` object literal, in key order. */
  const Tables := [Sessions, SessionData, PersistentData]

  /** `new classDatabaseSqlLiteSchema({ name: DB_NAME, tables })` */
  function DbSchema(dbName: string): Schema {
    Build(dbName, Some(Tables))
  }

  /** The builder reproduces the literal exactly: its names are distinct and
      every list it declares is non-empty. */
  lemma DbSchemaIsLiteral(dbName: string)
    ensures DbSchema(dbName).dbName == dbName
    ensures DbSchema(dbName).tables == Tables
  {
    assert DistinctNames(Tables);
    ApplyAllDistinct(Tables);
    var built := ApplyAll([], Tables);
    assert Normalize(Sessions) == Sessions;
    assert [] + SessionData.columns == SessionData.columns;
    assert [] + SessionData.foreignKeys.value == SessionData.foreignKeys.value;
    assert [] + SessionData.uniqueIndexes.value == SessionData.uniqueIndexes.value;
    assert Normalize(SessionData) == SessionData;
    assert [] + PersistentData.columns == PersistentData.columns;
    assert [] + PersistentData.uniqueIndexes.value == PersistentData.uniqueIndexes.value;
    assert Normalize(PersistentData) == PersistentData;
    assert built == [built[0], built[1], built[2]];
  }

  /** Exactly three tables, in the order sessions, session_data, persistent_data. */
  lemma ThreeTablesInOrder(dbName: string)
    ensures Names(DbSchema(dbName).tables) == ["sessions", "session_data", "persistent_data"]
  {
    DbSchemaIsLiteral(dbName);
    var n := Names(Tables);
    assert n == [n[0], n[1], n[2]];
  }

  /** Every table starts with `id INTEGER PRIMARY KEY AUTOINCREMENT`. */
  lemma FirstColumnIsId(dbName: string)
    ensures forall t :: t in DbSchema(dbName).tables ==>
      |t.columns| > 0 && t.columns[0] == Column("id", "INTEGER PRIMARY KEY AUTOINCREMENT")
  {
    DbSchemaIsLiteral(dbName);
  }

  /** session_data has exactly one foreign key, session_id -> sessions.id,
      and the unique index [session_id, key]; persistent_data has the unique
      index [key] and no foreign key; sessions declares neither. */
  lemma KeysAndIndexes(dbName: string)
    ensures var ts := DbSchema(dbName).tables;
      && |ts| == 3
      && ts[0].foreignKeys.None? && ts[0].uniqueIndexes.None?
      && ts[1].foreignKeys == Some([ForeignKey("session_id", Reference("sessions", "id"))])
      && ts[1].uniqueIndexes == Some([UniqueIndex(["session_id", "key"])])
      && ts[2].foreignKeys.None?
      && ts[2].uniqueIndexes == Some([UniqueIndex(["key"])])
  {
    DbSchemaIsLiteral(dbName);
  }

  /** A `key` column is `TEXT` and a `value` column is `TEXT NULL`. */
  predicate KeyValueTyped(c: Column) {
    (c.name == "key" ==> c.typ == "TEXT") && (c.name == "value" ==> c.typ == "TEXT NULL")
  }

  /** Each `key` column is `TEXT` and each `value` column is `TEXT NULL`. */
  lemma KeyValueColumnTypes(dbName: string)
    ensures forall t, c :: t in DbSchema(dbName).tables && c in t.columns ==> KeyValueTyped(c)
  {
    DbSchemaIsLiteral(dbName);
    ColumnsTyped(Sessions.columns);
    ColumnsTyped(SessionData.columns);
    ColumnsTyped(PersistentData.columns);
    forall t | t in Tables ensures t == Sessions || t == SessionData || t == PersistentData {
    }
  }

  lemma ColumnsTyped(cols: seq<Column>)
    requires forall k :: 0 <= k < |cols| ==> KeyValueTyped(cols[k])
    ensures forall c :: c in cols ==> KeyValueTyped(c)
  {
  }
}
