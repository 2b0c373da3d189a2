/** The SQLite schema builder: a mutable `json` document of tables that
    `addTable`, `addColumn`, `addForeignKey` and `addUniqueIndex` grow in
    place, each looking its table up by name (first match wins). */
module SqliteSchema {
  import opened Wrappers

  datatype Column = Column(name: string, typ: string)
  datatype Reference = Reference(table: string, column: string)
  datatype ForeignKey = ForeignKey(column: string, reference: Reference)
  datatype UniqueIndex = UniqueIndex(columns: seq<string>)

  /** `foreignKeys` and `uniqueIndexes` are optional keys of the table object. */
  datatype Table = Table(
    name: string,
    columns: seq<Column>,
    foreignKeys: Option<seq<ForeignKey>>,
    uniqueIndexes: Option<seq<UniqueIndex>>)

  datatype Schema = Schema(dbName: string, tables: seq<Table>)

  /** `i` is the index `tables.find(t => t.name === name)` stops at. */
  predicate IsFirstMatch(tables: seq<Table>, name: string, i: int) {
    0 <= i < |tables| && tables[i].name == name
    && forall j :: 0 <= j < i ==> tables[j].name != name
  }

  predicate HasTable(tables: seq<Table>, name: string) {
    exists i :: 0 <= i < |tables| && tables[i].name == name
  }

  function FirstIndex(tables: seq<Table>, name: string): (r: Option<nat>)
    ensures r.Some? ==> IsFirstMatch(tables, name, r.value)
    ensures r.None? <==> !HasTable(tables, name)
  {
    if |tables| == 0 then None
    else if tables[0].name == name then Some(0)
    else match FirstIndex(tables[1..], name)
      case None => None
      case Some(i) => Some(i + 1)
  }

  function NotFound(name: string): string {
    "Table " + name + " not found!"
  }

  /** `getTable`: the first table with that name, or the not-found error. */
  function Lookup(tables: seq<Table>, name: string): (r: Result<Table>)
    ensures r.Err? <==> !HasTable(tables, name)
    ensures r.Err? ==> r.error == NotFound(name)
    ensures r.Ok? ==> exists i :: IsFirstMatch(tables, name, i) && tables[i] == r.value
  {
    match FirstIndex(tables, name)
    case None => Err(NotFound(name))
    case Some(i) => Ok(tables[i])
  }

  function EmptyTable(name: string): Table {
    Table(name, [], None, None)
  }

  /** The `json.tables.push({ name, columns: [] })` of `addTable`. */
  function PushTable(tables: seq<Table>, name: string): seq<Table> {
    tables + [EmptyTable(name)]
  }

  function WithColumn(t: Table, c: Column): Table {
    t.(columns := t.columns + [c])
  }

  /** `table.foreignKeys = table.foreignKeys || []; table.foreignKeys.push(fk)` */
  function WithForeignKey(t: Table, fk: ForeignKey): Table {
    t.(foreignKeys := Some(t.foreignKeys.GetOr([]) + [fk]))
  }

  /** `table.uniqueIndexes = table.uniqueIndexes || []; table.uniqueIndexes.push(ix)` */
  function WithUniqueIndex(t: Table, ix: UniqueIndex): Table {
    t.(uniqueIndexes := Some(t.uniqueIndexes.GetOr([]) + [ix]))
  }

  /** Tables `a` and `b` agree everywhere except possibly at index `i`. */
  predicate SameExcept(a: seq<Table>, b: seq<Table>, i: int) {
    |a| == |b| && forall j :: 0 <= j < |a| && j != i ==> a[j] == b[j]
  }

  /** `addColumn` on the table list. */
  function PushColumn(tables: seq<Table>, tableName: string, c: Column): (r: Result<seq<Table>>)
    ensures r.Err? <==> !HasTable(tables, tableName)
    ensures r.Err? ==> r.error == NotFound(tableName)
    ensures r.Ok? ==> exists i ::
      && IsFirstMatch(tables, tableName, i)
      && SameExcept(tables, r.value, i)
      && r.value[i] == tables[i].(columns := tables[i].columns + [c])
  {
    match FirstIndex(tables, tableName)
    case None => Err(NotFound(tableName))
    case Some(i) => Ok(tables[i := WithColumn(tables[i], c)])
  }

  /** `addForeignKey` on the table list. */
  function PushForeignKey(tables: seq<Table>, tableName: string, fk: ForeignKey): (r: Result<seq<Table>>)
    ensures r.Err? <==> !HasTable(tables, tableName)
    ensures r.Err? ==> r.error == NotFound(tableName)
    ensures r.Ok? ==> exists i ::
      && IsFirstMatch(tables, tableName, i)
      && SameExcept(tables, r.value, i)
      && r.value[i].foreignKeys.Some?
      && r.value[i].foreignKeys.value == tables[i].foreignKeys.GetOr([]) + [fk]
      && r.value[i] == tables[i].(foreignKeys := r.value[i].foreignKeys)
  {
    match FirstIndex(tables, tableName)
    case None => Err(NotFound(tableName))
    case Some(i) => Ok(tables[i := WithForeignKey(tables[i], fk)])
  }

  /** `addUniqueIndex` on the table list. */
  function PushUniqueIndex(tables: seq<Table>, tableName: string, ix: UniqueIndex): (r: Result<seq<Table>>)
    ensures r.Err? <==> !HasTable(tables, tableName)
    ensures r.Err? ==> r.error == NotFound(tableName)
    ensures r.Ok? ==> exists i ::
      && IsFirstMatch(tables, tableName, i)
      && SameExcept(tables, r.value, i)
      && r.value[i].uniqueIndexes.Some?
      && r.value[i].uniqueIndexes.value == tables[i].uniqueIndexes.GetOr([]) + [ix]
      && r.value[i] == tables[i].(uniqueIndexes := r.value[i].uniqueIndexes)
  {
    match FirstIndex(tables, tableName)
    case None => Err(NotFound(tableName))
    case Some(i) => Ok(tables[i := WithUniqueIndex(tables[i], ix)])
  }

  /** What the loops of `applyTables` do to an optional list: nothing when the
      input has no such array (or an empty one), otherwise create-and-append. */
  function AppendAll<X>(current: Option<seq<X>>, given: Option<seq<X>>): Option<seq<X>> {
    match given
    case None => current
    case Some(xs) => if |xs| == 0 then current else Some(current.GetOr([]) + xs)
  }

  /** The table `t` after all the pushes `applyTables` makes for `spec`. */
  function Extend(t: Table, spec: Table): Table {
    t.(columns := t.columns + spec.columns,
       foreignKeys := AppendAll(t.foreignKeys, spec.foreignKeys),
       uniqueIndexes := AppendAll(t.uniqueIndexes, spec.uniqueIndexes))
  }

  /** One iteration of `applyTables`: `addTable(spec.name)`, then every
      column, foreign key and unique index of `spec`, each pushed into the
      first table bearing that name. */
  function ApplySpec(tables: seq<Table>, spec: Table): seq<Table> {
    var pushed := PushTable(tables, spec.name);
    assert pushed[|tables|].name == spec.name;
    var i := FirstIndex(pushed, spec.name).value;
    pushed[i := Extend(pushed[i], spec)]
  }

  /** `applyTables(specs)`, iteration by iteration. */
  function ApplyAll(tables: seq<Table>, specs: seq<Table>): seq<Table>
    decreases |specs|
  {
    if |specs| == 0 then tables
    else ApplySpec(ApplyAll(tables, specs[..|specs| - 1]), specs[|specs| - 1])
  }

  /** The table a spec becomes when its name is new: the given columns, and
      the given lists only when they hold at least one element. */
  function Normalize(spec: Table): Table {
    Extend(EmptyTable(spec.name), spec)
  }

  predicate DistinctNames(tables: seq<Table>) {
    forall i, j :: 0 <= i < j < |tables| ==> tables[i].name != tables[j].name
  }

  function Names(tables: seq<Table>): (r: seq<string>)
    ensures |r| == |tables|
    ensures forall i :: 0 <= i < |tables| ==> r[i] == tables[i].name
  {
    if |tables| == 0 then [] else [tables[0].name] + Names(tables[1..])
  }

  /** The schema the constructor builds from a name and optional tables. */
  function Build(name: string, tables: Option<seq<Table>>): Schema {
    Schema(name, match tables case None => [] case Some(ts) => ApplyAll([], ts))
  }

  /** `addTable` appends exactly one empty table at the end. */
  lemma PushTableAppends(tables: seq<Table>, name: string)
    ensures |PushTable(tables, name)| == |tables| + 1
    ensures PushTable(tables, name)[..|tables|] == tables
    ensures PushTable(tables, name)[|tables|] == Table(name, [], None, None)
  {
  }

  /** The table `addTable` returns is the first one bearing the name: the
      new empty table when the name is fresh, the older entry otherwise. */
  lemma AddTableReturns(tables: seq<Table>, name: string)
    ensures Lookup(PushTable(tables, name), name).Ok?
    ensures !HasTable(tables, name) ==> Lookup(PushTable(tables, name), name) == Ok(EmptyTable(name))
    ensures HasTable(tables, name) ==> Lookup(PushTable(tables, name), name) == Lookup(tables, name)
  {
    var pushed := PushTable(tables, name);
    assert pushed[|tables|].name == name;
    if HasTable(tables, name) {
      var i := FirstIndex(tables, name).value;
      assert IsFirstMatch(pushed, name, i);
      FirstMatchUnique(pushed, name, i, FirstIndex(pushed, name).value);
    } else {
      assert IsFirstMatch(pushed, name, |tables|);
      FirstMatchUnique(pushed, name, |tables|, FirstIndex(pushed, name).value);
    }
  }

  lemma FirstMatchUnique(tables: seq<Table>, name: string, i: int, j: int)
    requires IsFirstMatch(tables, name, i) && IsFirstMatch(tables, name, j)
    ensures i == j
  {
  }

  /** A duplicate name: after two `addTable(name)` calls a column added by
      that name lands in the first entry and the second stays empty. */
  lemma {:induction false} DuplicateTableGetsNothing(tables: seq<Table>, name: string, c: Column)
    requires !HasTable(tables, name)
    ensures var twice := PushTable(PushTable(tables, name), name);
      PushColumn(twice, name, c) == Ok(twice[|tables| := WithColumn(EmptyTable(name), c)])
      && PushColumn(twice, name, c).value[|tables| + 1] == EmptyTable(name)
  {
    var twice := PushTable(PushTable(tables, name), name);
    assert IsFirstMatch(twice, name, |tables|);
    FirstMatchUnique(twice, name, |tables|, FirstIndex(twice, name).value);
  }

  lemma NamesPreserved(a: seq<Table>, b: seq<Table>, i: int)
    requires SameExcept(a, b, i) && 0 <= i < |a| && b[i].name == a[i].name
    ensures forall j :: 0 <= j < |a| ==> b[j].name == a[j].name
    ensures forall name :: FirstIndex(b, name) == FirstIndex(a, name)
  {
    forall name ensures FirstIndex(b, name) == FirstIndex(a, name) {
      FirstIndexByNames(a, b, name);
    }
  }

  lemma {:induction false} FirstIndexByNames(a: seq<Table>, b: seq<Table>, name: string)
    requires |a| == |b| && forall j :: 0 <= j < |a| ==> b[j].name == a[j].name
    ensures FirstIndex(b, name) == FirstIndex(a, name)
  {
    if |a| > 0 && a[0].name != name {
      FirstIndexByNames(a[1..], b[1..], name);
    }
  }

  lemma AppendAllStep<X>(current: Option<seq<X>>, xs: seq<X>, k: nat)
    requires k < |xs|
    ensures AppendAll(current, Some(xs[..k + 1]))
         == Some(AppendAll(current, Some(xs[..k])).GetOr([]) + [xs[k]])
  {
    var g := current.GetOr([]);
    assert xs[..k + 1] == xs[..k] + [xs[k]];
    if k > 0 {
      assert AppendAll(current, Some(xs[..k])) == Some(g + xs[..k]);
      assert g + xs[..k + 1] == g + xs[..k] + [xs[k]];
    } else {
      assert AppendAll(current, Some(xs[..k])) == current;
      assert xs[..k + 1] == [xs[k]];
    }
  }

  /** With distinct names, the constructor keeps the given tables in order,
      each with its columns in order and its lists only when non-empty. */
  lemma {:induction false} ApplyAllDistinct(specs: seq<Table>)
    requires DistinctNames(specs)
    ensures |ApplyAll([], specs)| == |specs|
    ensures forall i :: 0 <= i < |specs| ==> ApplyAll([], specs)[i] == Normalize(specs[i])
    decreases |specs|
  {
    if |specs| > 0 {
      var n := |specs| - 1;
      var prefix := specs[..n];
      assert DistinctNames(prefix);
      ApplyAllDistinct(prefix);
      var before := ApplyAll([], prefix);
      forall j | 0 <= j < n ensures before[j].name != specs[n].name {
        assert before[j] == Normalize(specs[j]);
      }
      ApplyNewName(before, specs[n]);
    }
  }

  /** A spec whose name no table bears yet is appended in normalized form. */
  lemma ApplyNewName(tables: seq<Table>, spec: Table)
    requires forall j :: 0 <= j < |tables| ==> tables[j].name != spec.name
    ensures ApplySpec(tables, spec) == tables + [Normalize(spec)]
  {
    var pushed := PushTable(tables, spec.name);
    assert IsFirstMatch(pushed, spec.name, |tables|);
    FirstMatchUnique(pushed, spec.name, |tables|, FirstIndex(pushed, spec.name).value);
  }

  /** Table `i` with `cols` appended to its columns. */
  function WithColumns(tables: seq<Table>, i: nat, cols: seq<Column>): seq<Table>
    requires i < |tables|
  {
    tables[i := tables[i].(columns := tables[i].columns + cols)]
  }

  /** One more column of the `applyTables` column loop. */
  lemma ColumnStep(start: seq<Table>, name: string, i: nat, cols: seq<Column>, c: nat)
    requires IsFirstMatch(start, name, i) && c < |cols|
    ensures PushColumn(WithColumns(start, i, cols[..c]), name, cols[c]) == Ok(WithColumns(start, i, cols[..c + 1]))
  {
    var cur := WithColumns(start, i, cols[..c]);
    FirstIndexKept(start, cur, name, i);
    PushColumnAt(cur, name, i, cols[c]);
    WithColumnsSnoc(start, i, cols, c);
  }

  /** The first match survives any change that keeps every name. */
  lemma FirstIndexKept(start: seq<Table>, cur: seq<Table>, name: string, i: nat)
    requires IsFirstMatch(start, name, i) && SameExcept(start, cur, i) && cur[i].name == start[i].name
    ensures FirstIndex(cur, name) == Some(i)
  {
    NamesPreserved(start, cur, i);
    FirstMatchUnique(start, name, i, FirstIndex(start, name).value);
  }

  lemma PushColumnAt(tables: seq<Table>, name: string, i: nat, col: Column)
    requires FirstIndex(tables, name) == Some(i)
    ensures PushColumn(tables, name, col) == Ok(tables[i := WithColumn(tables[i], col)])
  {
  }

  lemma WithColumnsSnoc(start: seq<Table>, i: nat, cols: seq<Column>, c: nat)
    requires i < |start| && c < |cols|
    ensures var cur := WithColumns(start, i, cols[..c]);
      cur[i := WithColumn(cur[i], cols[c])] == WithColumns(start, i, cols[..c + 1])
  {
    assert cols[..c + 1] == cols[..c] + [cols[c]];
    assert start[i].columns + cols[..c + 1] == start[i].columns + cols[..c] + [cols[c]];
  }

  class SchemaBuilder {
    /** The schema document the builder grows in place. */
    var json: Schema
    /** The `tables` argument of the constructor, or none. */
    var tables: seq<Table>

    function GetTable(name: string): (r: Result<Table>)
      reads this
      ensures r.Err? <==> !HasTable(json.tables, name)
      ensures r.Err? ==> r.error == NotFound(name)
      ensures r.Ok? ==> r.value.name == name
    {
      Lookup(json.tables, name)
    }

    constructor (name: string, tables: Option<seq<Table>>)
      ensures json == Build(name, tables)
      ensures this.tables == tables.GetOr([])
    {
      var doc := Schema("", []);
      json := doc.(dbName := name);
      this.tables := tables.GetOr([]);
      new;
      if tables.Some? {
        ApplyTables(tables.value);
      }
    }

    method AddTable(name: string) returns (view: Table)
      modifies this
      ensures json == old(json).(tables := PushTable(old(json.tables), name))
      ensures tables == old(tables)
      ensures GetTable(name) == Ok(view)
    {
      json := json.(tables := PushTable(json.tables, name));
      AddTableReturns(old(json.tables), name);
      view := GetTable(name).value;
    }

    method AddColumn(tableName: string, name: string, typ: string) returns (r: Result<Table>)
      modifies this
      ensures tables == old(tables)
      ensures PushColumn(old(json.tables), tableName, Column(name, typ)).Err? ==>
        json == old(json) && r == Err(NotFound(tableName))
      ensures PushColumn(old(json.tables), tableName, Column(name, typ)).Ok? ==>
        json == old(json).(tables := PushColumn(old(json.tables), tableName, Column(name, typ)).value)
        && r == GetTable(tableName) && r.Ok?
    {
      var pushed := PushColumn(json.tables, tableName, Column(name, typ));
      if pushed.Err? {
        return Err(pushed.error);
      }
      json := json.(tables := pushed.value);
      r := GetTable(tableName);
    }

    method AddForeignKey(tableName: string, fk: ForeignKey) returns (r: Result<Table>)
      modifies this
      ensures tables == old(tables)
      ensures PushForeignKey(old(json.tables), tableName, fk).Err? ==>
        json == old(json) && r == Err(NotFound(tableName))
      ensures PushForeignKey(old(json.tables), tableName, fk).Ok? ==>
        json == old(json).(tables := PushForeignKey(old(json.tables), tableName, fk).value)
        && r == GetTable(tableName) && r.Ok?
    {
      var pushed := PushForeignKey(json.tables, tableName, fk);
      if pushed.Err? {
        return Err(pushed.error);
      }
      json := json.(tables := pushed.value);
      r := GetTable(tableName);
    }

    method AddUniqueIndex(tableName: string, ix: UniqueIndex) returns (r: Result<Table>)
      modifies this
      ensures tables == old(tables)
      ensures PushUniqueIndex(old(json.tables), tableName, ix).Err? ==>
        json == old(json) && r == Err(NotFound(tableName))
      ensures PushUniqueIndex(old(json.tables), tableName, ix).Ok? ==>
        json == old(json).(tables := PushUniqueIndex(old(json.tables), tableName, ix).value)
        && r == GetTable(tableName) && r.Ok?
    {
      var pushed := PushUniqueIndex(json.tables, tableName, ix);
      if pushed.Err? {
        return Err(pushed.error);
      }
      json := json.(tables := pushed.value);
      r := GetTable(tableName);
    }

    method ApplyTables(specs: seq<Table>)
      modifies this
      ensures json == old(json).(tables := ApplyAll(old(json.tables), specs))
      ensures tables == old(tables)
    {
      var k := 0;
      while k < |specs|
        invariant 0 <= k <= |specs|
        invariant json == old(json).(tables := ApplyAll(old(json.tables), specs[..k]))
        invariant tables == old(tables)
      {
        var spec := specs[k];
        assert specs[..k + 1][..k] == specs[..k];
        ApplyOne(spec);
        k := k + 1;
      }
      assert specs[..|specs|] == specs;
    }

    /** The body of the `applyTables` loop for one table. */
    method ApplyOne(spec: Table)
      modifies this
      ensures json == old(json).(tables := ApplySpec(old(json.tables), spec))
      ensures tables == old(tables)
    {
      var ignored := AddTable(spec.name);
      ExtendTable(spec);
    }

    /** The column, foreign-key and unique-index loops for one table, on the
        first table bearing its name. */
    method ExtendTable(spec: Table)
      requires HasTable(json.tables, spec.name)
      modifies this
      ensures var i := FirstIndex(old(json.tables), spec.name).value;
        json == old(json).(tables := old(json.tables)[i := Extend(old(json.tables)[i], spec)])
      ensures tables == old(tables)
    {
      ghost var start := json.tables;
      ghost var i := FirstIndex(start, spec.name).value;
      ghost var base := start[i];
      AddColumns(spec.name, spec.columns);
      ghost var withColumns := base.(columns := base.columns + spec.columns);
      assert json.tables == start[i := withColumns];
      NamesPreserved(start, json.tables, i);
      ExtendLists(spec.name, spec.foreignKeys, spec.uniqueIndexes);
    }

    /** The foreign-key and unique-index loops, each skipped when the spec
        has no such list. */
    method ExtendLists(tableName: string, fks: Option<seq<ForeignKey>>, ixs: Option<seq<UniqueIndex>>)
      requires HasTable(json.tables, tableName)
      modifies this
      ensures var i := FirstIndex(old(json.tables), tableName).value;
        json == old(json).(tables := old(json.tables)[i := old(json.tables)[i].(
          foreignKeys := AppendAll(old(json.tables)[i].foreignKeys, fks),
          uniqueIndexes := AppendAll(old(json.tables)[i].uniqueIndexes, ixs))])
      ensures tables == old(tables)
    {
      ghost var start := json.tables;
      ghost var i := FirstIndex(start, tableName).value;
      ghost var base := start[i];
      if fks.Some? {
        AddForeignKeys(tableName, fks.value);
      }
      ghost var withKeys := base.(foreignKeys := AppendAll(base.foreignKeys, fks));
      assert json.tables == start[i := withKeys];
      NamesPreserved(start, json.tables, i);
      if ixs.Some? {
        AddUniqueIndexes(tableName, ixs.value);
      }
    }

    /** The column loop of `applyTables`. */
    method AddColumns(tableName: string, cols: seq<Column>)
      requires HasTable(json.tables, tableName)
      modifies this
      ensures var i := FirstIndex(old(json.tables), tableName).value;
        json == old(json).(tables := old(json.tables)[i := old(json.tables)[i].(columns := old(json.tables)[i].columns + cols)])
      ensures tables == old(tables)
    {
      ghost var start := json.tables;
      ghost var i := FirstIndex(start, tableName).value;
      assert cols[..0] == [] && start[i].columns + [] == start[i].columns;
      assert WithColumns(start, i, cols[..0]) == start;
      var c := 0;
      while c < |cols|
        invariant 0 <= c <= |cols|
        invariant json.tables == WithColumns(start, i, cols[..c]) && json.dbName == old(json.dbName)
        invariant tables == old(tables)
      {
        NextColumn(tableName, start, i, cols, c);
        c := c + 1;
      }
      assert cols[..|cols|] == cols;
      assert json == old(json).(tables := WithColumns(start, i, cols));
    }

    /** One iteration of the column loop: `addColumn` of column `c`. */
    method NextColumn(tableName: string, ghost start: seq<Table>, ghost i: nat, cols: seq<Column>, c: nat)
      requires IsFirstMatch(start, tableName, i) && c < |cols|
      requires json.tables == WithColumns(start, i, cols[..c])
      modifies this
      ensures json.tables == WithColumns(start, i, cols[..c + 1]) && json.dbName == old(json.dbName)
      ensures tables == old(tables)
    {
      ColumnStep(start, tableName, i, cols, c);
      var added := AddColumn(tableName, cols[c].name, cols[c].typ);
    }

    /** The foreign-key loop of `applyTables`. */
    method AddForeignKeys(tableName: string, fks: seq<ForeignKey>)
      requires HasTable(json.tables, tableName)
      modifies this
      ensures var i := FirstIndex(old(json.tables), tableName).value;
        json == old(json).(tables := old(json.tables)[i :=
          old(json.tables)[i].(foreignKeys := AppendAll(old(json.tables)[i].foreignKeys, Some(fks)))])
      ensures tables == old(tables)
    {
      ghost var start := json.tables;
      ghost var i := FirstIndex(start, tableName).value;
      ghost var base := start[i];
      assert base.(foreignKeys := AppendAll(base.foreignKeys, Some(fks[..0]))) == base;
      assert start[i := base] == start;
      var f := 0;
      while f < |fks|
        invariant 0 <= f <= |fks|
        invariant json == old(json).(tables := start[i := base.(foreignKeys := AppendAll(base.foreignKeys, Some(fks[..f])))])
        invariant tables == old(tables)
      {
        NamesPreserved(start, json.tables, i);
        AppendAllStep(base.foreignKeys, fks, f);
        var added := AddForeignKey(tableName, fks[f]);
        f := f + 1;
      }
      assert fks[..|fks|] == fks;
    }

    /** The unique-index loop of `applyTables`. */
    method AddUniqueIndexes(tableName: string, ixs: seq<UniqueIndex>)
      requires HasTable(json.tables, tableName)
      modifies this
      ensures var i := FirstIndex(old(json.tables), tableName).value;
        json == old(json).(tables := old(json.tables)[i :=
          old(json.tables)[i].(uniqueIndexes := AppendAll(old(json.tables)[i].uniqueIndexes, Some(ixs)))])
      ensures tables == old(tables)
    {
      ghost var start := json.tables;
      ghost var i := FirstIndex(start, tableName).value;
      ghost var base := start[i];
      assert base.(uniqueIndexes := AppendAll(base.uniqueIndexes, Some(ixs[..0]))) == base;
      assert start[i := base] == start;
      var u := 0;
      while u < |ixs|
        invariant 0 <= u <= |ixs|
        invariant json == old(json).(tables := start[i := base.(uniqueIndexes := AppendAll(base.uniqueIndexes, Some(ixs[..u])))])
        invariant tables == old(tables)
      {
        NamesPreserved(start, json.tables, i);
        AppendAllStep(base.uniqueIndexes, ixs, u);
        var added := AddUniqueIndex(tableName, ixs[u]);
        u := u + 1;
      }
      assert ixs[..|ixs|] == ixs;
    }
  }
}
