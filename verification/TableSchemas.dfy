/** Table schemas: their construction and their encoding as values. */
module TableSchemas {
  import opened Optional

  type Id = string

  /** Which strings parse as identifiers; their syntax is foreign. */
  type Legal = string -> bool

  /** The types of values, known by their encoded form. */
  type ValueType = nat

  datatype Value = Absent | Text(text: string) | Class(dtype: ValueType) | Tuple(items: seq<Value>)

  datatype Column = Column(name: Id, dtype: ValueType)

  datatype Storage = Storage(blockSize: nat, order: nat)

  const DEFAULT_STORAGE := Storage(4096, 64)

  datatype IndexSchema = IndexSchema(names: seq<Id>, types: seq<ValueType>, storage: Storage)

  /** A request for an index: its name and its columns. */
  datatype Request = Request(name: string, columns: seq<Id>)

  datatype Index = Index(name: string, schema: IndexSchema)

  datatype TableSchema = TableSchema(key: seq<Id>, values: seq<Id>, primary: IndexSchema, indices: seq<Index>)

  datatype SchemaError = NoKey | NoColumns | NoSuchColumn(index: string, column: Id)

  datatype Built<+T> = Ok(value: T) | Err(error: SchemaError)

  function Names(columns: seq<Column>): seq<Id> { seq(|columns|, i requires 0 <= i < |columns| => columns[i].name) }

  function Types(columns: seq<Column>): seq<ValueType> {
    seq(|columns|, i requires 0 <= i < |columns| => columns[i].dtype)
  }

  function IndexOver(columns: seq<Column>, storage: Storage): IndexSchema {
    IndexSchema(Names(columns), Types(columns), storage)
  }

  /** `TableIndexSchema::new`. */
  function NewIndex(columns: seq<Column>, storage: Storage): Built<IndexSchema> {
    if columns == [] then Err(NoColumns) else Ok(IndexOver(columns, storage))
  }

  /** Columns by name; of two columns with one name the later is kept. */
  function ColumnMap(columns: seq<Column>): map<Id, Column> {
    if columns == [] then map[]
    else ColumnMap(columns[..|columns| - 1])[columns[|columns| - 1].name := columns[|columns| - 1]]
  }

  lemma {:induction false} ColumnMapNames(columns: seq<Column>, name: Id)
    ensures name in ColumnMap(columns) <==> name in Names(columns)
    ensures name in ColumnMap(columns) ==> ColumnMap(columns)[name].name == name
  {
    if columns != [] {
      ColumnMapNames(columns[..|columns| - 1], name);
      assert Names(columns) == Names(columns[..|columns| - 1]) + [columns[|columns| - 1].name];
    }
  }

  predicate Known(columns: map<Id, Column>, names: seq<Id>) { forall i | 0 <= i < |names| :: names[i] in columns }

  function Resolved(columns: map<Id, Column>, names: seq<Id>): seq<Column>
    requires Known(columns, names)
  {
    seq(|names|, i requires 0 <= i < |names| => columns[names[i]])
  }

  predicate AllKnown(columns: map<Id, Column>, requests: seq<Request>) {
    forall i | 0 <= i < |requests| :: Known(columns, requests[i].columns)
  }

  function Indexed(columns: map<Id, Column>, key: seq<Column>, request: Request, storage: Storage): Index
    requires Known(columns, request.columns)
  {
    Index(request.name, IndexOver(Resolved(columns, request.columns) + key, storage))
  }

  /** The schema that `TableSchema::new` builds when it builds one. */
  function SchemaOf(key: seq<Column>, values: seq<Column>, requests: seq<Request>, storage: Storage): TableSchema
    requires AllKnown(ColumnMap(key + values), requests)
  {
    TableSchema(Names(key), Names(values), IndexOver(key + values, storage),
      seq(|requests|, i requires 0 <= i < |requests| => Indexed(ColumnMap(key + values), key, requests[i], storage)))
  }

  predicate Buildable(key: seq<Column>, values: seq<Column>, requests: seq<Request>) {
    key != [] && AllKnown(ColumnMap(key + values), requests)
  }

  /** The last of the columns with a name. */
  ghost predicate IsColumn(columns: seq<Column>, name: Id, c: Column) {
    exists i | 0 <= i < |columns| ::
      columns[i] == c && c.name == name && forall j | i < j < |columns| :: columns[j].name != name
  }

  lemma {:induction false} ColumnMapFinds(columns: seq<Column>, name: Id)
    ensures name in ColumnMap(columns) <==> exists i | 0 <= i < |columns| :: columns[i].name == name
    ensures name in ColumnMap(columns) ==> IsColumn(columns, name, ColumnMap(columns)[name])
  {
    if columns != [] {
      var front, last := columns[..|columns| - 1], columns[|columns| - 1];
      ColumnMapFinds(front, name);
      if last.name == name {
        assert columns[|columns| - 1].name == name;
        assert IsColumn(columns, name, last);
      } else {
        if i :| 0 <= i < |front| && front[i].name == name { assert columns[i].name == name; }
        if name in ColumnMap(front) {
          var c := ColumnMap(front)[name];
          var i :| 0 <= i < |front| && front[i] == c && c.name == name
            && forall j | i < j < |front| :: front[j].name != name;
          assert columns[i] == c && forall j | i < j < |columns| :: columns[j].name != name;
        }
      }
    }
  }

  /** An index names columns and their types, in order. */
  predicate IsIndex(index: IndexSchema, columns: seq<Column>, storage: Storage) {
    && |index.names| == |index.types| == |columns| && index.storage == storage
    && forall i | 0 <= i < |columns| :: index.names[i] == columns[i].name && index.types[i] == columns[i].dtype
  }

  /** An index over the columns that a request names, in its order, and then the key. */
  ghost predicate Answers(index: Index, request: Request, columns: seq<Column>, key: seq<Column>, storage: Storage) {
    && index.name == request.name
    && exists named: seq<Column> ::
         && |named| == |request.columns|
         && (forall j | 0 <= j < |named| :: IsColumn(columns, request.columns[j], named[j]))
         && IsIndex(index.schema, named + key, storage)
  }

  /** A schema can be built exactly when it has a key and every column named by a request is one of its
      own. */
  lemma BuildableSays(key: seq<Column>, values: seq<Column>, requests: seq<Request>)
    ensures Buildable(key, values, requests) <==>
      && key != []
      && forall i, j | 0 <= i < |requests| && 0 <= j < |requests[i].columns| ::
           exists c :: c in key + values && c.name == requests[i].columns[j]
  {
    var columns := ColumnMap(key + values);
    forall name: Id ensures name in columns <==> exists c :: c in key + values && c.name == name {
      ColumnMapFinds(key + values, name);
      if c :| c in key + values && c.name == name {
        var i :| 0 <= i < |key + values| && (key + values)[i] == c;
      }
    }
    if AllKnown(columns, requests) {
      forall i, j | 0 <= i < |requests| && 0 <= j < |requests[i].columns|
        ensures exists c :: c in key + values && c.name == requests[i].columns[j]
      {
        assert requests[i].columns[j] in columns;
      }
    }
  }

  /** A built schema holds the names of the key and of the values, one index over all columns, and for each
      request an index over the columns it names and then the key, all with the storage asked for. */
  lemma SchemaIs(key: seq<Column>, values: seq<Column>, requests: seq<Request>, storage: Storage)
    requires Buildable(key, values, requests)
    ensures var schema := SchemaOf(key, values, requests, storage);
      && |schema.key| == |key| && (forall i | 0 <= i < |key| :: schema.key[i] == key[i].name)
      && |schema.values| == |values| && (forall i | 0 <= i < |values| :: schema.values[i] == values[i].name)
      && IsIndex(schema.primary, key + values, storage)
      && |schema.indices| == |requests|
      && forall i | 0 <= i < |requests| :: Answers(schema.indices[i], requests[i], key + values, key, storage)
  {
    var schema := SchemaOf(key, values, requests, storage);
    hide ColumnMap;
    forall i | 0 <= i < |requests| ensures Answers(schema.indices[i], requests[i], key + values, key, storage) {
      IndexAnswers(key, values, requests[i], storage);
    }
  }

  lemma IndexAnswers(key: seq<Column>, values: seq<Column>, request: Request, storage: Storage)
    requires Known(ColumnMap(key + values), request.columns)
    ensures Answers(Indexed(ColumnMap(key + values), key, request, storage), request, key + values, key, storage)
  {
    hide ColumnMap, IsColumn;
    var columns := ColumnMap(key + values);
    var named := Resolved(columns, request.columns);
    forall j | 0 <= j < |named| ensures IsColumn(key + values, request.columns[j], named[j]) {
      assert request.columns[j] in columns;
      ColumnMapFinds(key + values, request.columns[j]);
    }
    assert IsIndex(Indexed(columns, key, request, storage).schema, named + key, storage);
  }

  /** The loop that resolves the columns of one index. */
  method ResolveColumns(columns: map<Id, Column>, request: Request) returns (r: Built<seq<Column>>)
    ensures r.Ok? <==> Known(columns, request.columns)
    ensures r.Ok? ==> r.value == Resolved(columns, request.columns)
    ensures r.Err? ==> r.error.NoSuchColumn? && r.error.index == request.name
    ensures r.Err? ==> r.error.NoSuchColumn? && r.error.column in request.columns && r.error.column !in columns
  {
    var found := [];
    for i := 0 to |request.columns|
      invariant Known(columns, request.columns[..i]) && found == Resolved(columns, request.columns[..i])
    {
      var name := request.columns[i];
      if name !in columns {
        return Err(NoSuchColumn(request.name, name));
      }
      assert request.columns[..i + 1] == request.columns[..i] + [name];
      found := found + [columns[name]];
    }
    assert request.columns[..|request.columns|] == request.columns;
    r := Ok(found);
  }

  /** `TableSchema::new`. */
  method New(key: seq<Column>, values: seq<Column>, requests: seq<Request>, storage: Storage)
    returns (r: Built<TableSchema>)
    ensures r.Ok? <==> Buildable(key, values, requests)
    ensures r.Ok? ==> r.value == SchemaOf(key, values, requests, storage)
    ensures key == [] ==> r == Err(NoKey)
    ensures key != [] && r.Err? ==> r.error.NoSuchColumn? && r.error.column !in Names(key + values)
  {
    if key == [] { return Err(NoKey); }
    var columns: map<Id, Column> := map[];
    var all := key + values;
    for i := 0 to |all|
      invariant columns == ColumnMap(all[..i])
    {
      assert all[..i + 1][..i] == all[..i];
      columns := columns[all[i].name := all[i]];
    }
    assert all[..|all|] == all;
    var primary := NewIndex(all, storage);
    assert primary.Ok?;
    var indices := [];
    for i := 0 to |requests|
      invariant |indices| == i && AllKnown(columns, requests[..i])
      invariant forall j | 0 <= j < i :: indices[j] == Indexed(columns, key, requests[j], storage)
    {
      var found := ResolveColumns(columns, requests[i]);
      if found.Err? {
        ColumnMapNames(all, found.error.column);
        return Err(found.error);
      }
      var schema := NewIndex(found.value + key, storage);
      assert schema.Ok?;
      indices := indices + [Index(requests[i].name, schema.value)];
    }
    r := Ok(TableSchema(Names(key), Names(values), primary.value, indices));
    assert r.value.indices == SchemaOf(key, values, requests, storage).indices;
  }

  // ---------------------------------------------------------------- encoding

  /** The first `n` of a sequence, or all of it. */
  function Take<T>(s: seq<T>, n: nat): seq<T> { if n <= |s| then s[..n] else s }

  /** All but the first `n` of a sequence. */
  function Skip<T>(s: seq<T>, n: nat): seq<T> { if n <= |s| then s[n..] else [] }

  function Zip(names: seq<Id>, types: seq<ValueType>): seq<Column> {
    var n := if |names| < |types| then |names| else |types|;
    seq(n, i requires 0 <= i < n => Column(names[i], types[i]))
  }

  function ColumnValue(c: Column): Value { Tuple([Text(c.name), Class(c.dtype)]) }

  function ColumnListValue(columns: seq<Column>): Value {
    Tuple(seq(|columns|, i requires 0 <= i < |columns| => ColumnValue(columns[i])))
  }

  function NameListValue(names: seq<Id>): Value {
    Tuple(seq(|names|, i requires 0 <= i < |names| => Text(names[i])))
  }

  function RequestValue(request: Request): Value { Tuple([Text(request.name), NameListValue(request.columns)]) }

  /** The request an index came from: its columns without the trailing key. */
  function Stripped(index: Index, keyLen: nat): Request
    requires keyLen <= |index.schema.names|
  {
    Request(index.name, Take(index.schema.names, |index.schema.names| - keyLen))
  }

  function RequestListValue(requests: seq<Request>): Value {
    Tuple(seq(|requests|, i requires 0 <= i < |requests| => RequestValue(requests[i])))
  }

  /** Every index ends with room for the key; `TableSchema::new` builds no other. */
  predicate Wide(schema: TableSchema) {
    forall i | 0 <= i < |schema.indices| :: |schema.key| <= |schema.indices[i].schema.names|
  }

  function StrippedAll(schema: TableSchema): seq<Request>
    requires Wide(schema)
  {
    seq(|schema.indices|, i requires 0 <= i < |schema.indices| => Stripped(schema.indices[i], |schema.key|))
  }

  /** The cast of a schema to a value. */
  function Encode(schema: TableSchema): Value
    requires Wide(schema)
  {
    var n := |schema.key|;
    var key := Zip(schema.key, Take(schema.primary.types, n));
    var values := Zip(schema.values, Skip(schema.primary.types, n));
    Tuple([Tuple([ColumnListValue(key), ColumnListValue(values)]), RequestListValue(StrippedAll(schema))])
  }

  // ---------------------------------------------------------------- decoding

  /** `Column::can_cast_from`, which does not parse the name. */
  predicate CanCastColumn(v: Value) { v.Tuple? && |v.items| == 2 && v.items[0].Text? && v.items[1].Class? }

  function CastColumn(legal: Legal): Value -> Option<Column> {
    (v: Value) =>
      if CanCastColumn(v) && legal(v.items[0].text) then Some(Column(v.items[0].text, v.items[1].dtype)) else None
  }

  function CastName(legal: Legal): Value -> Option<Id> {
    (v: Value) => if v.Text? && legal(v.text) then Some(v.text) else None
  }

  /** The cast of every item, or nothing. */
  function Collect<T>(items: seq<Value>, cast: Value -> Option<T>): (r: Option<seq<T>>)
    ensures r.Some? <==> forall i | 0 <= i < |items| :: cast(items[i]).Some?
    ensures r.Some? ==> |r.value| == |items| && forall i | 0 <= i < |items| :: cast(items[i]) == Some(r.value[i])
  {
    if items == [] then Some([])
    else
      match (cast(items[0]), Collect(items[1..], cast))
      case (Some(first), Some(rest)) => assert items == [items[0]] + items[1..]; Some([first] + rest)
      case (None, _) => None
      case (_, None) =>
        assert exists i | 0 <= i < |items[1..]| :: cast(items[1..][i]) == cast(items[i + 1]) == None;
        None
  }

  function CastRequest(legal: Legal): Value -> Option<Request> {
    (v: Value) =>
      if v.Tuple? && |v.items| == 2 && v.items[0].Text? && v.items[1].Tuple? then
        match Collect(v.items[1].items, CastName(legal))
        case Some(names) => Some(Request(v.items[0].text, names))
        case None => None
      else None
  }

  function CastColumnList(v: Value, legal: Legal): Option<seq<Column>> {
    if v.Tuple? then Collect(v.items, CastColumn(legal)) else None
  }

  function CastIndexList(v: Value, legal: Legal): Option<seq<Request>> {
    match v
    case Absent => Some([])
    case Tuple(items) => Collect(items, CastRequest(legal))
    case _ => None
  }

  predicate Pair(v: Value) { v.Tuple? && |v.items| == 2 }

  /** The cast of a value to a schema, with default storage. */
  function Decode(v: Value, legal: Legal): Option<TableSchema> {
    if !Pair(v) || !Pair(v.items[0]) then None
    else
      match (CastColumnList(v.items[0].items[0], legal), CastColumnList(v.items[0].items[1], legal),
             CastIndexList(v.items[1], legal))
      case (Some(key), Some(values), Some(requests)) =>
        if Buildable(key, values, requests) then Some(SchemaOf(key, values, requests, DEFAULT_STORAGE)) else None
      case _ => None
  }

  // ---------------------------------------------------------------- round trip

  lemma CollectInverse<T>(items: seq<Value>, cast: Value -> Option<T>, expected: seq<T>)
    requires |items| == |expected| && forall i | 0 <= i < |items| :: cast(items[i]) == Some(expected[i])
    ensures Collect(items, cast) == Some(expected)
  {
    var r := Collect(items, cast);
    assert forall i | 0 <= i < |items| :: cast(items[i]).Some?;
    assert forall i | 0 <= i < |items| :: Some(r.value[i]) == Some(expected[i]);
    assert r.value == expected;
  }

  /** Every identifier was parsed once, so every name in a schema is legal. */
  predicate LegalNames(names: seq<Id>, legal: Legal) { forall i | 0 <= i < |names| :: legal(names[i]) }

  lemma ColumnRoundTrip(c: Column, legal: Legal)
    requires legal(c.name)
    ensures CastColumn(legal)(ColumnValue(c)) == Some(c)
  {
    assert CanCastColumn(ColumnValue(c));
  }

  lemma ColumnsRoundTrip(columns: seq<Column>, legal: Legal)
    requires LegalNames(Names(columns), legal)
    ensures CastColumnList(ColumnListValue(columns), legal) == Some(columns)
  {
    var items := ColumnListValue(columns).items;
    forall i | 0 <= i < |columns| ensures CastColumn(legal)(items[i]) == Some(columns[i]) {
      assert legal(Names(columns)[i]);
      ColumnRoundTrip(columns[i], legal);
    }
    CollectInverse(items, CastColumn(legal), columns);
  }

  lemma RequestRoundTrip(request: Request, legal: Legal)
    requires LegalNames(request.columns, legal)
    ensures CastRequest(legal)(RequestValue(request)) == Some(request)
  {
    var items := NameListValue(request.columns).items;
    forall i | 0 <= i < |items| ensures CastName(legal)(items[i]) == Some(request.columns[i]) {
      assert items[i] == Text(request.columns[i]) && legal(request.columns[i]);
    }
    CollectInverse(items, CastName(legal), request.columns);
  }

  /** Stripping the trailing key columns undoes the constructor's appending them, even for an
      index over no columns. */
  lemma StripUndoesAppend(columns: map<Id, Column>, key: seq<Column>, request: Request, storage: Storage)
    requires Known(columns, request.columns)
    requires forall name | name in columns :: columns[name].name == name
    ensures |key| <= |Indexed(columns, key, request, storage).schema.names|
    ensures Stripped(Indexed(columns, key, request, storage), |key|) == request
  {
    var names := Indexed(columns, key, request, storage).schema.names;
    forall i | 0 <= i < |request.columns| ensures names[i] == request.columns[i] {
      assert request.columns[i] in columns;
    }
    assert names[..|request.columns|] == request.columns;
  }

  lemma ColumnsOfPrimary(key: seq<Column>, values: seq<Column>)
    ensures Zip(Names(key), Take(Types(key + values), |key|)) == key
    ensures Zip(Names(values), Skip(Types(key + values), |key|)) == values
  {
  }

  /** What the encoding of a built schema holds: the arguments it was built from. */
  lemma EncodesArguments(key: seq<Column>, values: seq<Column>, requests: seq<Request>, storage: Storage)
    requires Buildable(key, values, requests)
    ensures var schema := SchemaOf(key, values, requests, storage);
      && Wide(schema)
      && Encode(schema) == Tuple([Tuple([ColumnListValue(key), ColumnListValue(values)]), RequestListValue(requests)])
  {
    var schema, columns := SchemaOf(key, values, requests, storage), ColumnMap(key + values);
    forall name | name in columns ensures columns[name].name == name { ColumnMapNames(key + values, name); }
    forall i | 0 <= i < |requests|
      ensures |key| <= |schema.indices[i].schema.names| && Stripped(schema.indices[i], |key|) == requests[i]
    {
      StripUndoesAppend(columns, key, requests[i], storage);
    }
    assert StrippedAll(schema) == requests;
    ColumnsOfPrimary(key, values);
  }

  predicate ListsColumns(v: Value, columns: seq<Column>) {
    && v.Tuple? && |v.items| == |columns|
    && forall i | 0 <= i < |columns| :: v.items[i] == Tuple([Text(columns[i].name), Class(columns[i].dtype)])
  }

  ghost predicate ListsRequest(v: Value, request: Request) {
    exists names: seq<Value> ::
      && v == Tuple([Text(request.name), Tuple(names)]) && |names| == |request.columns|
      && forall j | 0 <= j < |names| :: names[j] == Text(request.columns[j])
  }

  /** The encoding of a built schema is a pair: the key and the value columns, each by name and type, and
      the indices, each by its name and the names of the columns asked for. */
  lemma EncodingIs(key: seq<Column>, values: seq<Column>, requests: seq<Request>, storage: Storage)
    requires Buildable(key, values, requests)
    ensures var schema := SchemaOf(key, values, requests, storage);
      && Wide(schema)
      && var v := Encode(schema);
         && v.Tuple? && |v.items| == 2 && v.items[0].Tuple? && |v.items[0].items| == 2
         && ListsColumns(v.items[0].items[0], key) && ListsColumns(v.items[0].items[1], values)
         && v.items[1].Tuple? && |v.items[1].items| == |requests|
         && forall i | 0 <= i < |requests| :: ListsRequest(v.items[1].items[i], requests[i])
  {
    hide Encode, ListsRequest;
    EncodesArguments(key, values, requests, storage);
    forall i | 0 <= i < |requests| ensures ListsRequest(RequestListValue(requests).items[i], requests[i]) {
      RequestListed(requests[i]);
    }
  }

  lemma RequestListed(request: Request)
    ensures ListsRequest(RequestValue(request), request)
  {
    assert RequestValue(request) == Tuple([Text(request.name), Tuple(NameListValue(request.columns).items)]);
  }

  lemma RequestsRoundTrip(requests: seq<Request>, legal: Legal)
    requires forall i | 0 <= i < |requests| :: LegalNames(requests[i].columns, legal)
    ensures CastIndexList(RequestListValue(requests), legal) == Some(requests)
  {
    var items := RequestListValue(requests).items;
    forall i | 0 <= i < |requests| ensures CastRequest(legal)(items[i]) == Some(requests[i]) {
      RequestRoundTrip(requests[i], legal);
    }
    CollectInverse(items, CastRequest(legal), requests);
  }

  lemma RequestsAreLegal(key: seq<Column>, values: seq<Column>, requests: seq<Request>, legal: Legal)
    requires Buildable(key, values, requests) && LegalNames(Names(key + values), legal)
    ensures LegalNames(Names(key), legal) && LegalNames(Names(values), legal)
    ensures forall i | 0 <= i < |requests| :: LegalNames(requests[i].columns, legal)
  {
    var names := Names(key + values);
    assert names == Names(key) + Names(values);
    assert forall i | 0 <= i < |key| :: names[i] == Names(key)[i];
    assert forall i | 0 <= i < |values| :: names[|key| + i] == Names(values)[i];
    forall i, j | 0 <= i < |requests| && 0 <= j < |requests[i].columns| ensures legal(requests[i].columns[j]) {
      ColumnMapNames(key + values, requests[i].columns[j]);
    }
  }

  /** Decoding the encoding of any schema the constructor builds gives the schema back, with
      its storage reset to the default. */
  lemma EncodeRoundTrip(key: seq<Column>, values: seq<Column>, requests: seq<Request>, storage: Storage, legal: Legal)
    requires Buildable(key, values, requests) && LegalNames(Names(key + values), legal)
    ensures var schema := SchemaOf(key, values, requests, storage);
      && Wide(schema)
      && Decode(Encode(schema), legal) == Some(SchemaOf(key, values, requests, DEFAULT_STORAGE))
      && (Decode(Encode(schema), legal) == Some(schema) <==> storage == DEFAULT_STORAGE == Storage(4096, 64))
  {
    EncodesArguments(key, values, requests, storage);
    RequestsAreLegal(key, values, requests, legal);
    ColumnsRoundTrip(key, legal);
    ColumnsRoundTrip(values, legal);
    RequestsRoundTrip(requests, legal);
  }

  /** Two built schemas have one encoding exactly when they differ in storage alone. */
  lemma EncodingDistinguishes(key: seq<Column>, values: seq<Column>, requests: seq<Request>, storage: Storage,
      key': seq<Column>, values': seq<Column>, requests': seq<Request>, storage': Storage)
    requires Buildable(key, values, requests) && Buildable(key', values', requests')
    ensures var a, b := SchemaOf(key, values, requests, storage), SchemaOf(key', values', requests', storage');
      && Wide(a) && Wide(b)
      && (Encode(a) == Encode(b) <==>
          SchemaOf(key, values, requests, DEFAULT_STORAGE) == SchemaOf(key', values', requests', DEFAULT_STORAGE))
  {
    var legal: Legal := name => true;
    EncodeRoundTrip(key, values, requests, storage, legal);
    EncodeRoundTrip(key', values', requests', storage', legal);
    EncodesArguments(key, values, requests, storage);
    EncodesArguments(key, values, requests, DEFAULT_STORAGE);
    EncodesArguments(key', values', requests', storage');
    EncodesArguments(key', values', requests', DEFAULT_STORAGE);
  }

  // ---------------------------------------------------------------- castability

  predicate IsColumnList(v: Value) { v.Tuple? && forall i | 0 <= i < |v.items| :: CanCastColumn(v.items[i]) }

  predicate IsIndexList(v: Value, legal: Legal) {
    match v
    case Absent => true
    case Tuple(items) => forall i | 0 <= i < |items| :: CastRequest(legal)(items[i]).Some?
    case _ => false
  }

  /** `can_cast_from`. */
  predicate CanDecode(v: Value, legal: Legal) {
    && Pair(v) && Pair(v.items[0])
    && IsColumnList(v.items[0].items[0]) && IsColumnList(v.items[0].items[1]) && IsIndexList(v.items[1], legal)
  }

  /** The names of an encoded list of columns. */
  function ListedNames(list: Value): seq<Id>
    requires IsColumnList(list)
  {
    seq(|list.items|, i requires 0 <= i < |list.items| => list.items[i].items[0].text)
  }

  /** The names of all columns of an encoded schema. */
  function OwnNames(v: Value, legal: Legal): seq<Id>
    requires CanDecode(v, legal)
  {
    ListedNames(v.items[0].items[0]) + ListedNames(v.items[0].items[1])
  }

  /** Every index names only columns of the encoded schema. */
  predicate IndicesNameOwn(v: Value, legal: Legal)
    requires CanDecode(v, legal)
  {
    v.items[1].Tuple? ==> forall i | 0 <= i < |v.items[1].items| ::
      forall name | name in CastRequest(legal)(v.items[1].items[i]).value.columns :: name in OwnNames(v, legal)
  }

  /** A value decodes exactly when it is castable, its key is not empty, every column name parses
      and its indices name only its own columns: the test for castability alone does not say so. */
  lemma DecodesExactly(v: Value, legal: Legal)
    ensures Decode(v, legal).Some? <==>
      && CanDecode(v, legal) && v.items[0].items[0].items != []
      && LegalNames(OwnNames(v, legal), legal) && IndicesNameOwn(v, legal)
  {
    if CanDecode(v, legal) {
      ColumnsCast(v.items[0].items[0], legal);
      ColumnsCast(v.items[0].items[1], legal);
      LegalParts(v, legal);
      if LegalNames(OwnNames(v, legal), legal) { IndicesCast(v, legal); }
    } else if Decode(v, legal).Some? {
      DecodesCastable(v, legal);
      assert false;
    }
  }

  lemma ColumnsCast(list: Value, legal: Legal)
    requires IsColumnList(list)
    ensures CastColumnList(list, legal).Some? <==> LegalNames(ListedNames(list), legal)
    ensures CastColumnList(list, legal).Some? ==> Names(CastColumnList(list, legal).value) == ListedNames(list)
  {
    var cast, names := CastColumn(legal), ListedNames(list);
    forall i | 0 <= i < |list.items| ensures cast(list.items[i]).Some? <==> legal(names[i]) {}
  }

  lemma LegalParts(v: Value, legal: Legal)
    requires CanDecode(v, legal)
    ensures LegalNames(OwnNames(v, legal), legal) <==>
      LegalNames(ListedNames(v.items[0].items[0]), legal) && LegalNames(ListedNames(v.items[0].items[1]), legal)
  {
    var a, b, own := ListedNames(v.items[0].items[0]), ListedNames(v.items[0].items[1]), OwnNames(v, legal);
    assert forall i | 0 <= i < |a| :: own[i] == a[i];
    assert forall i | 0 <= i < |b| :: own[|a| + i] == b[i];
  }

  lemma IndicesCast(v: Value, legal: Legal)
    requires CanDecode(v, legal)
    requires CastColumnList(v.items[0].items[0], legal).Some? && CastColumnList(v.items[0].items[1], legal).Some?
    ensures CastIndexList(v.items[1], legal).Some?
    ensures var key := CastColumnList(v.items[0].items[0], legal).value;
      var values := CastColumnList(v.items[0].items[1], legal).value;
      AllKnown(ColumnMap(key + values), CastIndexList(v.items[1], legal).value) <==> IndicesNameOwn(v, legal)
  {
    var key := CastColumnList(v.items[0].items[0], legal).value;
    var values := CastColumnList(v.items[0].items[1], legal).value;
    ColumnsCast(v.items[0].items[0], legal);
    ColumnsCast(v.items[0].items[1], legal);
    KnownAreNamed(key, values, OwnNames(v, legal));
    hide ColumnMap, OwnNames, CastColumnList;
    if v.items[1].Tuple? {
      var requests := Collect(v.items[1].items, CastRequest(legal)).value;
      assert forall i | 0 <= i < |requests| :: CastRequest(legal)(v.items[1].items[i]) == Some(requests[i]);
      RequestsKnown(ColumnMap(key + values), OwnNames(v, legal), requests);
    }
  }

  lemma KnownAreNamed(key: seq<Column>, values: seq<Column>, names: seq<Id>)
    requires names == Names(key) + Names(values)
    ensures forall name: Id :: name in ColumnMap(key + values) <==> name in names
  {
    assert Names(key + values) == names;
    forall name: Id ensures name in ColumnMap(key + values) <==> name in names { ColumnMapNames(key + values, name); }
  }

  lemma RequestsKnown(columns: map<Id, Column>, names: seq<Id>, requests: seq<Request>)
    requires forall name: Id :: name in columns <==> name in names
    ensures AllKnown(columns, requests) <==>
      forall i | 0 <= i < |requests| :: forall name | name in requests[i].columns :: name in names
  {
    forall i | 0 <= i < |requests|
      ensures Known(columns, requests[i].columns) <==> forall name | name in requests[i].columns :: name in names {}
  }

  lemma DecodesCastable(v: Value, legal: Legal)
    requires Decode(v, legal).Some?
    ensures CanDecode(v, legal)
  {
    forall list | list in v.items[0].items ensures IsColumnList(list) {
      forall i | 0 <= i < |list.items| ensures CanCastColumn(list.items[i]) {
        assert CastColumn(legal)(list.items[i]).Some?;
      }
    }
  }

  /** A castable value that does not decode: a schema without a key. */
  lemma CastableWithoutKey(legal: Legal)
    ensures var v := Tuple([Tuple([Tuple([]), Tuple([])]), Absent]); CanDecode(v, legal) && Decode(v, legal).None?
  {
  }

  /** Another: a schema with a key column whose name does not parse. */
  lemma CastableWithIllegalName(legal: Legal, name: string, dtype: ValueType)
    requires !legal(name)
    ensures var v := Tuple([Tuple([Tuple([Tuple([Text(name), Class(dtype)])]), Tuple([])]), Absent]);
      CanDecode(v, legal) && Decode(v, legal).None?
  {
    var list := Tuple([Tuple([Text(name), Class(dtype)])]);
    ColumnsCast(list, legal);
    assert ListedNames(list)[0] == name;
  }
}
