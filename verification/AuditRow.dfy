/** How `core/audit_store.py` writes an audit entry into typed table columns and reads it back. */
module AuditRow {
  import opened Common
  import opened AuditQuery

  /** The keys of the four event shapes. */
  datatype Field =
    | EventName | Timestamp | RequestId | Tenant | Capability | Risk | Decision | PromptHash | SemanticScore | Origin
    | EducationalContext | DomainScore | SymbolicTriggered | JudgeInvoked | ResponseHash | PiiLeakage
    | SecretsDetected | ToxicityDetected | HallucinationDetected | SystemPromptLeakDetected | Provider | Model
    | Success | LatencyMs | Usage | UsageText | Error | Tool | RiskLevel | Reason | ArgumentsHash

  /** A JSON value of an entry; objects and lists are kept as `Structure`. */
  datatype Value = Null | Bool(b: bool) | Number(n: real) | Text(s: string) | Structure(fields: map<string, string>)

  /** A value as it is bound to a statement and as a column holds it. */
  datatype Cell = SqlNull | SqlInt(i: int) | SqlReal(r: real) | SqlText(t: string)

  type Entry = map<Field, Value>

  /** The declared type of a column, and for INTEGER and JSON text what the code stores in it: booleans as 0
      and 1, and the entry's `usage` encoded into `usage_json`. */
  datatype Kind = TextCol | RealCol | Flag | UsageJson
  datatype Column = Column(name: Field, kind: Kind)

  function GetField(e: Entry, name: Field): Value { if name in e then e[name] else Null }

  /** The key of the entry a column takes its value from. */
  function KeyOf(c: Column): Field { if c.kind.UsageJson? then Usage else c.name }

  predicate Truthy(v: Value) {
    match v
    case Null => false
    case Bool(b) => b
    case Number(n) => n != 0.0
    case Text(s) => s != ""
    case Structure(f) => f != map[]
  }

  /** The library functions in between: the JSON encoder and decoder, the database's text form of a number
      and its reading of a text as a numeral. */
  datatype Library = Library(dumps: Value -> string, loads: string -> Value,
                             render: real -> string, numeral: string -> Option<real>)
  {
    /** The value survives being written as JSON and read again. */
    predicate Faithful(v: Value) { dumps(v) != "" && loads(dumps(v)) == v }
  }

  /** The values Python takes for false. */
  lemma FalseValues(v: Value)
    ensures !Truthy(v) <==> v in {Null, Bool(false), Number(0.0), Text(""), Structure(map[])}
  {
  }

  // ---- Writing ----

  /** The value handed to the database; None is one it refuses to bind, so that the write raises. */
  function Bind(v: Value, kind: Kind, lib: Library): Option<Cell> {
    if v.Null? then Some(SqlNull)
    else
      match kind
      case UsageJson => Some(SqlText(lib.dumps(v)))
      case Flag => Some(SqlInt(if Truthy(v) then 1 else 0))
      case _ =>
        match v
        case Text(s) => Some(SqlText(s))
        case Number(n) => Some(SqlReal(n))
        case Bool(b) => Some(SqlInt(if b then 1 else 0))
        case _ => None
  }

  /** The affinity of the column's declared type: TEXT turns numbers into text, REAL turns integers and
      numerals into reals. */
  function Stored(c: Cell, kind: Kind, lib: Library): Cell {
    match kind
    case RealCol =>
      (match c
       case SqlInt(i) => SqlReal(i as real)
       case SqlText(t) => if lib.numeral(t).Some? then SqlReal(lib.numeral(t).value) else c
       case _ => c)
    case Flag => c
    case _ =>
      match c
      case SqlInt(i) => SqlText(lib.render(i as real))
      case SqlReal(r) => SqlText(lib.render(r))
      case _ => c
  }

  // ---- Reading ----

  function Decode(c: Cell, kind: Kind, lib: Library): Value {
    match kind
    case UsageJson => if c.SqlText? && c.t != "" then lib.loads(c.t) else Null
    case Flag => if c.SqlInt? then Bool(c.i != 0) else Plainly(c)
    case _ => Plainly(c)
  }

  function Plainly(c: Cell): Value {
    match c
    case SqlNull => Null
    case SqlInt(i) => Number(i as real)
    case SqlReal(r) => Number(r)
    case SqlText(t) => Text(t)
  }

  /** What is read back for a value; None when the write raises. */
  function RoundTrip(v: Value, kind: Kind, lib: Library): Option<Value> {
    match Bind(v, kind, lib)
    case None => None
    case Some(c) => Some(Decode(Stored(c, kind, lib), kind, lib))
  }

  /** The values that a column of each kind reads back as they were. */
  predicate Fits(v: Value, kind: Kind, lib: Library) {
    match kind
    case UsageJson => true
    case Flag => v.Null? || v.Bool?
    case TextCol => v.Null? || v.Text?
    case RealCol => v.Null? || v.Number? || (v.Text? && lib.numeral(v.s).None?)
  }

  /** A column reads back exactly what was written if and only if the value fits it.  Of the others, a flag
      column keeps the truth value, a text column the text of a number, a real column the number of a numeral
      or a truth value; only an object or a list in a text or real column makes the write raise. */
  lemma ColumnRoundTrip(v: Value, kind: Kind, lib: Library)
    requires kind.UsageJson? ==> lib.Faithful(v)
    ensures RoundTrip(v, kind, lib) == Some(v) <==> Fits(v, kind, lib)
    ensures RoundTrip(v, kind, lib).None? <==> (kind.TextCol? || kind.RealCol?) && v.Structure?
    ensures kind.Flag? && !v.Null? ==> RoundTrip(v, kind, lib) == Some(Bool(Truthy(v)))
    ensures kind.TextCol? && v.Number? ==> RoundTrip(v, kind, lib) == Some(Text(lib.render(v.n)))
    ensures kind.RealCol? && v.Text? && lib.numeral(v.s).Some? ==>
              RoundTrip(v, kind, lib) == Some(Number(lib.numeral(v.s).value))
    ensures kind.TextCol? && v.Bool? ==> RoundTrip(v, kind, lib) == Some(Text(lib.render(if v.b then 1.0 else 0.0)))
    ensures kind.RealCol? && v.Bool? ==> RoundTrip(v, kind, lib) == Some(Number(if v.b then 1.0 else 0.0))
  {
  }

  // ---- Rows ----

  /** The values of an entry in column order, or None as soon as one of them cannot be bound. */
  method CoerceRow(columns: seq<Column>, entry: Entry, lib: Library) returns (cells: Option<seq<Cell>>)
    ensures cells.None? <==> exists c :: c in columns && Bind(GetField(entry, KeyOf(c)), c.kind, lib).None?
    ensures cells.Some? ==> |cells.value| == |columns|
    ensures cells.Some? ==> forall i :: 0 <= i < |columns| ==>
              Bind(GetField(entry, KeyOf(columns[i])), columns[i].kind, lib) == Some(cells.value[i])
  {
    var values := [];
    for i := 0 to |columns|
      invariant |values| == i
      invariant forall k :: 0 <= k < i ==>
                  Bind(GetField(entry, KeyOf(columns[k])), columns[k].kind, lib) == Some(values[k])
    {
      var bound := Bind(GetField(entry, KeyOf(columns[i])), columns[i].kind, lib);
      if bound.None? {
        assert columns[i] in columns;
        return None;
      }
      values := values + [bound.value];
    }
    cells := Some(values);
  }

  /** Column names are distinct, also after `usage_json` is read back as `usage`, and none is `event_type`, which
      every table fills in itself. */
  ghost predicate DistinctColumns(columns: seq<Column>) {
    && (forall i, j :: 0 <= i < j < |columns| ==> KeyOf(columns[i]) != KeyOf(columns[j]))
    && forall i :: 0 <= i < |columns| ==> KeyOf(columns[i]) != EventName
  }

  /** The record read back, with the event type that its table defaults to; a column that exists keeps its key
      even when it is null, so the defaults for `tenant` and `capability` are never filled in. */
  method RowToRecord(table: string, columns: seq<Column>, cells: seq<Cell>, lib: Library) returns (record: Entry)
    requires |cells| == |columns| && DistinctColumns(columns)
    ensures record.Keys == {EventName} + set c | c in columns :: KeyOf(c)
    ensures record[EventName] == Text(table)
    ensures forall i :: 0 <= i < |columns| ==>
              KeyOf(columns[i]) in record
              && record[KeyOf(columns[i])] == Decode(Stored(cells[i], columns[i].kind, lib), columns[i].kind, lib)
  {
    record := map[EventName := Text(table)];
    for i := 0 to |columns|
      invariant record.Keys == {EventName} + set c | c in columns[..i] :: KeyOf(c)
      invariant record[EventName] == Text(table)
      invariant forall k :: 0 <= k < i ==>
                  KeyOf(columns[k]) in record
                  && record[KeyOf(columns[k])] == Decode(Stored(cells[k], columns[k].kind, lib), columns[k].kind, lib)
    {
      assert columns[..i + 1] == columns[..i] + [columns[i]];
      record := record[KeyOf(columns[i]) := Decode(Stored(cells[i], columns[i].kind, lib), columns[i].kind, lib)];
    }
    assert columns[..|columns|] == columns;
  }

  /** The record names its table, and every column reads back the round trip of its value: the value itself
      exactly where it fits. */
  ghost predicate ReadBack(table: string, columns: seq<Column>, entry: Entry, record: Entry, lib: Library) {
    && record.Keys == {EventName} + (set c | c in columns :: KeyOf(c))
    && record[EventName] == Text(table)
    && forall c :: c in columns ==>
         && Some(record[KeyOf(c)]) == RoundTrip(GetField(entry, KeyOf(c)), c.kind, lib)
         && (record[KeyOf(c)] == GetField(entry, KeyOf(c)) <==> Fits(GetField(entry, KeyOf(c)), c.kind, lib))
  }

  /** The columns that hold an object or a list where the database takes none. */
  ghost predicate Raises(columns: seq<Column>, entry: Entry) {
    exists c :: c in columns && (c.kind.TextCol? || c.kind.RealCol?) && GetField(entry, KeyOf(c)).Structure?
  }

  /** The whole way: the write raises exactly for such a column, and otherwise the row reads back as above. */
  method StoreAndLoad(table: string, columns: seq<Column>, entry: Entry, lib: Library) returns (record: Option<Entry>)
    requires lib.Faithful(GetField(entry, Usage)) && DistinctColumns(columns)
    ensures record.None? <==> Raises(columns, entry)
    ensures record.Some? ==> ReadBack(table, columns, entry, record.value, lib)
  {
    forall c | c in columns
      ensures RoundTrip(GetField(entry, KeyOf(c)), c.kind, lib) == Some(GetField(entry, KeyOf(c)))
              <==> Fits(GetField(entry, KeyOf(c)), c.kind, lib)
      ensures Bind(GetField(entry, KeyOf(c)), c.kind, lib).None?
              <==> (c.kind.TextCol? || c.kind.RealCol?) && GetField(entry, KeyOf(c)).Structure?
    {
      ColumnRoundTrip(GetField(entry, KeyOf(c)), c.kind, lib);
    }
    var cells := CoerceRow(columns, entry, lib);
    if cells.None? {
      return None;
    }
    var row := RowToRecord(table, columns, cells.value, lib);
    forall c | c in columns ensures Some(row[KeyOf(c)]) == RoundTrip(GetField(entry, KeyOf(c)), c.kind, lib) {
      var i :| 0 <= i < |columns| && columns[i] == c;
    }
    record := Some(row);
  }

  // ---- The four event shapes ----

  function T(name: Field): Column { Column(name, TextCol) }
  function R(name: Field): Column { Column(name, RealCol) }
  function F(name: Field): Column { Column(name, Flag) }

  function ColumnsOf(et: EventType): seq<Column> {
    match et
    case InputAssessment =>
      [T(Timestamp), T(RequestId), T(Tenant), T(Capability), T(Risk), T(Decision), T(PromptHash), R(SemanticScore),
       T(Origin), F(EducationalContext), R(DomainScore), F(SymbolicTriggered), F(JudgeInvoked)]
    case OutputAssessment =>
      [T(Timestamp), T(RequestId), T(Tenant), T(Capability), T(Decision), T(ResponseHash), F(PiiLeakage),
       F(SecretsDetected), F(ToxicityDetected), F(HallucinationDetected), F(SystemPromptLeakDetected), T(Origin)]
    case GatewayCall =>
      [T(Timestamp), T(RequestId), T(Tenant), T(Capability), T(Provider), T(Model), F(Success), R(LatencyMs),
       T(Decision), Column(UsageText, UsageJson), T(Error)]
    case ToolCall =>
      [T(Timestamp), T(RequestId), T(Tenant), T(Capability), T(Tool), T(Decision), T(RiskLevel), T(Reason),
       T(ArgumentsHash), F(Success), T(Error)]
  }

  // ---- What the loggers write ----

  /** The kinds of value the loggers put in: a text, a number, a truth value, or whatever the provider reported.
      Each may be null. */
  datatype Sort = TextSort | NumberSort | TruthSort | AnySort

  predicate OfSort(v: Value, sort: Sort) {
    v.Null? || match sort
               case TextSort => v.Text?
               case NumberSort => v.Number?
               case TruthSort => v.Bool?
               case AnySort => true
  }

  type Shape = seq<(Field, Sort)>

  /** The fields of the four audit entries, in the order in which the loggers build them. */
  function Logged(et: EventType): Shape {
    match et
    case InputAssessment =>
      [(Timestamp, TextSort), (EventName, TextSort), (RequestId, TextSort), (Tenant, TextSort), (Capability, TextSort),
       (Risk, TextSort), (Decision, TextSort), (PromptHash, TextSort), (SemanticScore, NumberSort), (Origin, TextSort),
       (EducationalContext, TruthSort), (DomainScore, NumberSort), (SymbolicTriggered, TruthSort),
       (JudgeInvoked, TruthSort)]
    case OutputAssessment =>
      [(Timestamp, TextSort), (EventName, TextSort), (RequestId, TextSort), (Tenant, TextSort), (Capability, TextSort),
       (Decision, TextSort), (ResponseHash, TextSort), (PiiLeakage, TruthSort), (SecretsDetected, TruthSort),
       (ToxicityDetected, TruthSort), (HallucinationDetected, TruthSort), (SystemPromptLeakDetected, TruthSort),
       (Origin, TextSort)]
    case GatewayCall =>
      [(Timestamp, TextSort), (EventName, TextSort), (RequestId, TextSort), (Tenant, TextSort), (Capability, TextSort),
       (Provider, TextSort), (Model, TextSort), (Success, TruthSort), (LatencyMs, NumberSort), (Decision, TextSort),
       (Usage, AnySort), (Error, TextSort)]
    case ToolCall =>
      [(Timestamp, TextSort), (EventName, TextSort), (RequestId, TextSort), (Tenant, TextSort), (Capability, TextSort),
       (Tool, TextSort), (Decision, TextSort), (RiskLevel, TextSort), (Reason, TextSort), (ArgumentsHash, TextSort),
       (Success, TruthSort), (Error, TextSort)]
  }

  /** An entry with exactly the fields of a shape, with values of their sorts. */
  ghost predicate Shaped(shape: Shape, table: string, entry: Entry) {
    && (forall f :: f in entry <==> exists i :: 0 <= i < |shape| && shape[i].0 == f)
    && (forall i :: 0 <= i < |shape| ==> shape[i].0 in entry && OfSort(entry[shape[i].0], shape[i].1))
    && EventName in entry && entry[EventName] == Text(table)
  }

  /** An entry as the logger of that event builds it. */
  ghost predicate LoggedBy(et: EventType, entry: Entry) { Shaped(Logged(et), NameOf(et), entry) }

  predicate Suits(kind: Kind, sort: Sort) {
    match sort
    case TextSort => kind.TextCol?
    case NumberSort => kind.RealCol?
    case TruthSort => kind.Flag?
    case AnySort => kind.UsageJson?
  }

  /** The place of column i among the logged fields, which have the event type in second place as well. */
  function LoggedAt(i: nat): nat { if i == 0 then 0 else i + 1 }

  /** Every logged field has its column, of the type that suits it, and there is no other column. */
  ghost predicate Agree(columns: seq<Column>, shape: Shape) {
    && |shape| == |columns| + 1 && |columns| > 0 && shape[1].0 == EventName
    && forall i :: 0 <= i < |columns| ==>
         KeyOf(columns[i]) == shape[LoggedAt(i)].0 && Suits(columns[i].kind, shape[LoggedAt(i)].1)
  }

  /** The schema and the loggers agree. */
  lemma ColumnsSuitTheLoggers(et: EventType)
    ensures Agree(ColumnsOf(et), Logged(et))
  {
    OneMoreField(et);
    forall i | 0 <= i < |ColumnsOf(et)| ensures SuitsAt(et, i) {
      match et
      case InputAssessment => InputSuits(i);
      case OutputAssessment => OutputSuits(i);
      case GatewayCall => GatewaySuits(i);
      case ToolCall => ToolSuits(i);
    }
    AgreeAt(ColumnsOf(et), Logged(et), et);
  }

  /** Column i is that of its logged field. */
  ghost predicate SuitsAt(et: EventType, i: nat)
    requires i < |ColumnsOf(et)|
  {
    && LoggedAt(i) < |Logged(et)|
    && KeyOf(ColumnsOf(et)[i]) == Logged(et)[LoggedAt(i)].0
    && Suits(ColumnsOf(et)[i].kind, Logged(et)[LoggedAt(i)].1)
  }

  lemma AgreeAt(columns: seq<Column>, shape: Shape, et: EventType)
    requires columns == ColumnsOf(et) && shape == Logged(et) && |shape| == |columns| + 1 > 1 && shape[1].0 == EventName
    requires forall i :: 0 <= i < |columns| ==> SuitsAt(et, i)
    ensures Agree(columns, shape)
  {
    forall i | 0 <= i < |columns|
      ensures KeyOf(columns[i]) == shape[LoggedAt(i)].0 && Suits(columns[i].kind, shape[LoggedAt(i)].1)
    {
      assert SuitsAt(et, i);
    }
  }

  lemma OneMoreField(et: EventType)
    ensures |Logged(et)| == |ColumnsOf(et)| + 1 > 1 && Logged(et)[1].0 == EventName
  {
  }

  lemma InputSuits(i: nat)
    requires i < |ColumnsOf(InputAssessment)|
    ensures SuitsAt(InputAssessment, i)
  {
  }

  lemma OutputSuits(i: nat)
    requires i < |ColumnsOf(OutputAssessment)|
    ensures SuitsAt(OutputAssessment, i)
  {
  }

  lemma GatewaySuits(i: nat)
    requires i < |ColumnsOf(GatewayCall)|
    ensures SuitsAt(GatewayCall, i)
  {
  }

  lemma ToolSuits(i: nat)
    requires i < |ColumnsOf(ToolCall)|
    ensures SuitsAt(ToolCall, i)
  {
  }

  lemma ShapedIsStored(columns: seq<Column>, shape: Shape, table: string, entry: Entry)
    requires Agree(columns, shape) && Shaped(shape, table, entry)
    ensures !Raises(columns, entry)
  {
    forall c | c in columns ensures GetField(entry, KeyOf(c)).Structure? ==> c.kind.UsageJson? {
      var i :| 0 <= i < |columns| && columns[i] == c;
      assert OfSort(entry[shape[LoggedAt(i)].0], shape[LoggedAt(i)].1);
    }
  }

  /** The column of a logged field. */
  lemma ColumnOf(columns: seq<Column>, shape: Shape, f: Field, i: nat) returns (c: Column)
    requires Agree(columns, shape) && i < |shape| && shape[i].0 == f && i != 1
    ensures c in columns && KeyOf(c) == f && Suits(c.kind, shape[i].1)
  {
    c := columns[if i == 0 then 0 else i - 1];
  }

  lemma SuitedIsBack(columns: seq<Column>, shape: Shape, table: string, entry: Entry, record: Entry, lib: Library,
                     i: nat)
    requires Agree(columns, shape) && Shaped(shape, table, entry) && ReadBack(table, columns, entry, record, lib)
    requires i < |shape|
    ensures shape[i].0 in record && record[shape[i].0] == entry[shape[i].0]
  {
    if i != 1 {
      var c := ColumnOf(columns, shape, shape[i].0, i);
      assert Fits(GetField(entry, KeyOf(c)), c.kind, lib);
    }
  }

  lemma NothingElse(columns: seq<Column>, shape: Shape, table: string, entry: Entry, record: Entry, lib: Library,
                    f: Field)
    requires Agree(columns, shape) && Shaped(shape, table, entry) && ReadBack(table, columns, entry, record, lib)
    requires f in record
    ensures f in entry
  {
    if f != EventName {
      var c :| c in columns && KeyOf(c) == f;
      var i :| 0 <= i < |columns| && columns[i] == c;
      assert shape[LoggedAt(i)].0 == f;
    }
  }

  /** Whatever is shaped as its table's logger writes it is read back as it was, every field and nothing else. */
  lemma ShapedRoundTrips(columns: seq<Column>, shape: Shape, table: string, entry: Entry, record: Entry, lib: Library)
    requires Agree(columns, shape) && Shaped(shape, table, entry) && ReadBack(table, columns, entry, record, lib)
    ensures record == entry
  {
    forall f | f in record ensures f in entry { NothingElse(columns, shape, table, entry, record, lib, f); }
    forall f | f in entry ensures f in record && record[f] == entry[f] {
      var i :| 0 <= i < |shape| && shape[i].0 == f;
      SuitedIsBack(columns, shape, table, entry, record, lib, i);
    }
  }

  lemma ShapesAreDistinct(et: EventType)
    ensures DistinctColumns(ColumnsOf(et))
  {
    var columns := ColumnsOf(et);
    forall i, j | 0 <= i < j < |columns| ensures KeyOf(columns[i]) != KeyOf(columns[j]) {
    }
  }

  /** An audit entry of any of the four shapes: the write raises exactly for an object or a list in a text or
      real column; otherwise every field its table has a column for comes back as it was exactly when it
      fits, what the entry lacks comes back as null, and the event type is the name of the table.  What the loggers
      write comes back entirely. */
  method WriteAndRead(et: EventType, entry: Entry, lib: Library) returns (record: Option<Entry>)
    requires lib.Faithful(GetField(entry, Usage))
    ensures record.None? <==> Raises(ColumnsOf(et), entry)
    ensures record.Some? ==> ReadBack(NameOf(et), ColumnsOf(et), entry, record.value, lib)
    ensures LoggedBy(et, entry) ==> record == Some(entry)
  {
    ShapesAreDistinct(et);
    record := StoreAndLoad(NameOf(et), ColumnsOf(et), entry, lib);
    if LoggedBy(et, entry) {
      ColumnsSuitTheLoggers(et);
      ShapedIsStored(ColumnsOf(et), Logged(et), NameOf(et), entry);
      ShapedRoundTrips(ColumnsOf(et), Logged(et), NameOf(et), entry, record.value, lib);
    }
  }

  /** What the JSONL reader shows as the tenant. */
  function JsonlTenant(entry: Entry): Value { if Tenant in entry then entry[Tenant] else Text("unset") }

  lemma EveryShapeHasATenant(et: EventType)
    ensures T(Tenant) in ColumnsOf(et)
  {
    assert ColumnsOf(et)[2] == T(Tenant);
  }

  /** For every entry that can be stored in a table with a tenant column, as all four are, the two readers
      agree on the tenant exactly when the entry has one and it is null or a text: a missing one is null here
      and "unset" there, a number is a text here and a number there. */
  lemma ReadersAgreeOnTenant(table: string, columns: seq<Column>, entry: Entry, record: Entry, lib: Library)
    requires T(Tenant) in columns && ReadBack(table, columns, entry, record, lib)
    ensures Tenant in record
    ensures Tenant !in entry ==> record[Tenant] == Null && JsonlTenant(entry) == Text("unset")
    ensures record[Tenant] == JsonlTenant(entry) <==> Tenant in entry && (entry[Tenant].Null? || entry[Tenant].Text?)
  {
    var c := T(Tenant);
    assert KeyOf(c) == Tenant;
    assert Some(record[Tenant]) == RoundTrip(GetField(entry, Tenant), TextCol, lib);
  }
}
