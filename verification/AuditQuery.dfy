/** The "most recent" query of `core/audit_store.py`: the newest rows by id of each table, merged,
    sorted by time stamp and cut, against the newest rows of all the tables together. */
module AuditQuery {
  import opened Common
  import opened Lines
  import opened OrderedDicts

  /** The four typed tables, in the order of their names. */
  datatype EventType = GatewayCall | InputAssessment | OutputAssessment | ToolCall

  function Rank(et: EventType): int {
    match et
    case GatewayCall => 0
    case InputAssessment => 1
    case OutputAssessment => 2
    case ToolCall => 3
  }

  /** The name of an event type, which is also that of its table. */
  function NameOf(et: EventType): string {
    match et
    case GatewayCall => "gateway_call"
    case InputAssessment => "input_assessment"
    case OutputAssessment => "output_assessment"
    case ToolCall => "tool_call"
  }

  /** Text order. */
  predicate TextBefore(a: string, b: string) {
    b != "" && (a == "" || a[0] < b[0] || (a[0] == b[0] && TextBefore(a[1..], b[1..])))
  }

  /** Event types are ranked by the text order of their names. */
  lemma RankIsTextOrder(a: EventType, b: EventType)
    ensures Rank(a) < Rank(b) <==> TextBefore(NameOf(a), NameOf(b))
  {
    if a == b { NotBeforeItself(NameOf(a)); }
  }

  lemma {:induction false} NotBeforeItself(a: string)
    ensures !TextBefore(a, a)
  {
    if a != "" { NotBeforeItself(a[1..]); }
  }

  /** `stamp` is the place of the time stamp in text order; a missing one sorts first. */
  datatype Row = Row(id: nat, stamp: nat, et: EventType, tenant: Option<string>, requestId: Option<string>)

  type Table = seq<Row>
  type Tables = EventType -> Table

  /** A table as AUTOINCREMENT fills it. */
  ghost predicate ValidTable(t: Table, et: EventType) {
    && (forall i :: 0 <= i < |t| ==> t[i].et == et)
    && (forall i, j :: 0 <= i < j < |t| ==> t[i].id < t[j].id)
  }

  /** Rows are written with time stamps that do not go back. */
  ghost predicate Chronological(t: Table) {
    forall i, j :: 0 <= i < j < |t| ==> t[i].stamp <= t[j].stamp
  }

  // ---- The order of the answer ----

  /** The sort key (time stamp, event type), and the order of ids within one key. */
  predicate KeyAbove(a: Row, b: Row) { a.stamp > b.stamp || (a.stamp == b.stamp && Rank(a.et) > Rank(b.et)) }
  predicate SameKey(a: Row, b: Row) { a.stamp == b.stamp && a.et == b.et }
  predicate Later(a: Row, b: Row) { KeyAbove(a, b) || (SameKey(a, b) && a.id > b.id) }

  ghost predicate NewestFirst(s: seq<Row>) { forall i, j :: 0 <= i < j < |s| ==> Later(s[i], s[j]) }

  /** Newest first, on the rows themselves: time stamps fall, the names of equal stamps fall, and the ids of equal
      names. */
  ghost predicate Falling(s: seq<Row>) {
    forall i, j :: 0 <= i < j < |s| ==>
      && s[i].stamp >= s[j].stamp
      && (s[i].stamp == s[j].stamp ==> !TextBefore(NameOf(s[i].et), NameOf(s[j].et)))
      && (s[i].stamp == s[j].stamp && s[i].et == s[j].et ==> s[i].id > s[j].id)
  }

  lemma NewestFirstIsFalling(s: seq<Row>)
    requires NewestFirst(s)
    ensures Falling(s)
  {
    forall i, j | 0 <= i < j < |s| { RankIsTextOrder(s[i].et, s[j].et); }
  }

  /** The rows a query is about. */
  ghost predicate InPool(tables: Tables, wanted: seq<EventType>, tenant: Option<string>, r: Row) {
    r.et in wanted && r in tables(r.et) && (tenant == None || r.tenant == Some(tenant.value))
  }

  predicate Matches(r: Row, tenant: Option<string>) { tenant.Some? ==> r.tenant == tenant }

  /** The plain reading of "the newest `limit` of them": in order, all from the pool, and nothing left out
      but rows older than a full answer. */
  ghost predicate NewestOf(events: seq<Row>, tables: Tables, wanted: seq<EventType>, tenant: Option<string>,
                           limit: nat)
  {
    && NewestFirst(events)
    && |events| <= limit
    && (forall r :: r in events ==> InPool(tables, wanted, tenant, r))
    && (forall r :: InPool(tables, wanted, tenant, r) && r !in events ==>
          |events| == limit && forall e :: e in events ==> Later(e, r))
  }

  // ---- One table: WHERE tenant, ORDER BY id DESC, LIMIT ----

  function Where(t: Table, tenant: Option<string>): (r: Table)
    ensures forall x :: x in r <==> x in t && Matches(x, tenant)
  {
    if t == [] then []
    else
      assert t == [t[0]] + t[1..];
      (if Matches(t[0], tenant) then [t[0]] else []) + Where(t[1..], tenant)
  }

  function Backwards(t: Table): (r: Table)
    ensures |r| == |t|
    ensures forall i :: 0 <= i < |t| ==> r[i] == t[|t| - 1 - i]
  {
    if t == [] then [] else Backwards(t[1..]) + [t[0]]
  }

  function SelectNewest(t: Table, tenant: Option<string>, limit: nat): Table {
    Take(Backwards(Where(t, tenant)), limit)
  }

  lemma HeadIsFirst(t: Table, et: EventType, x: Row)
    requires ValidTable(t, et) && t != [] && x in t[1..]
    ensures t[0].id < x.id && (Chronological(t) ==> t[0].stamp <= x.stamp)
  {
    var j :| 0 <= j < |t[1..]| && t[1..][j] == x;
    assert t[j + 1] == x;
  }

  lemma {:induction false} WhereKeepsOrder(t: Table, tenant: Option<string>, et: EventType)
    requires ValidTable(t, et)
    ensures ValidTable(Where(t, tenant), et)
  {
    if t != [] {
      WhereKeepsOrder(t[1..], tenant, et);
      var rest := Where(t[1..], tenant);
      forall i | 0 <= i < |rest| ensures t[0].id < rest[i].id { HeadIsFirst(t, et, rest[i]); }
      OlderFirst(t[0], rest, et);
    }
  }

  lemma OlderFirst(x: Row, rest: Table, et: EventType)
    requires ValidTable(rest, et) && x.et == et && forall i :: 0 <= i < |rest| ==> x.id < rest[i].id
    ensures ValidTable([x] + rest, et)
  {
  }

  lemma {:induction false} WhereKeepsChronology(t: Table, tenant: Option<string>, et: EventType)
    requires ValidTable(t, et) && Chronological(t)
    ensures Chronological(Where(t, tenant))
  {
    if t != [] {
      WhereKeepsChronology(t[1..], tenant, et);
      var rest := Where(t[1..], tenant);
      forall i | 0 <= i < |rest| ensures t[0].stamp <= rest[i].stamp { HeadIsFirst(t, et, rest[i]); }
    }
  }

  lemma InTake<T>(s: seq<T>, n: nat, i: nat)
    requires i < |s| && i < n
    ensures s[i] in Take(s, n)
  {
    assert Take(s, n)[i] == s[i];
  }

  /** A selection is in descending id order; whatever matches and was cut off is older than each of the
      `limit` rows selected. */
  lemma SelectedRows(t: Table, tenant: Option<string>, limit: nat, et: EventType)
    requires ValidTable(t, et)
    ensures var s := SelectNewest(t, tenant, limit);
            && (forall x :: x in s ==> x in t && Matches(x, tenant))
            && (forall i, j :: 0 <= i < j < |s| ==> s[i].id > s[j].id)
            && (forall x :: x in t && Matches(x, tenant) && x !in s ==>
                  |s| == limit && forall y :: y in s ==> y.id > x.id && (Chronological(t) ==> Later(y, x)))
  {
    WhereKeepsOrder(t, tenant, et);
    if Chronological(t) { WhereKeepsChronology(t, tenant, et); }
    var w, s := Where(t, tenant), SelectNewest(t, tenant, limit);
    SelectionDescends(w, limit, et);
    forall x | x in w && x !in s
      ensures |s| == limit && forall y :: y in s ==> y.id > x.id && (Chronological(t) ==> Later(y, x))
    {
      CutOffIsOlder(w, limit, x, et);
    }
  }

  lemma SelectionDescends(w: Table, limit: nat, et: EventType)
    requires ValidTable(w, et)
    ensures var s := Take(Backwards(w), limit);
            && (forall x :: x in s ==> x in w)
            && (forall i, j :: 0 <= i < j < |s| ==> s[i].id > s[j].id)
  {
    var s := Take(Backwards(w), limit);
    assert forall i :: 0 <= i < |s| ==> s[i] == w[|w| - 1 - i];
  }

  lemma CutOffIsOlder(w: Table, limit: nat, x: Row, et: EventType)
    requires ValidTable(w, et) && x in w && x !in Take(Backwards(w), limit)
    ensures |Take(Backwards(w), limit)| == limit
    ensures forall y :: y in Take(Backwards(w), limit) ==> y.id > x.id && (Chronological(w) ==> Later(y, x))
  {
    var b, s := Backwards(w), Take(Backwards(w), limit);
    var k :| 0 <= k < |w| && w[k] == x;
    var at := |w| - 1 - k;
    assert b[at] == x;
    if at < limit { InTake(b, limit, at); }
    forall y | y in s ensures y.id > x.id && (Chronological(w) ==> Later(y, x)) {
      var i :| 0 <= i < |s| && s[i] == y;
      assert w[|w| - 1 - i] == y;
    }
  }

  // ---- Sorting ----

  /** Stable, descending by key: an element goes before the first one whose key is not above its own. */
  function InsertByKey(x: Row, s: seq<Row>): (r: seq<Row>)
    ensures forall y :: y in r <==> y == x || y in s
    ensures |r| == |s| + 1
  {
    if s == [] || !KeyAbove(s[0], x) then [x] + s
    else
      assert s == [s[0]] + s[1..];
      [s[0]] + InsertByKey(x, s[1..])
  }

  function SortByKey(s: seq<Row>): (r: seq<Row>)
    ensures forall y :: y in r <==> y in s
    ensures |r| == |s|
  {
    if s == [] then []
    else
      assert s == [s[0]] + s[1..];
      InsertByKey(s[0], SortByKey(s[1..]))
  }

  /** Rows with the same key come in descending id order. */
  ghost predicate TiesById(s: seq<Row>) {
    forall i, j :: 0 <= i < j < |s| && SameKey(s[i], s[j]) ==> s[i].id > s[j].id
  }

  lemma {:induction false} InsertKeepsNewestFirst(x: Row, s: seq<Row>)
    requires NewestFirst(s)
    requires forall y :: y in s && SameKey(x, y) ==> x.id > y.id
    ensures NewestFirst(InsertByKey(x, s))
  {
    if s != [] && KeyAbove(s[0], x) {
      InsertKeepsNewestFirst(x, s[1..]);
      var r := InsertByKey(x, s[1..]);
      forall y | y in r ensures Later(s[0], y) {
        if y != x { var j :| 0 <= j < |s[1..]| && s[1..][j] == y; assert s[j + 1] == y; }
      }
    } else if s != [] {
      forall j | 0 <= j < |s| ensures Later(x, s[j]) {
        assert j > 0 ==> Later(s[0], s[j]);
        assert s[j] in s;
      }
    }
  }

  lemma {:induction false} SortIsNewestFirst(s: seq<Row>)
    requires TiesById(s)
    ensures NewestFirst(SortByKey(s))
  {
    if s != [] {
      SortIsNewestFirst(s[1..]);
      forall y | y in SortByKey(s[1..]) && SameKey(s[0], y) ensures s[0].id > y.id {
        var j :| 0 <= j < |s[1..]| && s[1..][j] == y;
        assert s[j + 1] == y;
      }
      InsertKeepsNewestFirst(s[0], SortByKey(s[1..]));
    }
  }

  // ---- The query ----

  /** The per-table selections one after the other, in the order the tables are visited. */
  function Gathered(tables: Tables, wanted: seq<EventType>, tenant: Option<string>, limit: nat): seq<Row> {
    if wanted == [] then []
    else SelectNewest(tables(wanted[0]), tenant, limit) + Gathered(tables, wanted[1..], tenant, limit)
  }

  ghost predicate ValidTables(tables: Tables) { forall et :: ValidTable(tables(et), et) }

  lemma {:induction false} GatheredRows(tables: Tables, wanted: seq<EventType>, tenant: Option<string>, limit: nat)
    requires ValidTables(tables)
    ensures forall x :: x in Gathered(tables, wanted, tenant, limit) <==>
              x.et in wanted && x in SelectNewest(tables(x.et), tenant, limit)
  {
    if wanted != [] {
      GatheredRows(tables, wanted[1..], tenant, limit);
      assert wanted == [wanted[0]] + wanted[1..];
      forall x | x in SelectNewest(tables(wanted[0]), tenant, limit) ensures x.et == wanted[0] {
        SelectedRows(tables(wanted[0]), tenant, limit, wanted[0]);
      }
    }
  }

  lemma {:induction false} GatheredTies(tables: Tables, wanted: seq<EventType>, tenant: Option<string>, limit: nat)
    requires ValidTables(tables) && Distinct(wanted)
    ensures TiesById(Gathered(tables, wanted, tenant, limit))
  {
    if wanted != [] {
      var et := wanted[0];
      var head, rest := SelectNewest(tables(et), tenant, limit), Gathered(tables, wanted[1..], tenant, limit);
      GatheredTies(tables, wanted[1..], tenant, limit);
      GatheredRows(tables, wanted[1..], tenant, limit);
      SelectedRows(tables(et), tenant, limit, et);
      assert et !in wanted[1..];
      assert forall i :: 0 <= i < |head| ==> head[i] in head && head[i].et == et;
      assert forall j :: 0 <= j < |rest| ==> rest[j] in rest && rest[j].et != et;
    }
  }

  /** One query per table. */
  method GatherRows(tables: Tables, wanted: seq<EventType>, tenant: Option<string>, limit: nat) returns (rows: seq<Row>)
    ensures rows == Gathered(tables, wanted, tenant, limit)
  {
    rows := [];
    for i := 0 to |wanted|
      invariant rows + Gathered(tables, wanted[i..], tenant, limit) == Gathered(tables, wanted, tenant, limit)
    {
      var selected := SelectNewest(tables(wanted[i]), tenant, limit);
      assert wanted[i..][1..] == wanted[i + 1..];
      Assoc(rows, selected, Gathered(tables, wanted[i + 1..], tenant, limit));
      rows := rows + selected;
    }
    assert rows + [] == rows;
  }

  method Recent(tables: Tables, wanted: seq<EventType>, tenant: Option<string>, limit: int) returns (events: seq<Row>)
    requires ValidTables(tables) && Distinct(wanted)
    ensures var n := MaxInt(1, MinInt(limit, 200));
            && events == Answer(tables, wanted, tenant, n)
            && Falling(events)
            && (NewestOf(events, tables, wanted, tenant, n) <==> NothingLaterCutOff(tables, wanted, tenant, n))
            && ((forall et :: et in wanted ==> Chronological(tables(et))) ==>
                 NewestOf(events, tables, wanted, tenant, n))
  {
    var n := MaxInt(1, MinInt(limit, 200));
    var rows := GatherRows(tables, wanted, tenant, n);
    GatheredTies(tables, wanted, tenant, n);
    SortIsNewestFirst(rows);
    events := Take(SortByKey(rows), n);
    NewestFirstIsFalling(events);
    PushdownExactIff(tables, wanted, tenant, n);
    if forall et :: et in wanted ==> Chronological(tables(et)) { PushdownIsExact(tables, wanted, tenant, n); }
  }

  /** If at least n rows of a newest-first list are later than x, its first n rows are. */
  lemma {:induction false} FirstAreLater(s: seq<Row>, witnesses: seq<Row>, x: Row)
    requires NewestFirst(s) && Distinct(witnesses)
    requires forall y :: y in witnesses ==> y in s && Later(y, x)
    ensures |witnesses| <= |s| && forall k :: 0 <= k < |witnesses| ==> Later(s[k], x)
    decreases |s|
  {
    if witnesses != [] {
      assert witnesses[0] in witnesses && s != [];
      var i := if s[0] in witnesses then IndexOf(witnesses, s[0]) else 0;
      var fewer := witnesses[..i] + witnesses[i + 1..];
      var w :| 0 <= w < |s| && s[w] == witnesses[0];
      assert Later(s[0], x);
      forall y | y in fewer ensures y in s[1..] && Later(y, x) {
        assert y in witnesses && y != s[0];
        assert s == [s[0]] + s[1..];
      }
      FirstAreLater(s[1..], fewer, x);
      forall k | 0 <= k < |witnesses| ensures Later(s[k], x) {
        if k > 0 { assert s[k] == s[1..][k - 1]; }
      }
    }
  }

  ghost function IndexOf(s: seq<Row>, x: Row): (i: nat)
    requires x in s
    ensures i < |s| && s[i] == x
  {
    if s[0] == x then 0 else 1 + IndexOf(s[1..], x)
  }

  /** When every table is chronological, the pushed-down query returns exactly the newest `limit` rows of
      the wanted tables together, whatever the order in which the tables are visited. */
  lemma PushdownIsExact(tables: Tables, wanted: seq<EventType>, tenant: Option<string>, limit: nat)
    requires ValidTables(tables) && Distinct(wanted)
    requires forall et :: et in wanted ==> Chronological(tables(et))
    ensures NewestOf(Answer(tables, wanted, tenant, limit), tables, wanted, tenant, limit)
  {
    PushdownExactIff(tables, wanted, tenant, limit);
    forall r, e | CutOff(tables, wanted, tenant, limit, r) && e in Answer(tables, wanted, tenant, limit)
      ensures !Later(r, e)
    {
      CutOffIsLast(tables, wanted, tenant, limit, r);
      ShownIsLater(SortByKey(Gathered(tables, wanted, tenant, limit)), limit, e, r);
    }
  }

  lemma ShownIsLater(sorted: seq<Row>, limit: nat, e: Row, r: Row)
    requires |sorted| >= limit && (forall k :: 0 <= k < limit ==> Later(sorted[k], r)) && e in Take(sorted, limit)
    ensures !Later(r, e)
  {
    var m :| 0 <= m < |Take(sorted, limit)| && Take(sorted, limit)[m] == e;
    assert sorted[m] == e;
  }

  /** A chronological table cuts off only rows that `limit` gathered rows are later than. */
  lemma CutOffIsLast(tables: Tables, wanted: seq<EventType>, tenant: Option<string>, limit: nat, r: Row)
    requires ValidTables(tables) && Distinct(wanted) && Chronological(tables(r.et))
    requires CutOff(tables, wanted, tenant, limit, r)
    ensures var sorted := SortByKey(Gathered(tables, wanted, tenant, limit));
            |sorted| >= limit && forall k :: 0 <= k < limit ==> Later(sorted[k], r)
  {
    AnswerRows(tables, wanted, tenant, limit);
    var s := SelectNewest(tables(r.et), tenant, limit);
    SelectedRows(tables(r.et), tenant, limit, r.et);
    var sorted := SortByKey(Gathered(tables, wanted, tenant, limit));
    forall y | y in s ensures y in sorted { assert y in tables(r.et); }
    FirstAreLater(sorted, s, r);
  }

  lemma TailMembers(a: seq<Row>, x: Row)
    requires NewestFirst(a) && a != []
    ensures x in a[1..] <==> x in a && x != a[0]
  {
    assert a == [a[0]] + a[1..];
    if x in a[1..] {
      var k := IndexOf(a[1..], x);
      assert Later(a[0], a[k + 1]);
    }
  }

  /** A newest-first list is determined by its rows. */
  lemma {:induction false} NewestIsUnique(a: seq<Row>, b: seq<Row>)
    requires NewestFirst(a) && NewestFirst(b) && forall x :: x in a <==> x in b
    ensures a == b
    decreases |a|
  {
    assert (a != [] ==> a[0] in a) && (b != [] ==> b[0] in b);
    if a != [] && b != [] {
      var i, j := IndexOf(a, b[0]), IndexOf(b, a[0]);
      assert a[0] == b[0];
      assert a == [a[0]] + a[1..] && b == [b[0]] + b[1..];
      forall x ensures x in a[1..] <==> x in b[1..] {
        TailMembers(a, x);
        TailMembers(b, x);
      }
      NewestIsUnique(a[1..], b[1..]);
    }
  }

  /** The tables are visited in the arbitrary order of a set; for any tables the answer is the same. */
  lemma VisitingOrderDoesNotShow(tables: Tables, wanted: seq<EventType>, other: seq<EventType>,
                                 tenant: Option<string>, limit: nat)
    requires ValidTables(tables) && Distinct(wanted) && Distinct(other)
    requires forall et :: et in wanted <==> et in other
    ensures SortByKey(Gathered(tables, wanted, tenant, limit)) == SortByKey(Gathered(tables, other, tenant, limit))
  {
    GatheredRows(tables, wanted, tenant, limit);
    GatheredRows(tables, other, tenant, limit);
    GatheredTies(tables, wanted, tenant, limit);
    GatheredTies(tables, other, tenant, limit);
    SortIsNewestFirst(Gathered(tables, wanted, tenant, limit));
    SortIsNewestFirst(Gathered(tables, other, tenant, limit));
    NewestIsUnique(SortByKey(Gathered(tables, wanted, tenant, limit)),
                   SortByKey(Gathered(tables, other, tenant, limit)));
  }

  // ---- Exactly when the pushdown is exact ----

  /** What a query answers. */
  function Answer(tables: Tables, wanted: seq<EventType>, tenant: Option<string>, limit: nat): seq<Row> {
    Take(SortByKey(Gathered(tables, wanted, tenant, limit)), limit)
  }

  /** A row the query is about that its own table's selection left out. */
  ghost predicate CutOff(tables: Tables, wanted: seq<EventType>, tenant: Option<string>, limit: nat, r: Row) {
    InPool(tables, wanted, tenant, r) && r !in SelectNewest(tables(r.et), tenant, limit)
  }

  ghost predicate NothingLaterCutOff(tables: Tables, wanted: seq<EventType>, tenant: Option<string>, limit: nat) {
    forall r, e :: CutOff(tables, wanted, tenant, limit, r) && e in Answer(tables, wanted, tenant, limit) ==>
      !Later(r, e)
  }

  /** Of two different rows of the tables one is the later. */
  lemma LaterIsTotal(tables: Tables, a: Row, b: Row)
    requires ValidTables(tables) && a in tables(a.et) && b in tables(b.et) && a != b
    ensures Later(a, b) <==> !Later(b, a)
  {
    if SameKey(a, b) {
      var i :| 0 <= i < |tables(a.et)| && tables(a.et)[i] == a;
      var j :| 0 <= j < |tables(a.et)| && tables(a.et)[j] == b;
      assert i < j || j < i;
    }
  }

  lemma {:induction false} GatheredIsLong(tables: Tables, wanted: seq<EventType>, tenant: Option<string>, limit: nat,
                                          et: EventType)
    requires et in wanted
    ensures |SelectNewest(tables(et), tenant, limit)| <= |Gathered(tables, wanted, tenant, limit)|
  {
    if et != wanted[0] {
      assert wanted == [wanted[0]] + wanted[1..];
      GatheredIsLong(tables, wanted[1..], tenant, limit, et);
    }
  }

  lemma AnswerRows(tables: Tables, wanted: seq<EventType>, tenant: Option<string>, limit: nat)
    requires ValidTables(tables) && Distinct(wanted)
    ensures NewestFirst(SortByKey(Gathered(tables, wanted, tenant, limit)))
    ensures forall x :: x in SortByKey(Gathered(tables, wanted, tenant, limit)) <==>
              x.et in wanted && x in SelectNewest(tables(x.et), tenant, limit)
    ensures NewestFirst(Answer(tables, wanted, tenant, limit)) && |Answer(tables, wanted, tenant, limit)| <= limit
    ensures forall e :: e in Answer(tables, wanted, tenant, limit) ==>
              InPool(tables, wanted, tenant, e) && e in SelectNewest(tables(e.et), tenant, limit)
  {
    var rows := Gathered(tables, wanted, tenant, limit);
    GatheredTies(tables, wanted, tenant, limit);
    GatheredRows(tables, wanted, tenant, limit);
    SortIsNewestFirst(rows);
    forall e | e in Answer(tables, wanted, tenant, limit)
      ensures InPool(tables, wanted, tenant, e) && e in SelectNewest(tables(e.et), tenant, limit)
    {
      assert e in rows;
      SelectedRows(tables(e.et), tenant, limit, e.et);
    }
  }

  /** For each limit: the answer is the newest `limit` rows of the tables together if and only if no row that
      its own table cut off is later than a row shown. */
  lemma PushdownExactIff(tables: Tables, wanted: seq<EventType>, tenant: Option<string>, limit: nat)
    requires ValidTables(tables) && Distinct(wanted)
    ensures NewestOf(Answer(tables, wanted, tenant, limit), tables, wanted, tenant, limit)
            <==> NothingLaterCutOff(tables, wanted, tenant, limit)
  {
    if NothingLaterCutOff(tables, wanted, tenant, limit) { NothingLaterIsNewest(tables, wanted, tenant, limit); }
    if NewestOf(Answer(tables, wanted, tenant, limit), tables, wanted, tenant, limit) {
      NewestCutsNothingLater(tables, wanted, tenant, limit);
    }
  }

  lemma NothingLaterIsNewest(tables: Tables, wanted: seq<EventType>, tenant: Option<string>, limit: nat)
    requires ValidTables(tables) && Distinct(wanted) && NothingLaterCutOff(tables, wanted, tenant, limit)
    ensures NewestOf(Answer(tables, wanted, tenant, limit), tables, wanted, tenant, limit)
  {
    var events := Answer(tables, wanted, tenant, limit);
    AnswerRows(tables, wanted, tenant, limit);
    forall r | InPool(tables, wanted, tenant, r) && r !in events
      ensures |events| == limit && forall e :: e in events ==> Later(e, r)
    {
      LeftOutIsOlder(tables, wanted, tenant, limit, r);
    }
  }

  /** A row of the pool that is not shown is older than every row that is. */
  lemma LeftOutIsOlder(tables: Tables, wanted: seq<EventType>, tenant: Option<string>, limit: nat, r: Row)
    requires ValidTables(tables) && Distinct(wanted) && NothingLaterCutOff(tables, wanted, tenant, limit)
    requires InPool(tables, wanted, tenant, r) && r !in Answer(tables, wanted, tenant, limit)
    ensures |Answer(tables, wanted, tenant, limit)| == limit
    ensures forall e :: e in Answer(tables, wanted, tenant, limit) ==> Later(e, r)
  {
    AnswerRows(tables, wanted, tenant, limit);
    if CutOff(tables, wanted, tenant, limit, r) {
      SelectedRows(tables(r.et), tenant, limit, r.et);
      GatheredIsLong(tables, wanted, tenant, limit, r.et);
      forall e | e in Answer(tables, wanted, tenant, limit) ensures Later(e, r) {
        assert InPool(tables, wanted, tenant, e);
        LaterIsTotal(tables, e, r);
      }
    } else {
      SortedOutIsOlder(SortByKey(Gathered(tables, wanted, tenant, limit)), limit, r);
    }
  }

  lemma NewestCutsNothingLater(tables: Tables, wanted: seq<EventType>, tenant: Option<string>, limit: nat)
    requires ValidTables(tables) && Distinct(wanted)
    requires NewestOf(Answer(tables, wanted, tenant, limit), tables, wanted, tenant, limit)
    ensures NothingLaterCutOff(tables, wanted, tenant, limit)
  {
    forall r, e | CutOff(tables, wanted, tenant, limit, r) && e in Answer(tables, wanted, tenant, limit)
      ensures !Later(r, e)
    {
      NotShown(tables, wanted, tenant, limit, r);
      NewestIsLater(Answer(tables, wanted, tenant, limit), tables, wanted, tenant, limit, r, e);
    }
  }

  lemma NotShown(tables: Tables, wanted: seq<EventType>, tenant: Option<string>, limit: nat, r: Row)
    requires ValidTables(tables) && Distinct(wanted) && CutOff(tables, wanted, tenant, limit, r)
    ensures r !in Answer(tables, wanted, tenant, limit)
  {
    AnswerRows(tables, wanted, tenant, limit);
  }

  lemma NewestIsLater(events: seq<Row>, tables: Tables, wanted: seq<EventType>, tenant: Option<string>, limit: nat,
                      r: Row, e: Row)
    requires NewestOf(events, tables, wanted, tenant, limit) && InPool(tables, wanted, tenant, r)
    requires r !in events && e in events
    ensures Later(e, r) && !Later(r, e)
  {
  }

  /** A gathered row beyond the cut is older than every row before it. */
  lemma SortedOutIsOlder(sorted: seq<Row>, limit: nat, r: Row)
    requires NewestFirst(sorted) && r in sorted && r !in Take(sorted, limit)
    ensures |Take(sorted, limit)| == limit && forall e :: e in Take(sorted, limit) ==> Later(e, r)
  {
    var k := IndexOf(sorted, r);
    if k < limit { InTake(sorted, limit, k); }
    forall e | e in Take(sorted, limit) ensures Later(e, r) {
      var m :| 0 <= m < limit && sorted[m] == e;
    }
  }

  // ---- The same, before the sort ----

  /** The rows of a list that are later than r. */
  function LaterRows(rows: seq<Row>, r: Row): (later: seq<Row>)
    ensures forall y :: y in later <==> y in rows && Later(y, r)
  {
    if rows == [] then []
    else
      assert rows == [rows[0]] + rows[1..];
      (if Later(rows[0], r) then [rows[0]] else []) + LaterRows(rows[1..], r)
  }

  lemma {:induction false} LaterRowsDistinct(rows: seq<Row>, r: Row)
    requires Distinct(rows)
    ensures Distinct(LaterRows(rows, r))
  {
    if rows != [] {
      LaterRowsDistinct(rows[1..], r);
      var later := LaterRows(rows[1..], r);
      forall i | 0 <= i < |later| ensures later[i] != rows[0] {
        assert later[i] in rows[1..];
      }
    }
  }

  lemma Pigeonhole(few: seq<Row>, many: seq<Row>)
    requires Distinct(few) && forall x :: x in few ==> x in many
    ensures |few| <= |many|
  {
    var keys := set x | x in many;
    DistinctSize(few, keys);
    SetOfSeq(many);
  }

  lemma {:induction false} SetOfSeq(s: seq<Row>)
    ensures |set x | x in s| <= |s|
  {
    if s != [] {
      SetOfSeq(s[1..]);
      var rest := set x | x in s[1..];
      assert s == [s[0]] + s[1..];
      assert (set x | x in s) == rest + {s[0]};
    }
  }

  /** Every matching row that its table cut off has at least `limit` gathered rows later than itself. */
  ghost predicate EnoughLater(tables: Tables, wanted: seq<EventType>, tenant: Option<string>, limit: nat) {
    forall r :: CutOff(tables, wanted, tenant, limit, r) ==>
      |LaterRows(Gathered(tables, wanted, tenant, limit), r)| >= limit
  }

  /** The condition on the gathered rows alone: the answer is exact if and only if every row cut off has `limit`
      gathered rows later than itself. */
  lemma EnoughLaterIff(tables: Tables, wanted: seq<EventType>, tenant: Option<string>, limit: nat)
    requires ValidTables(tables) && Distinct(wanted)
    ensures NewestOf(Answer(tables, wanted, tenant, limit), tables, wanted, tenant, limit)
            <==> EnoughLater(tables, wanted, tenant, limit)
  {
    PushdownExactIff(tables, wanted, tenant, limit);
    if EnoughLater(tables, wanted, tenant, limit) {
      forall r, e | CutOff(tables, wanted, tenant, limit, r) && e in Answer(tables, wanted, tenant, limit)
        ensures !Later(r, e)
      {
        EnoughHidesIt(tables, wanted, tenant, limit, r, e);
      }
    }
    if NewestOf(Answer(tables, wanted, tenant, limit), tables, wanted, tenant, limit) {
      forall r | CutOff(tables, wanted, tenant, limit, r)
        ensures |LaterRows(Gathered(tables, wanted, tenant, limit), r)| >= limit
      {
        NewestAreEnough(tables, wanted, tenant, limit, r);
      }
    }
  }

  lemma GatheredDistinct(tables: Tables, wanted: seq<EventType>, tenant: Option<string>, limit: nat)
    requires ValidTables(tables) && Distinct(wanted)
    ensures Distinct(Gathered(tables, wanted, tenant, limit))
  {
    GatheredTies(tables, wanted, tenant, limit);
  }

  lemma EnoughHidesIt(tables: Tables, wanted: seq<EventType>, tenant: Option<string>, limit: nat, r: Row, e: Row)
    requires ValidTables(tables) && Distinct(wanted)
    requires |LaterRows(Gathered(tables, wanted, tenant, limit), r)| >= limit
             && e in Answer(tables, wanted, tenant, limit)
    ensures !Later(r, e)
  {
    var rows := Gathered(tables, wanted, tenant, limit);
    AnswerRows(tables, wanted, tenant, limit);
    GatheredDistinct(tables, wanted, tenant, limit);
    LaterRowsDistinct(rows, r);
    FirstAreLater(SortByKey(rows), LaterRows(rows, r), r);
    ShownIsLater(SortByKey(rows), limit, e, r);
  }

  lemma NewestAreEnough(tables: Tables, wanted: seq<EventType>, tenant: Option<string>, limit: nat, r: Row)
    requires ValidTables(tables) && Distinct(wanted) && CutOff(tables, wanted, tenant, limit, r)
    requires NewestOf(Answer(tables, wanted, tenant, limit), tables, wanted, tenant, limit)
    ensures |LaterRows(Gathered(tables, wanted, tenant, limit), r)| >= limit
  {
    var events := Answer(tables, wanted, tenant, limit);
    AnswerRows(tables, wanted, tenant, limit);
    NotShown(tables, wanted, tenant, limit, r);
    NewestIsDistinct(events);
    Pigeonhole(events, LaterRows(Gathered(tables, wanted, tenant, limit), r));
  }

  lemma NewestIsDistinct(s: seq<Row>)
    requires NewestFirst(s)
    ensures Distinct(s)
  {
  }

  // ---- One table ----

  /** The last n rows start here. */
  function LastFrom(w: Table, n: nat): (p: nat)
    ensures p <= |w|
  {
    MaxInt(0, |w| - n)
  }

  /** No matching row but the last n has a larger time stamp than one of the last n. */
  ghost predicate LastAreNewest(w: Table, n: nat) {
    forall i, j :: 0 <= i < |w| - n <= j < |w| ==> w[i].stamp <= w[j].stamp
  }

  lemma TablePool(tables: Tables, et: EventType, tenant: Option<string>, n: nat)
    requires ValidTables(tables)
    ensures var w := Where(tables(et), tenant);
            var p := LastFrom(w, n);
            && ValidTable(w, et)
            && (forall x :: x in Answer(tables, [et], tenant, n) <==> x in w[p..])
            && (forall x :: CutOff(tables, [et], tenant, n, x) <==> x in w[..p])
  {
    var w := Where(tables(et), tenant);
    WhereKeepsOrder(tables(et), tenant, et);
    OneTable(tables, et, tenant, n);
    LastRows(w, n);
    Parted(w, et, LastFrom(w, n));
    forall x ensures CutOff(tables, [et], tenant, n, x) <==> x in w && x !in SelectNewest(tables(et), tenant, n) {
      if x in tables(et) { assert x.et == et; }
    }
  }

  /** The rows of a table are either before or after a place. */
  lemma Parted(w: Table, et: EventType, p: nat)
    requires ValidTable(w, et) && p <= |w|
    ensures forall x :: x in w[..p] <==> x in w && x !in w[p..]
  {
    assert w == w[..p] + w[p..];
    forall x | x in w[..p] ensures x !in w[p..] {
      var i :| 0 <= i < p && w[i] == x;
      forall k | 0 <= k < |w[p..]| ensures w[p..][k] != x { assert w[p + k].id > w[i].id; }
    }
  }

  /** One table alone gives the newest n rows if and only if its last n matching rows are the newest. */
  lemma OneTableExactIff(tables: Tables, et: EventType, tenant: Option<string>, n: nat)
    requires ValidTables(tables)
    ensures NewestOf(Answer(tables, [et], tenant, n), tables, [et], tenant, n)
            <==> LastAreNewest(Where(tables(et), tenant), n)
  {
    PushdownExactIff(tables, [et], tenant, n);
    TablePool(tables, et, tenant, n);
    if LastAreNewest(Where(tables(et), tenant), n) { LastNewestCutsNothing(tables, et, tenant, n); }
    if NothingLaterCutOff(tables, [et], tenant, n) { NothingCutIsLastNewest(tables, et, tenant, n); }
  }

  lemma LastNewestCutsNothing(tables: Tables, et: EventType, tenant: Option<string>, n: nat)
    requires ValidTables(tables) && LastAreNewest(Where(tables(et), tenant), n)
    ensures NothingLaterCutOff(tables, [et], tenant, n)
  {
    TablePool(tables, et, tenant, n);
    forall r, e | CutOff(tables, [et], tenant, n, r) && e in Answer(tables, [et], tenant, n) ensures !Later(r, e) {
      EarlierIsNotLater(Where(tables(et), tenant), et, n, r, e);
    }
  }

  lemma EarlierIsNotLater(w: Table, et: EventType, n: nat, r: Row, e: Row)
    requires ValidTable(w, et) && LastAreNewest(w, n)
    requires r in w[..LastFrom(w, n)] && e in w[LastFrom(w, n)..]
    ensures !Later(r, e)
  {
    var p := LastFrom(w, n);
    var i :| 0 <= i < p && w[i] == r;
    var j :| p <= j < |w| && w[j] == e;
    assert w[i].id < w[j].id && w[i].stamp <= w[j].stamp;
  }

  lemma NothingCutIsLastNewest(tables: Tables, et: EventType, tenant: Option<string>, n: nat)
    requires ValidTables(tables) && NothingLaterCutOff(tables, [et], tenant, n)
    ensures LastAreNewest(Where(tables(et), tenant), n)
  {
    var w := Where(tables(et), tenant);
    TablePool(tables, et, tenant, n);
    forall i, j | 0 <= i < |w| - n <= j < |w| ensures w[i].stamp <= w[j].stamp {
      var p := LastFrom(w, n);
      assert w[i] == w[..p][i] && w[j] == w[p..][j - p];
      assert CutOff(tables, [et], tenant, n, w[i]) && w[j] in Answer(tables, [et], tenant, n);
      assert !Later(w[i], w[j]);
    }
  }

  /** Some limit that the query accepts gives a wrong answer exactly when one of the last 200 matching rows
      carries an earlier time stamp than a row written before it. */
  lemma LateRowShowsIff(tables: Tables, et: EventType, tenant: Option<string>)
    requires ValidTables(tables)
    ensures (exists n: nat :: 1 <= n <= 200 && !NewestOf(Answer(tables, [et], tenant, n), tables, [et], tenant, n))
            <==> LateRow(Where(tables(et), tenant))
  {
    var w := Where(tables(et), tenant);
    forall n: nat
      ensures NewestOf(Answer(tables, [et], tenant, n), tables, [et], tenant, n) <==> LastAreNewest(w, n)
    {
      OneTableExactIff(tables, et, tenant, n);
    }
    LateRowIff(w);
    if n: nat :| 1 <= n <= 200 && !LastAreNewest(w, n) {
      assert !NewestOf(Answer(tables, [et], tenant, n), tables, [et], tenant, n);
    }
  }

  /** One of the last 200 rows carries an earlier time stamp than a row before it. */
  ghost predicate LateRow(w: Table) {
    exists i, j :: 0 <= i < j < |w| && |w| - 200 <= j && w[i].stamp > w[j].stamp
  }

  lemma LateRowIff(w: Table)
    ensures LateRow(w) <==> exists n: nat :: 1 <= n <= 200 && !LastAreNewest(w, n)
  {
    if LateRow(w) {
      var i, j :| 0 <= i < j < |w| && |w| - 200 <= j && w[i].stamp > w[j].stamp;
      var n: nat := |w| - j;
      assert !LastAreNewest(w, n);
    }
  }

  lemma OneTable(tables: Tables, et: EventType, tenant: Option<string>, n: nat)
    requires ValidTables(tables)
    ensures forall x :: x in Answer(tables, [et], tenant, n) <==> x in SelectNewest(tables(et), tenant, n)
  {
    var s := SelectNewest(tables(et), tenant, n);
    assert [et][1..] == [] && Gathered(tables, [], tenant, n) == [];
    assert Gathered(tables, [et], tenant, n) == s + [] == s;
  }

  lemma LastRows(w: Table, n: nat)
    ensures forall x :: x in Take(Backwards(w), n) <==> x in w[LastFrom(w, n)..]
  {
    var p, s := LastFrom(w, n), Take(Backwards(w), n);
    assert |s| == |w| - p;
    forall x | x in w[p..] ensures x in s {
      var j :| p <= j < |w| && w[j] == x;
      assert s[|w| - 1 - j] == x;
    }
    forall x | x in s ensures x in w[p..] {
      var k :| 0 <= k < |s| && s[k] == x;
      assert w[p..][|w| - 1 - k - p] == x;
    }
  }
}
