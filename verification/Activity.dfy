/** The two readers over the tail scan: the newest-first activity feed with its
    two passes, and the chronological trace of one request. */
module Activity {
  import opened Common
  import opened Lines
  import opened TailScan

  const MAX_LIMIT := 200

  /** A key of a JSON object: missing, null, a text, or something else, of which only the truth value and
      whether it can be looked up in a set matter here: a list or an object cannot. */
  datatype Field = Absent | Null | Text(text: string) | Other(json: string, truthy: bool, hashable: bool)

  predicate Truthy(f: Field) { (f.Text? && f.text != "") || (f.Other? && f.truthy) }

  datatype Record = Record(eventType: Field, tenant: Field, capability: Field, requestId: Field, body: string)

  /** The result of json.loads on one line: text it rejects, a value that is no object or whose parsing raises
      something else, or an object. */
  datatype Parsed = Malformed | NonObject | Object(record: Record)

  /** Missing, null, empty and zero event types all read as "legacy"; tenant and capability
      get a default only when the key is missing. */
  function Normalise(r: Record): Record {
    r.(eventType := if Truthy(r.eventType) then r.eventType else Text("legacy"),
       tenant := if r.tenant.Absent? then Text("unset") else r.tenant,
       capability := if r.capability.Absent? then Text("unset") else r.capability)
  }

  /** What a reader asks for: the feed filters by tenant and event types (the empty set means every
      type), the trace by request id and tenant. */
  datatype Query =
    | Recent(tenant: Option<string>, eventTypes: set<string>)
    | Trace(requestId: string, tenant: Option<string>)
  {
    predicate Matches(r: Record) {
      && (tenant.Some? ==> Normalise(r).tenant == Text(tenant.value))
      && (Recent? && eventTypes != {} ==> Normalise(r).eventType.Text? && Normalise(r).eventType.text in eventTypes)
      && (Trace? ==> r.requestId == Text(requestId))
    }

    /** A line that makes the reader raise: one that is no object, or an object that passes the tenant filter
        and is then looked up by an event type that cannot be. */
    predicate RaisesOn(p: Parsed) {
      || p.NonObject?
      || (p.Object? && Recent? && eventTypes != {}
         && (tenant.Some? ==> Normalise(p.record).tenant == Text(tenant.value))
          && Normalise(p.record).eventType.Other? && !Normalise(p.record).eventType.hashable)
    }
  }

  /** The normalised records of the parseable, matching lines, in the order of the lines. */
  function Selected(lines: seq<Bytes>, parse: Bytes -> Parsed, query: Query): seq<Record> {
    if lines == [] then [] else Keep(parse(lines[0]), query) + Selected(lines[1..], parse, query)
  }

  function Keep(p: Parsed, query: Query): seq<Record> {
    if p.Object? && query.Matches(p.record) then [Normalise(p.record)] else []
  }

  // ---- The filters and defaults, on the keys of the line itself ----

  /** The line is one of this tenant's; a line without the key counts as "unset", one with a null as none's. */
  predicate OfTenant(r: Record, tenant: string) {
    r.tenant == Text(tenant) || (r.tenant == Absent && tenant == "unset")
  }

  /** The event type a line is filed under, if it is a text: missing, null, empty and zero count as "legacy". */
  predicate OfType(r: Record, eventType: string) {
    match r.eventType
    case Text(text) => if text == "" then eventType == "legacy" else eventType == text
    case Other(_, truthy, _) => !truthy && eventType == "legacy"
    case _ => eventType == "legacy"
  }

  /** What the caller of either reader asks for. */
  ghost predicate Wanted(query: Query, r: Record) {
    match query
    case Recent(tenant, eventTypes) =>
      (tenant.Some? ==> OfTenant(r, tenant.value)) && (eventTypes == {} || exists t :: t in eventTypes && OfType(r, t))
    case Trace(requestId, tenant) =>
      r.requestId == Text(requestId) && (tenant.Some? ==> OfTenant(r, tenant.value))
  }

  /** An event shows its line with the three defaults filled in, and nothing else changed. */
  ghost predicate ShownAs(r: Record, e: Record) {
    && e.requestId == r.requestId && e.body == r.body
    && (if r.tenant == Absent then e.tenant == Text("unset") else e.tenant == r.tenant)
    && (if r.capability == Absent then e.capability == Text("unset") else e.capability == r.capability)
    && (if exists t :: OfType(r, t) then exists t :: OfType(r, t) && e.eventType == Text(t)
        else e.eventType == r.eventType)
  }

  /** Event e comes from line i, which is wanted. */
  ghost predicate ComesFrom(e: Record, lines: seq<Bytes>, i: nat, parse: Bytes -> Parsed, query: Query) {
    && i < |lines| && parse(lines[i]).Object? && Wanted(query, parse(lines[i]).record)
    && ShownAs(parse(lines[i]).record, e)
  }

  /** The wanted lines from `start` on are all among the places. */
  ghost predicate AllWanted(lines: seq<Bytes>, start: nat, parse: Bytes -> Parsed, query: Query, places: seq<nat>) {
    forall i :: start <= i < |lines| && parse(lines[i]).Object? && Wanted(query, parse(lines[i]).record) ==> i in places
  }

  ghost predicate Rising(places: seq<nat>, start: nat) {
    && (forall k :: 0 <= k < |places| ==> start <= places[k])
    && (forall j, k :: 0 <= j < k < |places| ==> places[j] < places[k])
  }

  /** The events are the wanted lines from `start` on, each once and in order; `places` says which line each
      comes from. */
  ghost predicate PicksFrom(events: seq<Record>, lines: seq<Bytes>, start: nat, parse: Bytes -> Parsed, query: Query,
                            places: seq<nat>)
  {
    && |places| == |events|
    && (forall k :: 0 <= k < |places| ==> ComesFrom(events[k], lines, places[k], parse, query))
    && Rising(places, start) && AllWanted(lines, start, parse, query, places)
  }

  ghost predicate Picks(events: seq<Record>, lines: seq<Bytes>, parse: Bytes -> Parsed, query: Query,
                        places: seq<nat>)
  {
    PicksFrom(events, lines, 0, parse, query, places)
  }

  lemma MatchesIsWanted(query: Query, r: Record)
    ensures query.Matches(r) <==> Wanted(query, r)
    ensures ShownAs(r, Normalise(r))
  {
    var shown := Normalise(r).eventType;
    if shown.Text? { assert OfType(r, shown.text); }
  }

  /** What makes a reader raise, on the keys of the line itself. */
  lemma RaisesOnIff(query: Query, p: Parsed)
    ensures query.RaisesOn(p) <==>
              p.NonObject?
              || (p.Object? && query.Recent? && query.eventTypes != {}
                  && (query.tenant.Some? ==> OfTenant(p.record, query.tenant.value))
                  && p.record.eventType.Other? && p.record.eventType.truthy && !p.record.eventType.hashable)
  {
  }

  lemma {:induction false} SelectedPicks(lines: seq<Bytes>, parse: Bytes -> Parsed, query: Query)
    returns (places: seq<nat>)
    ensures Picks(Selected(lines, parse, query), lines, parse, query, places)
  {
    places := SelectedPicksFrom(lines, 0, parse, query);
    assert lines[0..] == lines;
  }

  lemma {:induction false} SelectedPicksFrom(lines: seq<Bytes>, start: nat, parse: Bytes -> Parsed, query: Query)
    returns (places: seq<nat>)
    requires start <= |lines|
    ensures PicksFrom(Selected(lines[start..], parse, query), lines, start, parse, query, places)
    decreases |lines| - start
  {
    places := [];
    if start < |lines| {
      var later := SelectedPicksFrom(lines, start + 1, parse, query);
      assert lines[start..][0] == lines[start] && lines[start..][1..] == lines[start + 1..];
      places := AddPlace(Selected(lines[start + 1..], parse, query), lines, start, parse, query, later);
    }
  }

  lemma AddPlace(events: seq<Record>, lines: seq<Bytes>, start: nat, parse: Bytes -> Parsed, query: Query,
                 later: seq<nat>)
    returns (places: seq<nat>)
    requires start < |lines| && PicksFrom(events, lines, start + 1, parse, query, later)
    ensures PicksFrom(Keep(parse(lines[start]), query) + events, lines, start, parse, query, places)
  {
    var p := parse(lines[start]);
    if p.Object? { MatchesIsWanted(query, p.record); }
    if p.Object? && query.Matches(p.record) {
      places := [start] + later;
      OneMorePlace(Normalise(p.record), events, lines, start, parse, query, later);
    } else {
      places := later;
      NoMorePlace(events, lines, start, parse, query, later);
    }
  }

  lemma NoMorePlace(events: seq<Record>, lines: seq<Bytes>, start: nat, parse: Bytes -> Parsed, query: Query,
                    later: seq<nat>)
    requires start < |lines| && PicksFrom(events, lines, start + 1, parse, query, later)
    requires parse(lines[start]).Object? ==> !Wanted(query, parse(lines[start]).record)
    ensures PicksFrom([] + events, lines, start, parse, query, later)
  {
    assert [] + events == events;
  }

  lemma OneMorePlace(e: Record, events: seq<Record>, lines: seq<Bytes>, start: nat, parse: Bytes -> Parsed,
                     query: Query, later: seq<nat>)
    requires PicksFrom(events, lines, start + 1, parse, query, later) && ComesFrom(e, lines, start, parse, query)
    ensures PicksFrom([e] + events, lines, start, parse, query, [start] + later)
  {
    var places := [start] + later;
    assert forall i :: i in places <==> i == start || i in later;
  }

  lemma {:induction false} SelectedOfConcat(a: seq<Bytes>, b: seq<Bytes>, parse: Bytes -> Parsed,
                                            query: Query)
    ensures Selected(a + b, parse, query) == Selected(a, parse, query) + Selected(b, parse, query)
  {
    if a == [] {
      assert a + b == b;
    } else {
      SelectedOfConcat(a[1..], b, parse, query);
      assert (a + b)[0] == a[0] && (a + b)[1..] == a[1..] + b;
      Assoc(Keep(parse(a[0]), query), Selected(a[1..], parse, query), Selected(b, parse, query));
    }
  }

  /** No line makes the reader raise. */
  predicate NoneRaises(lines: seq<Bytes>, parse: Bytes -> Parsed, query: Query) {
    forall i :: 0 <= i < |lines| ==> !query.RaisesOn(parse(lines[i]))
  }

  /** Some line raises, and the records before it do not reach the quota. */
  ghost predicate MeetsRaising(have: seq<Record>, lines: seq<Bytes>, parse: Bytes -> Parsed, query: Query,
                               quota: Quota)
  {
    exists i :: 0 <= i < |lines| && query.RaisesOn(parse(lines[i])) &&
      !Reached(|have + Selected(lines[..i], parse, query)|, quota)
  }

  lemma SelectedSoFar(lines: seq<Bytes>, i: nat, parse: Bytes -> Parsed, query: Query)
    requires i < |lines|
    ensures Selected(lines[..i + 1], parse, query) == Selected(lines[..i], parse, query) + Keep(parse(lines[i]), query)
  {
    assert lines[..i + 1] == lines[..i] + [lines[i]] && [lines[i]][1..] == [];
    SelectedOfConcat(lines[..i], [lines[i]], parse, query);
    assert Keep(parse(lines[i]), query) + [] == Keep(parse(lines[i]), query);
  }

  lemma {:induction false} SelectedGrows(lines: seq<Bytes>, i: nat, j: nat, parse: Bytes -> Parsed, query: Query)
    requires i <= j <= |lines|
    ensures |Selected(lines[..i], parse, query)| <= |Selected(lines[..j], parse, query)|
  {
    assert lines[..j] == lines[..i] + lines[i..j];
    SelectedOfConcat(lines[..i], lines[i..j], parse, query);
  }

  lemma CollectedUpTo(have: seq<Record>, lines: seq<Bytes>, parse: Bytes -> Parsed, query: Query, quota: Quota, i: nat)
    requires i <= |lines| && forall j :: 0 <= j < i ==> !query.RaisesOn(parse(lines[j]))
    requires if Reached(|have + Selected(lines[..i], parse, query)|, quota)
             then i > 0 && !Reached(|have + Selected(lines[..i - 1], parse, query)|, quota)
             else i == |lines|
    requires !Reached(|have|, quota)
    ensures !MeetsRaising(have, lines, parse, query, quota)
    ensures have + Selected(lines[..i], parse, query) == Cut(have + Selected(lines, parse, query), quota)
  {
    forall j | i <= j < |lines| ensures Reached(|have + Selected(lines[..j], parse, query)|, quota) {
      SelectedGrows(lines, i, j, parse, query);
    }
    assert lines == lines[..i] + lines[i..];
    SelectedOfConcat(lines[..i], lines[i..], parse, query);
    Assoc(have, Selected(lines[..i], parse, query), Selected(lines[i..], parse, query));
    if i > 0 { SelectedSoFar(lines, i - 1, parse, query); }
    assert i == |lines| ==> Selected(lines[i..], parse, query) == [];
  }

  /** Adds the matching records to `have`, stopping as soon as the quota is reached.
      `ok` is false when a line raised, which is exactly when such a line comes before that. */
  method Collect(have: seq<Record>, lines: seq<Bytes>, parse: Bytes -> Parsed, query: Query,
                 quota: Quota)
    returns (ok: bool, events: seq<Record>)
    requires !Reached(|have|, quota)
    ensures ok ==> events == Cut(have + Selected(lines, parse, query), quota)
    ensures ok <==> !MeetsRaising(have, lines, parse, query, quota)
    ensures NoneRaises(lines, parse, query) ==> ok
    ensures quota.NoLimit? ==> (ok <==> NoneRaises(lines, parse, query))
  {
    ok, events := true, have;
    var i := 0;
    while i < |lines|
      invariant 0 <= i <= |lines|
      invariant !Reached(|events|, quota)
      invariant events == have + Selected(lines[..i], parse, query)
      invariant forall j :: 0 <= j < i ==> !query.RaisesOn(parse(lines[j]))
    {
      var p := parse(lines[i]);
      if query.RaisesOn(p) {
        return false, [];
      }
      SelectedSoFar(lines, i, parse, query);
      Assoc(have, Selected(lines[..i], parse, query), Keep(p, query));
      i := i + 1;
      events := events + Keep(p, query);
      if Reached(|events|, quota) {
        CollectedUpTo(have, lines, parse, query, quota, i);
        return;
      }
    }
    assert lines[..|lines|] == lines;
    CollectedUpTo(have, lines, parse, query, quota, |lines|);
  }

  datatype Outcome = Raised | Found(events: seq<Record>, scanTruncated: bool)

  /** The whole log, newest first: what the feed is about. */
  function Log(file: Bytes): seq<Bytes> { AllLines(file, |file|, []) }

  /** The lines of the first pass, and those its last chunk held beyond the quota. */
  function FirstPass(file: Bytes, limit: nat, pos: nat): seq<Bytes>
    requires pos <= |file|
  {
    Cut(LinesFrom(file, pos, |file|, []), AtMost(limit))
  }

  function PassedOver(file: Bytes, limit: nat, pos: nat): seq<Bytes>
    requires pos <= |file|
  {
    Excess(LinesFrom(file, pos, |file|, []), AtMost(limit))
  }

  /** The lines a scan resumed where the first pass stopped can still reach. */
  function Unread(file: Bytes, pos: nat): seq<Bytes>
    requires pos <= |file|
  {
    AllLines(file, pos, CarryAt(file, pos, |file|, []))
  }

  /** The first pass stops at the byte budget, or at the first chunk boundary that meets the quota. */
  ghost predicate FirstPassStop(file: Bytes, limit: nat, maxBytes: int, chunkSize: nat, pos: nat) {
    && BudgetFloor(|file|, maxBytes) <= pos <= |file|
    && OpenAbove(file, pos, |file|, [], AtMost(limit), chunkSize)
    && (pos == BudgetFloor(|file|, maxBytes) || WholeChunks(|file| - pos, chunkSize))
    && (pos > BudgetFloor(|file|, maxBytes) ==> Reached(|LinesFrom(file, pos, |file|, [])|, AtMost(limit)))
    && Log(file) == FirstPass(file, limit, pos) + PassedOver(file, limit, pos) + Unread(file, pos)
  }

  /** So where the first pass stops depends on the file, the limit, the budget and the chunk size alone. */
  lemma FirstPassStopIsUnique(file: Bytes, limit: nat, maxBytes: int, chunkSize: nat, pos: nat, other: nat)
    requires FirstPassStop(file, limit, maxBytes, chunkSize, pos)
    requires FirstPassStop(file, limit, maxBytes, chunkSize, other)
    ensures pos == other
  {
  }

  /** What the feed shows: the matches of the first pass and of the lines `swept` by the second,
      which are the newest of those still unread at the position where the first pass stopped. */
  ghost predicate Feed(file: Bytes, limit: nat, parse: Bytes -> Parsed, query: Query,
                       maxBytes: int, chunkSize: nat,
                       pos: nat, swept: seq<Bytes>, events: seq<Record>, truncated: bool)
  {
    && FirstPassStop(file, limit, maxBytes, chunkSize, pos)
    && var first := Selected(FirstPass(file, limit, pos), parse, query);
    && swept <= Unread(file, pos)
    && events == Take(first + Selected(swept, parse, query), limit)
    && (!truncated && |first| < limit ==> swept == Unread(file, pos))
    && (truncated ==> |file| > maxBytes)  // only the byte budget is ever reported as a truncation
  }

  function Clamp(limit: int): (n: nat)
    ensures 1 <= n <= MAX_LIMIT
    ensures forall m :: 1 <= m <= MAX_LIMIT ==> Distance(limit, n) <= Distance(limit, m)  // the nearest limit allowed
  {
    MaxInt(1, MinInt(limit, MAX_LIMIT))
  }

  function Distance(a: int, b: int): nat { if a <= b then b - a else a - b }

  function Contents(path: Option<Bytes>): Bytes { if path.None? then [] else path.value }

  /** Pass 1: just enough lines for the limit, with the state to resume from. */
  method ReadFirstPass(path: Option<Bytes>, n: nat, maxBytes: int, chunkSize: nat)
    returns (rawLines: seq<Bytes>, truncated: bool, exhausted: bool, pos: nat, carry: Bytes)
    requires chunkSize >= 1
    ensures FirstPassStop(Contents(path), n, maxBytes, chunkSize, pos)
    ensures rawLines == FirstPass(Contents(path), n, pos)
    ensures carry == CarryAt(Contents(path), pos, |Contents(path)|, []) && NEWLINE !in carry
    ensures exhausted <==> pos == 0
    ensures pos == 0 ==> Unread(Contents(path), pos) == []
    ensures pos > 0 ==> path.Some? && path.value != []
    ensures truncated ==> |Contents(path)| > maxBytes
  {
    rawLines, truncated, exhausted, pos, carry := TailRawLines(path, AtMost(n), maxBytes, None, [], chunkSize);
    ghost var file := Contents(path);
    if file == [] {
      EmptyFirstPass(n, maxBytes, chunkSize);
    } else {
      FirstPassOfScan(file, n, maxBytes, chunkSize, rawLines, truncated, pos, carry);
    }
  }

  lemma EmptyFirstPass(n: nat, maxBytes: int, chunkSize: nat)
    ensures FirstPassStop([], n, maxBytes, chunkSize, 0)
    ensures FirstPass([], n, 0) == [] && CarryAt([], 0, 0, []) == [] && Unread([], 0) == []
  {
    EmptyLog([]);
  }

  lemma FirstPassOfScan(file: Bytes, n: nat, maxBytes: int, chunkSize: nat, rawLines: seq<Bytes>,
                        truncated: bool, pos: nat, carry: Bytes)
    requires ScanResult(file, |file|, [], AtMost(n), maxBytes, chunkSize, rawLines, truncated, pos, carry)
    ensures FirstPassStop(file, n, maxBytes, chunkSize, pos)
    ensures rawLines == FirstPass(file, n, pos) && carry == CarryAt(file, pos, |file|, [])
    ensures pos == 0 ==> Unread(file, pos) == []
    ensures truncated ==> |file| > maxBytes
  {
    ResumeAccounting(file, |file|, [], AtMost(n), maxBytes, chunkSize, rawLines, truncated, pos, carry);
    EmptyLog(file);
  }

  /** Pass 2: everything still unread within the byte budget, until the limit is met. */
  method Sweep(path: Option<Bytes>, pos: nat, carry: Bytes, have: seq<Record>, n: nat, query: Query,
               parse: Bytes -> Parsed, maxBytes: int, chunkSize: nat)
    returns (ok: bool, events: seq<Record>, truncated: bool, ghost swept: seq<Bytes>)
    requires chunkSize >= 1 && |have| < n
    requires path.Some? && path.value != [] && 0 < pos && NEWLINE !in carry
    ensures swept <= AllLines(path.value, pos, carry)
    ensures !truncated ==> swept == AllLines(path.value, pos, carry)
    ensures ok ==> events == Take(have + Selected(swept, parse, query), n)
    ensures ok <==> !MeetsRaising(have, swept, parse, query, AtMost(n))
    ensures NoneRaises(swept, parse, query) ==> ok
    ensures truncated ==> pos > maxBytes
  {
    var moreLines, truncated2, _, pos2, carry2 :=
      TailRawLines(path, NoLimit, maxBytes, Some(pos), carry, chunkSize);
    TailIsNewestFirst(path.value, pos, carry, NoLimit, maxBytes, chunkSize, moreLines, truncated2, pos2, carry2);
    truncated, swept := truncated2, moreLines;
    ok, events := Collect(have, moreLines, parse, query, AtMost(n));
  }

  method GetRecentActivity(path: Option<Bytes>, limit: int, query: Query, parse: Bytes -> Parsed,
                           maxBytes: int, chunkSize: nat)
    returns (r: Outcome, ghost stop: nat, ghost swept: seq<Bytes>)
    requires chunkSize >= 1 && query.Recent?
    ensures r.Found? ==> Feed(Contents(path), Clamp(limit), parse, query, maxBytes, chunkSize,
                              stop, swept, r.events, r.scanTruncated)
    ensures stop <= |Contents(path)|
    // the wanted lines among those seen, newest first, with the defaults, up to the limit
    ensures r.Found? ==>
              Shows(r.events, FirstPass(Contents(path), Clamp(limit), stop) + swept, parse, query, Clamp(limit))
    ensures var n := Clamp(limit);
            var first := FirstPass(Contents(path), n, stop);
            r.Found? <==> NoneRaises(first, parse, query)
                          && !MeetsRaising(Selected(first, parse, query), swept, parse, query, AtMost(n))
    ensures NoneRaises(Log(Contents(path)), parse, query) ==> r.Found?
  {
    var n := Clamp(limit);
    var rawLines, truncated, exhausted, pos, carry := ReadFirstPass(path, n, maxBytes, chunkSize);
    stop, swept := pos, [];
    SeenLines(Contents(path), n, pos, swept, parse, query);
    var ok, events := Collect([], rawLines, parse, query, NoLimit);
    if !ok {
      return Raised, stop, swept;
    }
    assert events == Selected(rawLines, parse, query);
    var scanTruncated := truncated;
    if |events| < n && !truncated && !exhausted && pos > 0 {
      ok, events, scanTruncated, swept := Sweep(path, pos, carry, events, n, query, parse, maxBytes, chunkSize);
      SeenLines(Contents(path), n, pos, swept, parse, query);
      if !ok {
        return Raised, stop, swept;
      }
      FeedShows(rawLines, swept, parse, query, n);
      return Found(Take(events, n), scanTruncated), stop, swept;
    }
    assert events + Selected([], parse, query) == events;
    FeedShows(rawLines, swept, parse, query, n);
    r := Found(Take(events, n), scanTruncated);
  }

  /** The events are the first `limit` of the wanted lines. */
  ghost predicate Shows(events: seq<Record>, lines: seq<Bytes>, parse: Bytes -> Parsed, query: Query, limit: nat) {
    exists all, places :: Picks(all, lines, parse, query, places) && events == Take(all, limit)
  }

  lemma FeedShows(first: seq<Bytes>, swept: seq<Bytes>, parse: Bytes -> Parsed, query: Query, limit: nat)
    ensures Shows(Take(Selected(first, parse, query) + Selected(swept, parse, query), limit), first + swept,
                  parse, query, limit)
  {
    SelectedOfConcat(first, swept, parse, query);
    var places := SelectedPicks(first + swept, parse, query);
  }

  /** Every line the feed looks at is a line of the log. */
  lemma SeenLines(file: Bytes, n: nat, pos: nat, swept: seq<Bytes>, parse: Bytes -> Parsed,
                  query: Query)
    requires pos <= |file| && swept <= Unread(file, pos)
    requires Log(file) == FirstPass(file, n, pos) + PassedOver(file, n, pos) + Unread(file, pos)
    ensures NoneRaises(Log(file), parse, query) ==> NoneRaises(FirstPass(file, n, pos) + swept, parse, query)
    ensures NoneRaises(FirstPass(file, n, pos) + swept, parse, query) ==>
              NoneRaises(FirstPass(file, n, pos), parse, query) && NoneRaises(swept, parse, query)
  {
    var first, over, log := FirstPass(file, n, pos), PassedOver(file, n, pos), Log(file);
    var seen := first + swept;
    if NoneRaises(log, parse, query) {
      forall i | 0 <= i < |seen| ensures !query.RaisesOn(parse(seen[i])) {
        var j := if i < |first| then i else i + |over|;
        assert log[j] == seen[i];
      }
    }
    if NoneRaises(seen, parse, query) {
      assert forall i :: 0 <= i < |first| ==> first[i] == seen[i];
      forall i | 0 <= i < |swept| ensures !query.RaisesOn(parse(swept[i])) {
        assert seen[|first| + i] == swept[i];
      }
    }
  }

  lemma EmptyLog(file: Bytes)
    ensures AllLines(file, 0, []) == []
    ensures file == [] ==> LinesFrom(file, 0, 0, []) == []
  {
    assert Read(file, 0, 0) + [] == [] && Split<byte>([], NEWLINE) == [[]];
    assert Newest([[]]) == Newest([]);
  }

  /** The feed against the whole log.  Its events are the matches of three of four consecutive
      stretches of the log, cut at the limit, so they keep the log's order and repeat no line.
      They are the newest `limit` matches of the log whenever the first pass already had that many
      or passed over no match; and, when the matches of the log are distinct and the scan was not
      truncated, in no other case. */
  lemma FeedAgainstLog(file: Bytes, limit: nat, parse: Bytes -> Parsed, query: Query, maxBytes: int,
                       chunkSize: nat, pos: nat, swept: seq<Bytes>, events: seq<Record>, truncated: bool)
    requires limit >= 1
    requires Feed(file, limit, parse, query, maxBytes, chunkSize, pos, swept, events, truncated)
    ensures var first := Selected(FirstPass(file, limit, pos), parse, query);
            var over := Selected(PassedOver(file, limit, pos), parse, query);
            var second := Selected(swept, parse, query);
            var newest := Take(Selected(Log(file), parse, query), limit);
            && first + over + second <= Selected(Log(file), parse, query)
            && events == Take(first + second, limit)
            && (!truncated && (|first| >= limit || over == []) ==> events == newest)
            && (!truncated && Distinct(Selected(Log(file), parse, query)) && events == newest ==>
                  |first| >= limit || over == [])
  {
    var first := Selected(FirstPass(file, limit, pos), parse, query);
    var over := Selected(PassedOver(file, limit, pos), parse, query);
    var second := Selected(swept, parse, query);
    var rest := MatchesOfLog(file, limit, parse, query, pos, swept);
    if !truncated { CutWithGap(first, over, second, rest, limit); }
  }

  lemma MatchesOfLog(file: Bytes, limit: nat, parse: Bytes -> Parsed, query: Query, pos: nat, swept: seq<Bytes>)
    returns (rest: seq<Record>)
    requires pos <= |file| && swept <= Unread(file, pos)
    requires Log(file) == FirstPass(file, limit, pos) + PassedOver(file, limit, pos) + Unread(file, pos)
    ensures Selected(Log(file), parse, query)
            == Selected(FirstPass(file, limit, pos), parse, query)
               + Selected(PassedOver(file, limit, pos), parse, query)
               + Selected(swept, parse, query) + rest
    ensures swept == Unread(file, pos) ==> rest == []
  {
    var c := Unread(file, pos);
    var d := c[|swept|..];
    assert c == swept + d;
    rest := Selected(d, parse, query);
    SelectedOfFour(FirstPass(file, limit, pos), PassedOver(file, limit, pos), swept, d, parse, query);
    assert Log(file) == FirstPass(file, limit, pos) + PassedOver(file, limit, pos) + (swept + d);
  }

  lemma SelectedOfFour(a: seq<Bytes>, b: seq<Bytes>, c: seq<Bytes>, d: seq<Bytes>, parse: Bytes -> Parsed,
                       query: Query)
    ensures Selected(a + b + (c + d), parse, query)
            == Selected(a, parse, query) + Selected(b, parse, query) + Selected(c, parse, query)
               + Selected(d, parse, query)
  {
    SelectedOfConcat(a + b, c + d, parse, query);
    SelectedOfConcat(a, b, parse, query);
    SelectedOfConcat(c, d, parse, query);
  }

  /** Leaving out a stretch before the cut shows, unless everything is distinct from it. */
  lemma CutWithGap(first: seq<Record>, over: seq<Record>, second: seq<Record>, rest: seq<Record>, limit: nat)
    requires |first| < limit ==> rest == []
    ensures var all := first + over + second + rest;
            && (|first| >= limit || over == [] ==> Take(first + second, limit) == Take(all, limit))
            && (Distinct(all) && Take(first + second, limit) == Take(all, limit) ==> |first| >= limit || over == [])
  {
    var all := first + over + second + rest;
    if |first| < limit && over != [] && Distinct(all) {
      var k := |first|;
      assert Take(all, limit)[k] == all[k] == over[0];
      if second != [] {
        assert Take(first + second, limit)[k] == second[0] == all[k + |over|];
      }
    }
  }

  /** A log that fits in one chunk is never swept: the feed then only looks at its newest `limit`
      lines, whatever the filter, and still reports that nothing was cut off. */
  lemma SmallLogIsNotSwept(file: Bytes, limit: nat, parse: Bytes -> Parsed, query: Query, maxBytes: int,
                           chunkSize: nat, pos: nat, swept: seq<Bytes>, events: seq<Record>, truncated: bool)
    requires limit >= 1
    requires Feed(file, limit, parse, query, maxBytes, chunkSize, pos, swept, events, truncated)
    requires |file| <= chunkSize && |file| <= maxBytes
    ensures events == Selected(Take(Log(file), limit), parse, query)
  {
    if pos != 0 {
      NothingAtTheEnd(file);
      assert false;
    }
    EmptyLog(file);
    assert swept == [];
    SelectedIsShorter(FirstPass(file, limit, 0), parse, query);
    assert Log(file) == LinesFrom(file, 0, |file|, []);
  }

  lemma NothingAtTheEnd(file: Bytes)
    requires file != []
    ensures LinesFrom(file, |file|, |file|, []) == []
  {
    assert Scanned(file, |file|, |file|, []) == [] && Split<byte>([], NEWLINE) == [[]];
    var empty: Bytes := [];
    assert [empty][1..] == [];
  }

  lemma {:induction false} SelectedIsShorter(lines: seq<Bytes>, parse: Bytes -> Parsed, query: Query)
    ensures |Selected(lines, parse, query)| <= |lines|
  {
    if lines != [] { SelectedIsShorter(lines[1..], parse, query); }
  }

  /** Witness: two lines, the older one matching.  A feed of one event shows nothing, although the
      log holds a match and the scan was not truncated. */
  lemma FilteredFeedCanMissAMatch(chunkSize: nat, maxBytes: int, pos: nat, swept: seq<Bytes>,
                                  events: seq<Record>, truncated: bool)
    requires chunkSize >= 3 && maxBytes >= 3
    requires Feed([65, 10, 66], 1, ExampleParse, Recent(Some("acme"), {}), maxBytes, chunkSize, pos, swept,
                  events, truncated)
    ensures events == []
    ensures Selected(Log([65, 10, 66]), ExampleParse, Recent(Some("acme"), {})) == [ExampleRecord("acme")]
  {
    SmallLogIsNotSwept([65, 10, 66], 1, ExampleParse, Recent(Some("acme"), {}), maxBytes, chunkSize, pos,
                       swept, events, truncated);
    ExampleLog();
    ExampleSelection();
  }

  lemma ExampleLog()
    ensures Log([65, 10, 66]) == [[66], [65]]
    ensures Take(Log([65, 10, 66]), 1) == [[66]]
  {
    AllLinesOfFile([65, 10, 66]);
    SplitAtSeparator<byte>([65], [66], NEWLINE);
    SplitWithoutSeparator<byte>([65], NEWLINE);
    SplitWithoutSeparator<byte>([66], NEWLINE);
    assert [65] + [NEWLINE] + [66] == [65, 10, 66];
    assert !Blank([65]) by { assert !IsSpace([65 as byte][0]); }
    assert !Blank([66]) by { assert !IsSpace([66 as byte][0]); }
    assert [[65], [66]][1..] == [[66]];
    assert Newest([[66]]) == Newest([]) + [[66]];
  }

  lemma ExampleSelection()
    ensures Selected([[66]], ExampleParse, Recent(Some("acme"), {})) == []
    ensures Selected([[66], [65]], ExampleParse, Recent(Some("acme"), {})) == [ExampleRecord("acme")]
  {
    var query := Recent(Some("acme"), {});
    assert [[66]][1..] == [] && [[65]][1..] == [] && [[66], [65]][1..] == [[65]];
    assert Normalise(ExampleRecord("acme")) == ExampleRecord("acme");
    assert query.Matches(ExampleRecord("acme")) && !query.Matches(ExampleRecord("other")) by {
      assert "acme"[0] != "other"[0];
    }
    assert Selected([[65]], ExampleParse, query) == [ExampleRecord("acme")] + Selected([], ExampleParse, query);
  }

  function ExampleRecord(tenant: string): Record {
    Record(Text("tool_call"), Text(tenant), Text("GENERAL"), Text("r1"), "")
  }

  function ExampleParse(line: Bytes): Parsed {
    if line == [65] then Object(ExampleRecord("acme")) else Object(ExampleRecord("other"))
  }

  function Reverse<T>(s: seq<T>): seq<T> {
    if s == [] then [] else Reverse(s[1..]) + [s[0]]
  }

  lemma {:induction false} ReverseAt<T>(s: seq<T>)
    ensures |Reverse(s)| == |s| && forall k :: 0 <= k < |s| ==> Reverse(s)[k] == s[|s| - 1 - k]
  {
    if s != [] { ReverseAt(s[1..]); }
  }

  lemma ReverseTwice<T>(s: seq<T>)
    ensures Reverse(Reverse(s)) == s
  {
    ReverseAt(s);
    ReverseAt(Reverse(s));
  }

  lemma {:induction false} ReverseOfConcat<T>(a: seq<T>, b: seq<T>)
    ensures Reverse(a + b) == Reverse(b) + Reverse(a)
  {
    if a == [] {
      assert a + b == b;
    } else {
      ReverseOfConcat(a[1..], b);
      assert (a + b)[1..] == a[1..] + b;
    }
  }

  /** The complete lines in the last `maxBytes` bytes of the log, newest first. */
  function LinesWithin(file: Bytes, maxBytes: int): seq<Bytes> { WithinBudget(file, |file|, [], maxBytes) }

  /** Every line within the byte budget. */
  method ReadTail(path: Option<Bytes>, maxBytes: int, chunkSize: nat) returns (lines: seq<Bytes>, truncated: bool)
    requires chunkSize >= 1
    ensures lines == LinesWithin(Contents(path), maxBytes) <= Log(Contents(path))
    ensures truncated <==> |Contents(path)| > MaxInt(0, maxBytes)
    ensures !truncated ==> lines == Log(Contents(path))
  {
    var exhausted, pos, carry;
    lines, truncated, exhausted, pos, carry := TailRawLines(path, NoLimit, maxBytes, None, [], chunkSize);
    ghost var file := Contents(path);
    EmptyLog(file);
    if file != [] {
      TailIsNewestFirst(file, |file|, [], NoLimit, maxBytes, chunkSize, lines, truncated, pos, carry);
    }
  }

  /** The trace of one request in chronological order: every matching record of the log when the
      scan was not truncated, and otherwise the most recent ones of them without a gap; unless one of the lines
      within the byte budget raises. */
  method FindByRequestId(path: Option<Bytes>, query: Query, parse: Bytes -> Parsed, maxBytes: int, chunkSize: nat)
    returns (r: Outcome)
    requires chunkSize >= 1 && query.Trace?
    // exactly the lines with this request id, and of this tenant if one is given, oldest first
    ensures r.Found? ==> IsTrace(r.events, LinesWithin(Contents(path), maxBytes), parse, query)
    ensures r.Found? <==> NoneRaises(LinesWithin(Contents(path), maxBytes), parse, query)
    ensures NoneRaises(Log(Contents(path)), parse, query) ==> r.Found?
    ensures r.Found? ==>
              var trace := Reverse(Selected(Log(Contents(path)), parse, query));
              && |r.events| <= |trace|
              && r.events == trace[|trace| - |r.events|..]
              && (!r.scanTruncated ==> r.events == trace)
              && (r.scanTruncated <==> |Contents(path)| > MaxInt(0, maxBytes))
  {
    var rawLines, truncated := ReadTail(path, maxBytes, chunkSize);
    ghost var log := Log(Contents(path));
    TraceOfPrefix(rawLines, log, parse, query);
    var ok, matches := Collect([], rawLines, parse, query, NoLimit);
    if !ok {
      return Raised;
    }
    assert matches == Selected(rawLines, parse, query);
    r := Found(Reverse(matches), truncated);
    SelectedIsTrace(rawLines, parse, query);
  }

  /** The events are exactly the lines of this request, and of this tenant if one is given, oldest first. */
  ghost predicate IsTrace(events: seq<Record>, newestFirst: seq<Bytes>, parse: Bytes -> Parsed, query: Query)
    requires query.Trace?
  {
    && (forall e :: e in events ==> e.requestId == Text(query.requestId))
    && (query.tenant.Some? ==> forall e :: e in events ==> e.tenant == Text(query.tenant.value))
    && exists places :: Picks(Reverse(events), newestFirst, parse, query, places)
  }

  lemma SelectedIsTrace(lines: seq<Bytes>, parse: Bytes -> Parsed, query: Query)
    requires query.Trace?
    ensures IsTrace(Reverse(Selected(lines, parse, query)), lines, parse, query)
  {
    var places := SelectedPicks(lines, parse, query);
    ReverseTwice(Selected(lines, parse, query));
    PickedAreAsked(Reverse(Selected(lines, parse, query)), lines, parse, query, places);
  }

  lemma PickedAreAsked(events: seq<Record>, lines: seq<Bytes>, parse: Bytes -> Parsed, query: Query, places: seq<nat>)
    requires query.Trace? && Picks(Reverse(events), lines, parse, query, places)
    ensures forall e :: e in events ==> e.requestId == Text(query.requestId)
    ensures query.tenant.Some? ==> forall e :: e in events ==> e.tenant == Text(query.tenant.value)
  {
    ReverseAt(events);
    forall e | e in events
      ensures e.requestId == Text(query.requestId) && (query.tenant.Some? ==> e.tenant == Text(query.tenant.value))
    {
      var i :| 0 <= i < |events| && events[i] == e;
      var k := |events| - 1 - i;
      assert Reverse(events)[k] == e && ComesFrom(e, lines, places[k], parse, query);
    }
  }

  /** The newest lines hold the end of the chronological trace. */
  lemma TraceOfPrefix(newest: seq<Bytes>, log: seq<Bytes>, parse: Bytes -> Parsed, query: Query)
    requires newest <= log
    ensures var part := Reverse(Selected(newest, parse, query));
            var trace := Reverse(Selected(log, parse, query));
            |part| <= |trace| && part == trace[|trace| - |part|..]
    ensures NoneRaises(log, parse, query) ==> NoneRaises(newest, parse, query)
  {
    var older := log[|newest|..];
    assert log == newest + older;
    SelectedOfConcat(newest, older, parse, query);
    ReverseOfConcat(Selected(newest, parse, query), Selected(older, parse, query));
    assert forall i :: 0 <= i < |newest| ==> newest[i] == log[i];
  }
}
