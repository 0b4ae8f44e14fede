/** The reverse tail reader of the audit log (`_tail_raw_lines`): a backward,
    chunked scan with a carry buffer, a line quota and a byte budget, proved
    against "split the file on newline, drop blanks, reverse". */
module TailScan {
  import opened Common
  import opened Lines

  newtype byte = x: int | 0 <= x < 256
  type Bytes = seq<byte>

  const NEWLINE: byte := 10

  /** ASCII whitespace, as removed by strip() on a byte string. */
  predicate IsSpace(b: byte) { 9 <= b <= 13 || b == 32 }

  predicate Blank(raw: Bytes) { forall i :: 0 <= i < |raw| ==> IsSpace(raw[i]) }

  /** `needed`: a number of lines, or infinity. */
  datatype Quota = AtMost(n: int) | NoLimit

  predicate Reached(count: nat, needed: Quota) { needed.AtMost? && count >= needed.n }

  function Cut<T>(s: seq<T>, needed: Quota): seq<T> {
    if needed.NoLimit? then s else Take(s, MaxInt(needed.n, 0))
  }

  function Excess<T>(s: seq<T>, needed: Quota): seq<T> {
    if needed.NoLimit? then [] else Drop(s, MaxInt(needed.n, 0))
  }

  /** The non-blank parts, newest (last) first. */
  function Newest(parts: seq<Bytes>): seq<Bytes> {
    if parts == [] then []
    else Newest(parts[1..]) + (if Blank(parts[0]) then [] else [parts[0]])
  }

  lemma {:induction false} NewestOfConcat(a: seq<Bytes>, b: seq<Bytes>)
    ensures Newest(a + b) == Newest(b) + Newest(a)
  {
    if a == [] {
      assert a + b == b;
    } else {
      NewestOfConcat(a[1..], b);
      assert (a + b)[0] == a[0] && (a + b)[1..] == a[1..] + b;
      Assoc(Newest(b), Newest(a[1..]), if Blank(a[0]) then [] else [a[0]]);
    }
  }

  /** A part is kept when it holds a byte that is none of the six white-space characters; with NewestOfConcat and
      the empty list this determines Newest. */
  lemma {:induction false} NewestMembers(parts: seq<Bytes>)
    ensures Newest([]) == []
    ensures forall x :: x in Newest(parts) <==>
              x in parts && exists b :: b in x && b !in {9 as byte, 10, 11, 12, 13, 32}
  {
    if parts != [] {
      NewestMembers(parts[1..]);
      assert parts == [parts[0]] + parts[1..];
      BlankMeans(parts[0]);
    }
  }

  lemma BlankMeans(raw: Bytes)
    ensures !Blank(raw) <==> exists b :: b in raw && b !in {9 as byte, 10, 11, 12, 13, 32}
  {
    if !Blank(raw) {
      var i :| 0 <= i < |raw| && !IsSpace(raw[i]);
      assert raw[i] in raw;
    }
    if b :| b in raw && b !in {9 as byte, 10, 11, 12, 13, 32} {
      var i :| 0 <= i < |raw| && raw[i] == b;
      assert !IsSpace(raw[i]);
    }
  }

  /** seek(lo) then read(hi - lo): short when the file ends earlier. */
  function Read(file: Bytes, lo: nat, hi: nat): Bytes
    requires lo <= hi
  {
    file[MinInt(lo, |file|)..MinInt(hi, |file|)]
  }

  /** Everything between `pos` and where the scan started, plus the carry it started with. */
  function Scanned(file: Bytes, pos: nat, start: nat, carry: Bytes): Bytes
    requires pos <= start
  {
    Read(file, pos, start) + carry
  }

  /** The incomplete first line held over when the scan stands at `pos`. */
  function CarryAt(file: Bytes, pos: nat, start: nat, carry: Bytes): Bytes
    requires pos <= start
  {
    if pos == 0 then [] else Split(Scanned(file, pos, start, carry), NEWLINE)[0]
  }

  /** The lines known to be complete when the scan stands at `pos`, newest first. */
  function LinesFrom(file: Bytes, pos: nat, start: nat, carry: Bytes): seq<Bytes>
    requires pos <= start
  {
    var parts := Split(Scanned(file, pos, start, carry), NEWLINE);
    Newest(if pos == 0 then parts else parts[1..])
  }

  /** All lines at or before `start`: the reference the scan is measured against. */
  function AllLines(file: Bytes, start: nat, carry: Bytes): seq<Bytes> {
    Newest(Split(Read(file, 0, start) + carry, NEWLINE))
  }

  /** The lowest position a scan with this byte budget may reach. */
  function BudgetFloor(start: nat, maxBytes: int): (lo: nat)
    ensures lo <= start
  {
    MaxInt(0, start - MaxInt(0, maxBytes))
  }

  /** One read from `hi` down to `lo`, joined with the carry, yields exactly the parts
      that a single split of the whole scanned stretch would have yielded. */
  lemma ReadStep(file: Bytes, lo: nat, hi: nat, start: nat, carry: Bytes)
    requires lo <= hi <= start && hi > 0
    ensures var buffer := Read(file, lo, hi) + CarryAt(file, hi, start, carry);
            var parts := Split(buffer, NEWLINE);
            && LinesFrom(file, lo, start, carry)
               == LinesFrom(file, hi, start, carry) + Newest(if lo == 0 then parts else parts[1..])
            && CarryAt(file, lo, start, carry) == (if lo == 0 then [] else parts[0])
  {
    var newer := Scanned(file, hi, start, carry);
    var older := Read(file, lo, hi);
    assert Scanned(file, lo, start, carry) == older + newer;
    SplitWithCarry(older, newer, NEWLINE);
    NewestFromParts(Split(older + CarryAt(file, hi, start, carry), NEWLINE), Split(newer, NEWLINE)[1..]);
  }

  lemma NewestFromParts(parts: seq<Bytes>, rest: seq<Bytes>)
    requires |parts| >= 1
    ensures (parts + rest)[0] == parts[0]
    ensures Newest(parts + rest) == Newest(rest) + Newest(parts)
    ensures Newest((parts + rest)[1..]) == Newest(rest) + Newest(parts[1..])
  {
    TailOfConcat(parts, rest);
    NewestOfConcat(parts, rest);
    NewestOfConcat(parts[1..], rest);
  }

  /** Resuming from (pos, carry) loses nothing of the part not yet scanned: a scan of the
      whole stretch is the scan down to `pos` followed by a scan resumed there. */
  lemma ResumeConcatenates(file: Bytes, lo: nat, pos: nat, start: nat, carry: Bytes)
    requires lo <= pos <= start && pos > 0
    ensures LinesFrom(file, lo, start, carry)
            == LinesFrom(file, pos, start, carry)
               + (if lo == pos then [] else LinesFrom(file, lo, pos, CarryAt(file, pos, start, carry)))
  {
    ReadStep(file, lo, pos, start, carry);
    if lo == pos {
      var held := CarryAt(file, pos, start, carry);
      SplitIsInverseOfJoin(Scanned(file, pos, start, carry), NEWLINE);
      SplitWithoutSeparator(held, NEWLINE);
      assert Read(file, lo, pos) + held == held;
    }
  }

  /** Widening the scanned stretch only appends older lines. */
  lemma ScanGrows(file: Bytes, lo: nat, hi: nat, start: nat, carry: Bytes)
    requires lo <= hi <= start
    ensures LinesFrom(file, hi, start, carry) <= LinesFrom(file, lo, start, carry)
  {
    if hi > 0 { ReadStep(file, lo, hi, start, carry); }
  }

  /** What a scan standing at `pos` has found, plus what a scan resumed from its state
      can still find, is the whole reference list. */
  lemma NothingElseUnread(file: Bytes, pos: nat, start: nat, carry: Bytes)
    requires pos <= start
    ensures AllLines(file, start, carry)
            == LinesFrom(file, pos, start, carry)
               + AllLines(file, pos, CarryAt(file, pos, start, carry))
  {
    assert AllLines(file, start, carry) == LinesFrom(file, 0, start, carry);
    if pos == 0 {
      assert Read(file, 0, 0) + [] == [] && Split([], NEWLINE) == [[]];
      assert Newest([[]]) == Newest([]);
    } else {
      ReadStep(file, 0, pos, start, carry);
    }
  }

  /** Appends the non-blank parts newest first until the quota is reached. */
  method AppendNewest(found: seq<Bytes>, parts: seq<Bytes>, needed: Quota) returns (lines: seq<Bytes>)
    requires !Reached(|found|, needed)
    ensures lines == Cut(found + Newest(parts), needed)
  {
    lines := found;
    var k := |parts|;
    while k > 0
      invariant 0 <= k <= |parts|
      invariant !Reached(|lines|, needed)
      invariant lines == found + Newest(parts[k..])
    {
      k := k - 1;
      ghost var before := lines;
      assert parts[k..][1..] == parts[k + 1..];
      if !Blank(parts[k]) {
        lines := lines + [parts[k]];
        if Reached(|lines|, needed) {
          assert parts == parts[..k] + parts[k..];
          NewestOfConcat(parts[..k], parts[k..]);
          assert lines == found + Newest(parts[k..]);
          assert found + Newest(parts) == lines + Newest(parts[..k]);
          return;
        }
      }
    }
    assert parts[0..] == parts;
  }

  /** The position a scan starts from. */
  function StartOf(file: Bytes, startPos: Option<int>): int {
    if startPos.None? then |file| else startPos.value
  }

  /** The lines a scan may see within its byte budget: independent of the chunk size. */
  function WithinBudget(file: Bytes, start: nat, carry: Bytes, maxBytes: int): seq<Bytes> {
    LinesFrom(file, BudgetFloor(start, maxBytes), start, carry)
  }

  /** What a finished scan has to show for itself. */
  ghost predicate ScanResult(file: Bytes, start: nat, carry: Bytes, needed: Quota, maxBytes: int,
                             chunkSize: nat, lines: seq<Bytes>, truncated: bool, nextPos: nat,
                             nextCarry: Bytes)
  {
    var floor := BudgetFloor(start, maxBytes);
    var found := WithinBudget(file, start, carry, maxBytes);
    // the answer does not depend on the chunk size
    && lines == Cut(found, needed)
    && (truncated <==> floor > 0 && !Reached(|found|, needed))
    // the resume state is exactly that of a scan standing at nextPos
    && floor <= nextPos <= start
    && nextCarry == CarryAt(file, nextPos, start, carry)
    && lines == Cut(LinesFrom(file, nextPos, start, carry), needed)
    // it stops above its floor only for the quota, at the first chunk boundary that reaches it
    && (nextPos > floor ==> Reached(|LinesFrom(file, nextPos, start, carry)|, needed))
    && OpenAbove(file, nextPos, start, carry, needed, chunkSize)
    && (nextPos == floor || WholeChunks(start - nextPos, chunkSize))
  }

  /** n bytes are a whole number of chunks. */
  ghost predicate WholeChunks(n: nat, chunkSize: nat) {
    n == 0 || (0 < chunkSize <= n && WholeChunks(n - chunkSize, chunkSize))
  }

  /** The quota was still open at every position from `pos` up to the start. */
  ghost predicate OpenFrom(file: Bytes, pos: nat, start: nat, carry: Bytes, needed: Quota) {
    forall p :: pos <= p <= start ==> !Reached(|LinesFrom(file, p, start, carry)|, needed)
  }

  /** The quota was still open at every chunk boundary above `pos`. */
  ghost predicate OpenAbove(file: Bytes, pos: nat, start: nat, carry: Bytes, needed: Quota, chunkSize: nat) {
    forall p :: pos < p <= start && WholeChunks(start - p, chunkSize) ==>
      !Reached(|LinesFrom(file, p, start, carry)|, needed)
  }

  /** Different chunk boundaries are at least a chunk apart. */
  lemma {:induction false} ChunksApart(a: nat, b: nat, chunkSize: nat)
    requires WholeChunks(a, chunkSize) && WholeChunks(b, chunkSize) && a < b
    ensures a + chunkSize <= b
  {
    if a > 0 { ChunksApart(a - chunkSize, b - chunkSize, chunkSize); }
  }

  /** While the quota is open at `pos` it was open at every higher position too. */
  lemma NotReachedAbove(file: Bytes, pos: nat, start: nat, carry: Bytes, needed: Quota)
    requires pos <= start
    requires !Reached(|Cut(LinesFrom(file, pos, start, carry), needed)|, needed)
    ensures Cut(LinesFrom(file, pos, start, carry), needed) == LinesFrom(file, pos, start, carry)
    ensures OpenFrom(file, pos, start, carry, needed)
  {
    forall p | pos <= p <= start
      ensures !Reached(|LinesFrom(file, p, start, carry)|, needed)
    {
      ScanGrows(file, pos, p, start, carry);
    }
  }

  /** The state of the scan between two turns. */
  ghost predicate Standing(file: Bytes, start: nat, carry: Bytes, needed: Quota, maxBytes: int,
                           chunkSize: nat, lines: seq<Bytes>, pos: nat, carryBuf: Bytes)
  {
    && BudgetFloor(start, maxBytes) <= pos <= start
    && carryBuf == CarryAt(file, pos, start, carry)
    && lines == Cut(LinesFrom(file, pos, start, carry), needed)
    && OpenAbove(file, pos, start, carry, needed, chunkSize)
    && (pos == BudgetFloor(start, maxBytes) || WholeChunks(start - pos, chunkSize))
  }

  lemma StandingAtStart(file: Bytes, start: nat, carry: Bytes, needed: Quota, maxBytes: int, chunkSize: nat)
    requires chunkSize >= 1 && start > 0 && NEWLINE !in carry
    ensures Standing(file, start, carry, needed, maxBytes, chunkSize, [], start, carry)
  {
    SplitWithoutSeparator(carry, NEWLINE);
    assert Scanned(file, start, start, carry) == carry;
    assert LinesFrom(file, start, start, carry) == Newest([]);
  }

  /** The number of bytes read in one turn. */
  function ReadSize(chunkSize: nat, pos: nat, start: nat, maxBytes: int): (size: nat)
    requires chunkSize >= 1 && BudgetFloor(start, maxBytes) < pos <= start
    ensures 1 <= size <= pos - BudgetFloor(start, maxBytes)
    ensures size == chunkSize || size == pos - BudgetFloor(start, maxBytes)
    ensures size <= chunkSize
  {
    MinInt(MinInt(chunkSize, pos), maxBytes - (start - pos))
  }

  lemma StandingAfterChunk(file: Bytes, start: nat, carry: Bytes, needed: Quota, maxBytes: int,
                           chunkSize: nat, found: seq<Bytes>, pos: nat, carryBuf: Bytes, lo: nat)
    requires chunkSize >= 1 && BudgetFloor(start, maxBytes) < pos <= start
    requires Standing(file, start, carry, needed, maxBytes, chunkSize, found, pos, carryBuf)
    requires !Reached(|found|, needed)
    requires lo == pos - ReadSize(chunkSize, pos, start, maxBytes)
    ensures var parts := Split(Read(file, lo, pos) + carryBuf, NEWLINE);
            Standing(file, start, carry, needed, maxBytes, chunkSize,
                     Cut(found + Newest(if lo == 0 then parts else parts[1..]), needed), lo,
                     if lo == 0 then [] else parts[0])
  {
    ReadStep(file, lo, pos, start, carry);
    NotReachedAbove(file, pos, start, carry, needed);
    forall p | lo < p <= start && WholeChunks(start - p, chunkSize)
      ensures !Reached(|LinesFrom(file, p, start, carry)|, needed)
    {
      if p < pos { ChunksApart(start - pos, start - p, chunkSize); }
    }
    assert lo == BudgetFloor(start, maxBytes) || WholeChunks(start - lo, chunkSize);
  }

  /** One turn of the scan: reads one chunk and joins it with the carry. */
  method ScanChunk(file: Bytes, pos: nat, carryBuf: Bytes, found: seq<Bytes>, needed: Quota,
                   start: nat, maxBytes: int, chunkSize: nat, ghost carry: Bytes)
    returns (lines: seq<Bytes>, lo: nat, held: Bytes)
    requires chunkSize >= 1 && BudgetFloor(start, maxBytes) < pos <= start
    requires Standing(file, start, carry, needed, maxBytes, chunkSize, found, pos, carryBuf)
    requires !Reached(|found|, needed)
    ensures lo < pos
    ensures Standing(file, start, carry, needed, maxBytes, chunkSize, lines, lo, held)
  {
    lo := pos - ReadSize(chunkSize, pos, start, maxBytes);
    StandingAfterChunk(file, start, carry, needed, maxBytes, chunkSize, found, pos, carryBuf, lo);
    var parts := Split(Read(file, lo, pos) + carryBuf, NEWLINE);
    var completeParts;
    if lo > 0 {
      held := parts[0];
      completeParts := parts[1..];
    } else {
      held := [];
      completeParts := parts;
    }
    lines := AppendNewest(found, completeParts, needed);
  }

  /** The scan loop; the bytes scanned so far are always start - pos. */
  method ScanBack(file: Bytes, start: nat, carry: Bytes, needed: Quota, maxBytes: int, chunkSize: nat)
    returns (lines: seq<Bytes>, truncated: bool, pos: nat, carryBuf: Bytes)
    requires chunkSize >= 1 && start > 0
    requires NEWLINE !in carry
    ensures ScanResult(file, start, carry, needed, maxBytes, chunkSize, lines, truncated, pos, carryBuf)
  {
    lines, pos, carryBuf := [], start, carry;
    StandingAtStart(file, start, carry, needed, maxBytes, chunkSize);
    while pos > 0 && !Reached(|lines|, needed) && start - pos < maxBytes
      invariant Standing(file, start, carry, needed, maxBytes, chunkSize, lines, pos, carryBuf)
      decreases pos
    {
      lines, pos, carryBuf := ScanChunk(file, pos, carryBuf, lines, needed, start, maxBytes, chunkSize, carry);
    }
    truncated := pos > 0 && !Reached(|lines|, needed) && start - pos >= maxBytes;
    StoppedScan(file, pos, start, carry, needed, maxBytes);
  }

  /** A scan that stopped at its floor or at its quota has the answer of the whole budget. */
  lemma StoppedScan(file: Bytes, pos: nat, start: nat, carry: Bytes, needed: Quota, maxBytes: int)
    requires BudgetFloor(start, maxBytes) <= pos <= start
    requires pos == BudgetFloor(start, maxBytes)
             || Reached(|Cut(LinesFrom(file, pos, start, carry), needed)|, needed)
    ensures Cut(WithinBudget(file, start, carry, maxBytes), needed)
            == Cut(LinesFrom(file, pos, start, carry), needed)
    ensures pos != BudgetFloor(start, maxBytes) ==>
              && Reached(|LinesFrom(file, pos, start, carry)|, needed)
              && Reached(|WithinBudget(file, start, carry, maxBytes)|, needed)
    ensures Reached(|Cut(WithinBudget(file, start, carry, maxBytes), needed)|, needed)
            <==> Reached(|WithinBudget(file, start, carry, maxBytes)|, needed)
  {
    ScanGrows(file, BudgetFloor(start, maxBytes), pos, start, carry);
  }

  method TailRawLines(path: Option<Bytes>, needed: Quota, maxBytes: int, startPos: Option<int>,
                      carry: Bytes, chunkSize: nat)
    returns (lines: seq<Bytes>, truncated: bool, exhausted: bool, nextPos: nat, nextCarry: Bytes)
    requires chunkSize >= 1
    requires NEWLINE !in carry  // a partial line; proved again for the state handed back
    ensures NEWLINE !in nextCarry
    ensures exhausted <==> nextPos == 0
    // a missing or empty file, or nothing left to scan
    ensures path.None? || path.value == [] || StartOf(path.value, startPos) <= 0 ==>
              lines == [] && !truncated && exhausted
    ensures path.None? || path.value == [] ==> nextCarry == []
    ensures path.Some? && path.value != [] && StartOf(path.value, startPos) <= 0 ==> nextCarry == carry
    ensures path.Some? && path.value != [] && StartOf(path.value, startPos) > 0 ==>
              ScanResult(path.value, StartOf(path.value, startPos), carry, needed, maxBytes, chunkSize,
                         lines, truncated, nextPos, nextCarry)
  {
    if path.None? || |path.value| == 0 {
      return [], false, true, 0, [];
    }
    var pos := StartOf(path.value, startPos);
    if pos <= 0 {
      return [], false, true, 0, carry;
    }
    lines, truncated, nextPos, nextCarry := ScanBack(path.value, pos, carry, needed, maxBytes, chunkSize);
    exhausted := nextPos == 0;
    if nextPos > 0 { SplitIsInverseOfJoin(Scanned(path.value, nextPos, pos, carry), NEWLINE); }
  }

  /** For every file, quota, budget and chunk size the lines are the newest non-blank lines, in
      order: a prefix of them, and exactly the first `needed` unless the scan was truncated. */
  lemma TailIsNewestFirst(file: Bytes, start: nat, carry: Bytes, needed: Quota, maxBytes: int,
                          chunkSize: nat, lines: seq<Bytes>, truncated: bool, nextPos: nat, nextCarry: Bytes)
    requires ScanResult(file, start, carry, needed, maxBytes, chunkSize, lines, truncated, nextPos, nextCarry)
    ensures lines <= AllLines(file, start, carry)
    ensures !truncated ==> lines == Cut(AllLines(file, start, carry), needed)
  {
    var found := WithinBudget(file, start, carry, maxBytes);
    assert AllLines(file, start, carry) == LinesFrom(file, 0, start, carry);
    ScanGrows(file, 0, BudgetFloor(start, maxBytes), start, carry);
    assert lines == Cut(found, needed);
    CutOfPrefix(found, AllLines(file, start, carry), needed);
  }

  lemma CutOfPrefix(s: seq<Bytes>, t: seq<Bytes>, needed: Quota)
    requires s <= t
    ensures Cut(s, needed) <= t
    ensures Reached(|s|, needed) ==> Cut(s, needed) == Cut(t, needed)
  {
  }

  /** From the end of the file the reference is the plain reading of the file. */
  lemma AllLinesOfFile(file: Bytes)
    ensures AllLines(file, |file|, []) == Newest(Split(file, NEWLINE))
  {
    assert Read(file, 0, |file|) + [] == file;
  }

  /** Where every line ends up: in the answer, within reach of a scan resumed from the returned
      state, or in the stretch already read beyond the quota, which neither of them holds.
      Resuming is lossless exactly when that stretch held no more lines than were asked for. */
  lemma ResumeAccounting(file: Bytes, start: nat, carry: Bytes, needed: Quota, maxBytes: int,
                         chunkSize: nat, lines: seq<Bytes>, truncated: bool, nextPos: nat, nextCarry: Bytes)
    requires ScanResult(file, start, carry, needed, maxBytes, chunkSize, lines, truncated, nextPos, nextCarry)
    ensures AllLines(file, start, carry)
            == lines + Excess(LinesFrom(file, nextPos, start, carry), needed)
               + AllLines(file, nextPos, nextCarry)
    ensures AllLines(file, start, carry) == lines + AllLines(file, nextPos, nextCarry)
            <==> |LinesFrom(file, nextPos, start, carry)| == |lines|
    ensures truncated ==> |LinesFrom(file, nextPos, start, carry)| == |lines|
  {
    NothingElseUnread(file, nextPos, start, carry);
    CutAndExcess(LinesFrom(file, nextPos, start, carry), AllLines(file, nextPos, nextCarry), needed);
  }

  lemma CutAndExcess(here: seq<Bytes>, unread: seq<Bytes>, needed: Quota)
    ensures here + unread == Cut(here, needed) + Excess(here, needed) + unread
    ensures here + unread == Cut(here, needed) + unread <==> |here| == |Cut(here, needed)|
    ensures !Reached(|here|, needed) ==> Cut(here, needed) == here
  {
    assert here == Cut(here, needed) + Excess(here, needed);
    if here + unread == Cut(here, needed) + unread {
      assert |here + unread| == |here| + |unread|;
    }
  }

  /** A scan stopped by its byte budget and resumed with a second budget finds what one scan
      with both budgets finds. */
  lemma BudgetsAdd(file: Bytes, start: nat, carry: Bytes, first: nat, second: nat)
    requires BudgetFloor(start, first) > 0
    ensures var pos := BudgetFloor(start, first);
            WithinBudget(file, start, carry, first + second)
            == WithinBudget(file, start, carry, first)
               + WithinBudget(file, pos, CarryAt(file, pos, start, carry), second)
  {
    var pos := BudgetFloor(start, first);
    var lo := BudgetFloor(start, first + second);
    assert lo == BudgetFloor(pos, second);
    ResumeConcatenates(file, lo, pos, start, carry);
    if lo == pos {
      var held := CarryAt(file, pos, start, carry);
      SplitIsInverseOfJoin(Scanned(file, pos, start, carry), NEWLINE);
      SplitWithoutSeparator(held, NEWLINE);
      assert Scanned(file, pos, pos, held) == held;
      assert LinesFrom(file, pos, pos, held) == Newest([]);
    }
  }
}
