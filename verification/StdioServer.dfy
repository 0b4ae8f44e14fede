/** The stdio transport of `core/mcp_server.py`: a loop of bounded reads that must serve the same
    messages as splitting the whole stream at newlines, and the dispatch of one message. */
module StdioServer {
  import opened Common
  import opened Lines

  // ---- One message ----

  const PARSE_ERROR := -32700
  const INVALID_REQUEST := -32600
  const METHOD_NOT_FOUND := -32601
  const INVALID_PARAMS := -32602
  const INTERNAL_ERROR := -32603

  /** The `method` of a message: missing or not a string, one of the four the server knows, or another. */
  datatype Method = NoMethod | Initialize | Initialized | ToolsList | ToolsCall | Unknown

  /** The `params` of a message; missing and empty ones count as an empty object. */
  datatype Params = ObjectParams(validName: bool, validArguments: bool) | OtherParams

  /** A message with or without an `id`; an id may be null. */
  datatype Message = Message(id: Option<string>, call: Method, params: Params)

  /** What parsing a line comes to; `Fatal` is an exception that the loop does not catch, as for a line nested
      too deeply. */
  datatype Parsed = Malformed | NotAnObject | Request(message: Message) | Fatal

  /** A response carries the id of its request, or none (null) when there is no telling. */
  datatype Response = Result(id: Option<string>) | Error(id: Option<string>, code: int)

  datatype Handled = NoReply | Reply(response: Response) | Raised

  /** `toolRaises` says whether the tool call itself fails with an exception. */
  function HandleRequest(m: Message, toolRaises: bool): Handled {
    match m.call
    case NoMethod => if m.id.None? then NoReply else Reply(Error(m.id, INVALID_REQUEST))
    case Initialize => Reply(Result(m.id))
    case Initialized => NoReply
    case ToolsList => Reply(Result(m.id))
    case ToolsCall =>
      if m.params.OtherParams? then Raised
      else if !m.params.validName || !m.params.validArguments then
        if m.id.None? then NoReply else Reply(Error(m.id, INVALID_PARAMS))
      else if toolRaises then Raised
      else if m.id.None? then NoReply
      else Reply(Result(m.id))
    case Unknown => if m.id.None? then NoReply else Reply(Error(m.id, METHOD_NOT_FOUND))
  }

  /** What the loop writes for one non-blank line. */
  function Respond(p: Parsed, toolRaises: bool): seq<Response> {
    match p
    case Malformed => [Error(None, PARSE_ERROR)]
    case NotAnObject => [Error(None, INVALID_REQUEST)]
    case Fatal => []
    case Request(m) =>
      match HandleRequest(m, toolRaises)
      case NoReply => []
      case Reply(r) => [r]
      case Raised => if m.id.Some? then [Error(m.id, INTERNAL_ERROR)] else []
  }

  /** JSON-RPC 2.0 asks for a reply to exactly the messages that carry an id.  The server does that if and
      only if the method is none of `initialize`, `tools/list` (answered without an id too) and
      `notifications/initialized` (never answered); and a reply always carries the id it answers. */
  lemma RepliesAsTheProtocolAsks(m: Message, toolRaises: bool)
    ensures |Respond(Request(m), toolRaises)| <= 1
    ensures forall r :: r in Respond(Request(m), toolRaises) ==> r.id == m.id
    ensures Respond(Request(m), toolRaises) != [] <==>
              m.call.Initialize? || m.call.ToolsList? || (m.id.Some? && !m.call.Initialized?)
    ensures (Respond(Request(m), toolRaises) != [] <==> m.id.Some?) <==>
              (m.id.Some? && !m.call.Initialized?) || (m.id.None? && !m.call.Initialize? && !m.call.ToolsList?)
  {
  }

  /** What each reply says: a result for a call that succeeds, and otherwise the code that names what was wrong. */
  lemma CodesSayWhy(m: Message, toolRaises: bool)
    ensures var replies := Respond(Request(m), toolRaises);
            var wrongParams := m.params.ObjectParams? && !(m.params.validName && m.params.validArguments);
            var fails := m.params.OtherParams? || (!wrongParams && toolRaises);
            && (Result(m.id) in replies <==>
                  m.call.Initialize? || m.call.ToolsList?
                  || (m.call.ToolsCall? && m.id.Some? && !wrongParams && !fails))
            && (Error(m.id, -32600) in replies <==> m.id.Some? && m.call.NoMethod?)
            && (Error(m.id, -32601) in replies <==> m.id.Some? && m.call.Unknown?)
            && (Error(m.id, -32602) in replies <==> m.id.Some? && m.call.ToolsCall? && wrongParams)
            && (Error(m.id, -32603) in replies <==> m.id.Some? && m.call.ToolsCall? && fails)
    ensures Respond(Malformed, toolRaises) == [Error(None, -32700)]
    ensures Respond(NotAnObject, toolRaises) == [Error(None, -32600)]
  {
  }

  // ---- Reading lines ----

  const NL := '\n'

  /** readline(n): up to n characters, ending after the first newline. */
  function ReadLine(s: string, n: nat): (r: (string, string))
    ensures r.0 + r.1 == s && |r.0| <= n
  {
    if s == [] || n == 0 then ([], s)
    else if s[0] == NL then ([NL], s[1..])
    else
      var (line, rest) := ReadLine(s[1..], n - 1);
      ([s[0]] + line, rest)
  }

  predicate EndsLine(raw: string) { raw != [] && raw[|raw| - 1] == NL }

  /** The stream after its first line. */
  function AfterLine(s: string): string {
    if s == [] then [] else if s[0] == NL then s[1..] else AfterLine(s[1..])
  }

  function FirstLine(s: string): string {
    if s == [] || s[0] == NL then [] else [s[0]] + FirstLine(s[1..])
  }

  lemma {:induction false} SplitFirstLine(s: string)
    ensures Split(s, NL)[0] == FirstLine(s) && NL !in FirstLine(s)
    ensures Split(s, NL) == [FirstLine(s)] + (if NL in s then Split(AfterLine(s), NL) else [])
    ensures NL !in s ==> FirstLine(s) == s && AfterLine(s) == []
  {
    if s != [] {
      assert s == [s[0]] + s[1..];
      if s[0] != NL { SplitFirstLine(s[1..]); }
    }
  }

  /** A bounded read takes the first line with its newline, or a piece of a longer one. */
  ghost predicate TakesLine(s: string, n: nat, raw: string, rest: string) {
    && (raw == [] <==> s == [])
    && (EndsLine(raw) ==> raw == FirstLine(s) + [NL] && rest == AfterLine(s))
    && (!EndsLine(raw) ==> AfterLine(rest) == AfterLine(s) && |raw| <= |FirstLine(s)|)
    && (!EndsLine(raw) && |raw| < n ==> raw == s && FirstLine(s) == s && rest == [])
  }

  lemma {:induction false} ReadLineTakes(s: string, n: nat)
    requires n >= 1
    ensures TakesLine(s, n, ReadLine(s, n).0, ReadLine(s, n).1)
  {
    if s != [] && s[0] != NL {
      if n == 1 {
        var none: string := [];
        assert ReadLine(s[1..], 0) == (none, s[1..]) && [s[0]] + none == [s[0]];
      } else {
        ReadLineTakes(s[1..], n - 1);
        LongerLine(s, n, ReadLine(s[1..], n - 1).0, ReadLine(s[1..], n - 1).1);
      }
    }
  }

  lemma LongerLine(s: string, n: nat, line: string, rest: string)
    requires s != [] && s[0] != NL && n >= 2
    requires TakesLine(s[1..], n - 1, line, rest)
    ensures TakesLine(s, n, [s[0]] + line, rest)
  {
    var raw := [s[0]] + line;
    assert s == [s[0]] + s[1..];
    assert line != [] ==> raw[|raw| - 1] == line[|line| - 1];
    if EndsLine(line) { assert raw == [s[0]] + FirstLine(s[1..]) + [NL]; }
  }

  // ---- The reference: split, then serve line by line ----

  predicate IsSpace(c: char) { c == ' ' || '\t' <= c <= '\r' }

  function StripRight(s: string): string {
    if s != [] && IsSpace(s[|s| - 1]) then StripRight(s[..|s| - 1]) else s
  }

  function StripLeft(s: string): string { if s != [] && IsSpace(s[0]) then StripLeft(s[1..]) else s }

  function Strip(s: string): string { StripLeft(StripRight(s)) }

  /** The six characters that strip() removes here. */
  predicate WhiteSpace(s: string) {
    forall i :: 0 <= i < |s| ==> s[i] in {' ', '\t', '\n', '\U{000B}', '\U{000C}', '\r'}
  }

  lemma {:induction false} StripRightMeans(s: string) returns (after: string)
    ensures s == StripRight(s) + after && WhiteSpace(after)
    ensures StripRight(s) != "" ==> !WhiteSpace([StripRight(s)[|StripRight(s)| - 1]])
  {
    after := "";
    if s != "" && IsSpace(s[|s| - 1]) {
      var rest := StripRightMeans(s[..|s| - 1]);
      after := rest + [s[|s| - 1]];
      assert s == s[..|s| - 1] + [s[|s| - 1]];
    } else if s != "" {
      assert [s[|s| - 1]][0] == s[|s| - 1];
    }
  }

  lemma {:induction false} StripLeftMeans(s: string) returns (before: string)
    ensures s == before + StripLeft(s) && WhiteSpace(before)
    ensures StripLeft(s) != "" ==> !WhiteSpace([StripLeft(s)[0]])
  {
    before := "";
    if s != "" && IsSpace(s[0]) {
      var rest := StripLeftMeans(s[1..]);
      before := [s[0]] + rest;
      assert s == [s[0]] + s[1..];
    } else if s != "" {
      assert [s[0]][0] == s[0];
    }
  }

  /** Stripping takes white space off both ends, and all of it. */
  lemma StripMeans(s: string) returns (before: string, after: string)
    ensures s == before + Strip(s) + after && WhiteSpace(before) && WhiteSpace(after)
    ensures Strip(s) != "" ==> !WhiteSpace([Strip(s)[0]]) && !WhiteSpace([Strip(s)[|Strip(s)| - 1]])
  {
    after := StripRightMeans(s);
    before := StripLeftMeans(StripRight(s));
    var mid := Strip(s);
    if mid != "" { assert StripRight(s)[|StripRight(s)| - 1] == mid[|mid| - 1]; }
  }

  /** One line of the stream gets one answer at most: the parse error if it is over the limit, else what its message
      gets; white space around that message does not matter.  It ends the server if its message is one whose parsing
      raises. */
  lemma OneAnswerPerLine(before: string, message: string, after: string, limit: nat, parse: string -> Parsed,
                         toolRaises: string -> bool)
    requires WhiteSpace(before) && WhiteSpace(after)
    requires message != "" ==> !WhiteSpace([message[0]]) && !WhiteSpace([message[|message| - 1]])
    ensures var line := before + message + after;
            var answers := Answer(line, limit, parse, toolRaises);
            && |answers| <= 1
            && (Ends(line, limit, parse) <==> |line| <= limit && message != "" && parse(message) == Fatal)
            && (|line| > limit ==> answers == [Error(None, -32700)])
            && (|line| <= limit && message == "" ==> answers == [])
            && (|line| <= limit && message != "" ==> answers == Respond(parse(message), toolRaises(message)))
  {
    StripFinds(before, message, after);
  }

  lemma StripFinds(before: string, message: string, after: string)
    requires WhiteSpace(before) && WhiteSpace(after)
    requires message != "" ==> !WhiteSpace([message[0]]) && !WhiteSpace([message[|message| - 1]])
    ensures Strip(before + message + after) == message
  {
    StripRightFinds(before + message, after);
    if message == "" {
      StripRightFinds("", before);
      assert before + "" == before && "" + before == before;
    } else {
      assert (before + message)[|before + message| - 1] == message[|message| - 1];
      assert [message[|message| - 1]][0] == message[|message| - 1];
      StripLeftFinds(before, message);
    }
  }

  lemma {:induction false} StripRightFinds(s: string, after: string)
    requires WhiteSpace(after)
    ensures StripRight(s + after) == StripRight(s)
  {
    if after == "" {
      assert s + after == s;
    } else {
      var last := |after| - 1;
      assert (s + after)[..|s + after| - 1] == s + after[..last];
      assert (s + after)[|s + after| - 1] == after[last];
      StripRightFinds(s, after[..last]);
    }
  }

  lemma {:induction false} StripLeftFinds(before: string, message: string)
    requires WhiteSpace(before) && message != "" && !WhiteSpace([message[0]])
    ensures StripLeft(before + message) == message
  {
    if before == "" {
      assert before + message == message;
      assert [message[0]][0] == message[0];
    } else {
      assert (before + message)[1..] == before[1..] + message;
      StripLeftFinds(before[1..], message);
    }
  }

  /** What one line of the stream is answered with. */
  function Answer(line: string, limit: nat, parse: string -> Parsed, toolRaises: string -> bool): seq<Response> {
    if |line| > limit then [Error(None, PARSE_ERROR)]
    else if Strip(line) == [] then []
    else Respond(parse(Strip(line)), toolRaises(Strip(line)))
  }

  function AnswerAll(lines: seq<string>, limit: nat, parse: string -> Parsed,
                     toolRaises: string -> bool): seq<Response> {
    if lines == [] then []
    else Answer(lines[0], limit, parse, toolRaises) + AnswerAll(lines[1..], limit, parse, toolRaises)
  }

  /** The line ends the server. */
  predicate Ends(line: string, limit: nat, parse: string -> Parsed) {
    |line| <= limit && Strip(line) != [] && parse(Strip(line)).Fatal?
  }

  /** The first line that ends the server, or the number of lines. */
  function Until(lines: seq<string>, limit: nat, parse: string -> Parsed): (n: nat)
    ensures n <= |lines|
    ensures forall i :: 0 <= i < n ==> !Ends(lines[i], limit, parse)
    ensures n < |lines| ==> Ends(lines[n], limit, parse)
  {
    if lines == [] || Ends(lines[0], limit, parse) then 0
    else
      var n := Until(lines[1..], limit, parse);
      assert forall i :: 1 <= i < |lines| ==> lines[i] == lines[1..][i - 1];
      n + 1
  }

  /** The answers to a whole stream, read in one piece, up to a line that ends the server. */
  function AnswerStream(s: string, limit: nat, parse: string -> Parsed, toolRaises: string -> bool): seq<Response> {
    Served(Split(s, NL), limit, parse, toolRaises)
  }

  function Served(lines: seq<string>, limit: nat, parse: string -> Parsed, toolRaises: string -> bool): seq<Response> {
    AnswerAll(lines[..Until(lines, limit, parse)], limit, parse, toolRaises)
  }

  /** Some line of the stream ends the server. */
  predicate Breaks(s: string, limit: nat, parse: string -> Parsed) {
    Until(Split(s, NL), limit, parse) < |Split(s, NL)|
  }

  /** One line more in front. */
  lemma LinesCons(x: string, rest: seq<string>, limit: nat, parse: string -> Parsed, toolRaises: string -> bool)
    requires !Ends(x, limit, parse)
    ensures Until([x] + rest, limit, parse) == Until(rest, limit, parse) + 1
    ensures Served([x] + rest, limit, parse, toolRaises)
            == Answer(x, limit, parse, toolRaises) + Served(rest, limit, parse, toolRaises)
  {
    var n := Until(rest, limit, parse);
    assert ([x] + rest)[1..] == rest;
    assert ([x] + rest)[..n + 1] == [x] + rest[..n];
    assert ([x] + rest[..n])[1..] == rest[..n];
  }

  lemma NothingToAnswer(limit: nat, parse: string -> Parsed, toolRaises: string -> bool)
    ensures AnswerStream([], limit, parse, toolRaises) == [] && !Breaks([], limit, parse)
  {
    var empty: string := [];
    assert Split(empty, NL) == [empty] && [empty][1..] == [];
    assert !Ends(empty, limit, parse);
    LinesCons(empty, [], limit, parse, toolRaises);
    assert [empty] + [] == [empty];
  }

  lemma AnswerFirstLine(s: string, limit: nat, parse: string -> Parsed, toolRaises: string -> bool)
    ensures Ends(FirstLine(s), limit, parse) ==>
              AnswerStream(s, limit, parse, toolRaises) == [] && Breaks(s, limit, parse)
    ensures !Ends(FirstLine(s), limit, parse) ==>
              && AnswerStream(s, limit, parse, toolRaises)
                 == Answer(FirstLine(s), limit, parse, toolRaises)
                   + AnswerStream(AfterLine(s), limit, parse, toolRaises)
              && (Breaks(s, limit, parse) <==> Breaks(AfterLine(s), limit, parse))
  {
    SplitFirstLine(s);
    NothingToAnswer(limit, parse, toolRaises);
    var rest := if NL in s then Split(AfterLine(s), NL) else [];
    if !Ends(FirstLine(s), limit, parse) { LinesCons(FirstLine(s), rest, limit, parse, toolRaises); }
  }

  lemma NewlineIsStripped(s: string)
    ensures Strip(s + [NL]) == Strip(s)
  {
    assert (s + [NL])[..|s|] == s;
  }

  /** The transport loop: it writes exactly the answers of the plain reading, in the same order, to the end of
      the stream or to the first line that raises outside the loop's own handlers; `raised` says which.  An
      over-limit line gets one null-id error and the next line is served as if nothing had happened. */
  method Serve(input: string, limit: nat, parse: string -> Parsed, toolRaises: string -> bool)
    returns (out: seq<Response>, raised: bool)
    ensures out == AnswerStream(input, limit, parse, toolRaises)
    ensures raised <==> Breaks(input, limit, parse)
    ensures !raised ==> out == AnswerAll(Split(input, NL), limit, parse, toolRaises)
  {
    out, raised := [], false;
    var stream := input;
    NothingToAnswer(limit, parse, toolRaises);
    while stream != [] && !raised
      invariant raised ==> Breaks(input, limit, parse) && out == AnswerStream(input, limit, parse, toolRaises)
      invariant !raised ==>
                  && out + AnswerStream(stream, limit, parse, toolRaises)
                     == AnswerStream(input, limit, parse, toolRaises)
                  && (Breaks(stream, limit, parse) <==> Breaks(input, limit, parse))
      decreases |stream|, !raised
    {
      var answers, rest;
      answers, rest, raised := ServeLine(stream, limit, parse, toolRaises);
      Assoc(out, answers, AnswerStream(rest, limit, parse, toolRaises));
      out, stream := out + answers, rest;
    }
    var lines := Split(input, NL);
    assert lines[..|lines|] == lines;
  }

  /** One turn of the loop on a stream that is not at its end. */
  method ServeLine(stream: string, limit: nat, parse: string -> Parsed, toolRaises: string -> bool)
    returns (answers: seq<Response>, rest: string, raised: bool)
    requires stream != []
    ensures raised <==> Ends(FirstLine(stream), limit, parse)
    ensures rest == AfterLine(stream) && |rest| < |stream|
    ensures answers == if raised then [] else Answer(FirstLine(stream), limit, parse, toolRaises)
    ensures raised ==> AnswerStream(stream, limit, parse, toolRaises) == [] && Breaks(stream, limit, parse)
    ensures !raised ==>
              && answers + AnswerStream(rest, limit, parse, toolRaises)
                 == AnswerStream(stream, limit, parse, toolRaises)
              && (Breaks(rest, limit, parse) <==> Breaks(stream, limit, parse))
  {
    AnswerFirstLine(stream, limit, parse, toolRaises);
    ReadLineTakes(stream, limit + 1);
    var (raw, remaining) := ReadLine(stream, limit + 1);
    if |raw| > limit && !EndsLine(raw) {
      rest := SkipLine(raw, remaining, limit);
      return [Error(None, PARSE_ERROR)], rest, false;
    }
    rest := remaining;
    NewlineIsStripped(FirstLine(stream));
    var line := Strip(raw);
    if line == [] {
      return [], rest, false;
    }
    var message := parse(line);
    if message.Fatal? {
      return [], rest, true;
    }
    answers, raised := Respond(message, toolRaises(line)), false;
  }

  /** Discards reads until the line ends or the stream does. */
  method SkipLine(first: string, stream: string, limit: nat) returns (rest: string)
    requires !EndsLine(first) && first != []
    ensures rest == AfterLine(stream) && |rest| <= |stream|
  {
    var raw := first;
    rest := stream;
    while !EndsLine(raw) && raw != []
      invariant |rest| <= |stream|
      invariant EndsLine(raw) ==> rest == AfterLine(stream)
      invariant !EndsLine(raw) ==> AfterLine(rest) == AfterLine(stream)
      invariant raw == [] ==> rest == []
      decreases |rest|, |raw|
    {
      ReadLineTakes(rest, limit + 1);
      var (piece, remaining) := ReadLine(rest, limit + 1);
      raw, rest := piece, remaining;
    }
  }

  /** The server is in step again at every newline: unless a line before it ended the server, what follows is
      answered as if it were alone, over-limit lines or not. */
  lemma EveryNewlineResynchronises(before: string, after: string, limit: nat, parse: string -> Parsed,
                                   toolRaises: string -> bool)
    ensures AnswerStream(before + [NL] + after, limit, parse, toolRaises)
            == AnswerStream(before, limit, parse, toolRaises)
               + (if Breaks(before, limit, parse) then [] else AnswerStream(after, limit, parse, toolRaises))
  {
    SplitAtSeparator(before, after, NL);
    ServedOfConcat(Split(before, NL), Split(after, NL), limit, parse, toolRaises);
    if Breaks(before, limit, parse) {
      assert AnswerStream(before, limit, parse, toolRaises) + [] == AnswerStream(before, limit, parse, toolRaises);
    }
  }

  lemma {:induction false} ServedOfConcat(a: seq<string>, b: seq<string>, limit: nat, parse: string -> Parsed,
                                          toolRaises: string -> bool)
    ensures Served(a + b, limit, parse, toolRaises)
            == if Until(a, limit, parse) < |a| then Served(a, limit, parse, toolRaises)
               else Served(a, limit, parse, toolRaises) + Served(b, limit, parse, toolRaises)
  {
    if a == [] {
      assert a + b == b;
    } else {
      var x, rest := a[0], a[1..];
      assert a == [x] + rest && a + b == [x] + (rest + b);
      if !Ends(x, limit, parse) {
        ServedOfConcat(rest, b, limit, parse, toolRaises);
        LinesCons(x, rest, limit, parse, toolRaises);
        LinesCons(x, rest + b, limit, parse, toolRaises);
        Assoc(Answer(x, limit, parse, toolRaises), Served(rest, limit, parse, toolRaises),
              Served(b, limit, parse, toolRaises));
      }
    }
  }
}
