/** The chat relay (`call_dify_api` behind `POST /api/dify/ask`): it posts the question to the
    Dify chat API in streaming mode and turns the upstream server-sent events into its own
    `data: <json>\n\n` frames for the browser: the text of every `message` event, then an `end`
    frame with the conversation id or an `error` frame. Malformed upstream lines become error
    frames and the relay carries on; a failing request, a broken stream or an undecodable line
    ends the response with one final error frame.

    The HTTP exchange is a parameter: what the upstream call gave back, line by line. So is the
    JSON parser (`json.loads`), as a function from text to a value or a decode error. */
module DifyRelay {
  import opened Common
  import opened Json

  /** One line of `response.iter_lines()`: its UTF-8 decoding, or the decoding error. */
  datatype Line = Text(text: string) | Undecodable(err: string)

  /** How the upstream stream ended: normally, or with a request exception mid-way. */
  datatype Ending = Completed | Broken(err: string)

  /** The upstream call: it raised a request exception (connection failure, or an HTTP error
      status from `raise_for_status`), or it streamed `lines` and then ended. */
  datatype Upstream = RequestFailed(err: string) | Streamed(lines: seq<Line>, ending: Ending)

  /** What `json.loads` made of a text: a decode error, or a value. */
  datatype Decoded = NotJson | Value(v: Json)

  /** The frames the relay sends, each carrying one JSON object. */
  datatype Frame =
    | MessageText(text: Json)
    | End(conversationId: Json)
    | UpstreamError(code: Json, message: Json)
    | DecodeFailure(data: string)
    | ChunkFailure(typeName: string)
    | RequestFailure(err: string)
    | ServerFailure(err: string)

  /** A frame after which the relay sends nothing more. */
  predicate Final(f: Frame) {
    f.End? || f.UpstreamError? || f.RequestFailure? || f.ServerFailure?
  }

  function ErrorBody(message: string): Json {
    JObj([Field("event", JStr("error")), Field("message", JStr(message))])
  }

  /** The object each frame serialises. */
  function Body(f: Frame): (j: Json)
    ensures j.JObj?
  {
    match f
    case MessageText(t) => JObj([Field("message_text", t)])
    case End(c) => JObj([Field("event", JStr("end")), Field("conversation_id", c)])
    case UpstreamError(code, m) =>
      JObj([Field("event", JStr("error")), Field("code", code), Field("message", m)])
    case DecodeFailure(d) => ErrorBody("JSON decode error for line: " + d)
    case ChunkFailure(t) => ErrorBody("Error processing chunk: '" + t + "' object has no attribute 'get'")
    case RequestFailure(e) => ErrorBody("Dify API request failed: " + e)
    case ServerFailure(e) => ErrorBody("Unknown server error: " + e)
  }

  /** A frame on the wire. */
  function Render(f: Frame): (s: string)
    ensures StartsWith(s, "data: ")
    ensures |s| > 8 && s[|s| - 2..] == "\n\n"
    ensures '\n' !in s[6..|s| - 2]
  {
    var d := Dumps(Body(f));
    DumpsHasNoNewline(Body(f));
    assert ("data: " + d + "\n\n")[6..|d| + 6] == d;
    "data: " + d + "\n\n"
  }

  /* Stripping, as `str.strip()` does: the characters Python counts as whitespace. */

  predicate IsSpace(c: char) {
    (0x09 <= c as int <= 0x0D) || (0x1C <= c as int <= 0x20) || c as int == 0x85
    || c as int == 0xA0 || c as int == 0x1680 || (0x2000 <= c as int <= 0x200A)
    || c as int == 0x2028 || c as int == 0x2029 || c as int == 0x202F || c as int == 0x205F
    || c as int == 0x3000
  }

  function LeadingSpaces(s: string): (n: nat)
    ensures n <= |s|
    ensures forall k :: 0 <= k < n ==> IsSpace(s[k])
    ensures n < |s| ==> !IsSpace(s[n])
    decreases |s|
  {
    if |s| == 0 || !IsSpace(s[0]) then 0
    else
      var n := LeadingSpaces(s[1..]);
      assert forall k :: 1 <= k < n + 1 ==> s[k] == s[1..][k - 1];
      n + 1
  }

  function TrailingSpaces(s: string): (n: nat)
    ensures n <= |s|
    ensures forall k :: |s| - n <= k < |s| ==> IsSpace(s[k])
    ensures n < |s| ==> !IsSpace(s[|s| - 1 - n])
    decreases |s|
  {
    if |s| == 0 || !IsSpace(s[|s| - 1]) then 0
    else
      var init := s[..|s| - 1];
      var n := TrailingSpaces(init);
      assert forall k :: 0 <= k < |init| ==> init[k] == s[k];
      n + 1
  }

  /** Where `s.strip()` begins and ends in `s`: only whitespace is cut, and what is kept neither
      begins nor ends with whitespace. */
  function StripBounds(s: string): (b: (nat, nat))
    ensures b.0 <= b.1 <= |s|
    ensures forall k :: 0 <= k < b.0 ==> IsSpace(s[k])
    ensures forall k :: b.1 <= k < |s| ==> IsSpace(s[k])
    ensures b.0 < b.1 ==> !IsSpace(s[b.0]) && !IsSpace(s[b.1 - 1])
  {
    var i := LeadingSpaces(s);
    if i == |s| then (i, i)
    else
      var n := TrailingSpaces(s);
      assert |s| - n > i by {
        assert !IsSpace(s[i]);
      }
      (i, |s| - n)
  }

  function Strip(s: string): string {
    s[StripBounds(s).0..StripBounds(s).1]
  }

  /** A line consisting of whitespace only strips to nothing. */
  lemma BlankStripsToNothing(s: string)
    requires forall k :: 0 <= k < |s| ==> IsSpace(s[k])
    ensures Strip(s) == ""
  {
  }

  /** `data_str`: what follows the `data:` prefix, stripped. */
  function DataOf(line: string): string
    requires StartsWith(line, "data:")
  {
    Strip(line[5..])
  }

  /** What one decoded line does to the response: nothing, a frame after which the relay reads
      on, or a frame that ends it. */
  datatype LineOutcome = Skip | Continue(frame: Frame) | Stop(frame: Frame)

  /** The data lines the relay acts on: prefixed with `data:` and not blank after it. */
  predicate IsData(line: string) {
    StartsWith(line, "data:") && DataOf(line) != ""
  }

  /** A data line whose payload parses to a JSON object. */
  predicate CarriesObject(line: string, parse: string -> Decoded) {
    IsData(line) && parse(DataOf(line)).Value? && parse(DataOf(line)).v.JObj?
  }

  /** `data.get(key, default)` on the object a line carries. */
  function FieldOf(line: string, parse: string -> Decoded, key: string, default: Json): Json
    requires CarriesObject(line, parse)
  {
    Get(parse(DataOf(line)).v.fields, key, default)
  }

  /** The handling of one line inside `for line in response.iter_lines()`: a `message` event
      forwards its answer, `message_end` and `error` send their frame and end the relay, and
      any other object is ignored. */
  function HandleLine(line: string, parse: string -> Decoded): (o: LineOutcome)
    ensures !IsData(line) ==> o == Skip
    ensures CarriesObject(line, parse) && FieldOf(line, parse, "event", JNull) == JStr("message")
            ==> o == Continue(MessageText(FieldOf(line, parse, "answer", JStr(""))))
    ensures CarriesObject(line, parse) && FieldOf(line, parse, "event", JNull) == JStr("message_end")
            ==> o == Stop(End(FieldOf(line, parse, "conversation_id", JNull)))
    ensures CarriesObject(line, parse) && FieldOf(line, parse, "event", JNull) == JStr("error")
            ==> o == Stop(UpstreamError(FieldOf(line, parse, "code", JNull),
                                        FieldOf(line, parse, "message", JNull)))
    ensures CarriesObject(line, parse)
            && FieldOf(line, parse, "event", JNull) !in {JStr("message"), JStr("message_end"), JStr("error")}
            ==> o == Skip
    ensures o.Stop? <==> CarriesObject(line, parse)
                         && FieldOf(line, parse, "event", JNull) in {JStr("message_end"), JStr("error")}
    ensures o.Stop? ==> Final(o.frame)
    ensures o.Continue? ==> !Final(o.frame)
    ensures IsData(line) && parse(DataOf(line)) == NotJson
            ==> o == Continue(DecodeFailure(DataOf(line)))
    ensures IsData(line) && parse(DataOf(line)).Value? && !parse(DataOf(line)).v.JObj?
            ==> o == Continue(ChunkFailure(TypeName(parse(DataOf(line)).v)))
    ensures o.Stop? ==> IsData(line) && parse(DataOf(line)).Value? && parse(DataOf(line)).v.JObj?
  {
    if line == "" || !StartsWith(line, "data:") then Skip
    else
      var data := DataOf(line);
      if data == "" then Skip
      else
        match parse(data)
        case NotJson => Continue(DecodeFailure(data))
        case Value(v) =>
          if !v.JObj? then Continue(ChunkFailure(TypeName(v)))
          else
            var event := Get(v.fields, "event", JNull);
            if event == JStr("message") then
              Continue(MessageText(Get(v.fields, "answer", JStr(""))))
            else if event == JStr("message_end") then
              Stop(End(Get(v.fields, "conversation_id", JNull)))
            else if event == JStr("error") then
              Stop(UpstreamError(Get(v.fields, "code", JNull), Get(v.fields, "message", JNull)))
            else Skip
  }

  /** A line after which the relay reads no further. */
  predicate Ends(l: Line, parse: string -> Decoded) {
    l.Undecodable? || HandleLine(l.text, parse).Stop?
  }

  /** One line of the decoded stream: a line that cannot be decoded fails the whole request
      (the outer handler), a decoded one is handled as above. */
  function LineStep(l: Line, parse: string -> Decoded): (o: LineOutcome)
    ensures o.Stop? <==> Ends(l, parse)
    ensures o.Stop? ==> Final(o.frame)
    ensures o.Continue? ==> !Final(o.frame)
    ensures l.Undecodable? ==> o == Stop(ServerFailure(l.err))
  {
    match l
    case Undecodable(err) => Stop(ServerFailure(err))
    case Text(s) => HandleLine(s, parse)
  }

  /** Only the last frame of a response may close it. */
  predicate FinalOnlyLast(out: seq<Frame>) {
    forall i :: 0 <= i < |out| - 1 ==> !Final(out[i])
  }

  /** The response closes with a final frame. */
  predicate EndsWithFinal(out: seq<Frame>) {
    |out| > 0 && Final(out[|out| - 1])
  }

  /** Some line of the stream ends the response. */
  predicate SomeEnds(lines: seq<Line>, parse: string -> Decoded) {
    exists i :: 0 <= i < |lines| && Ends(lines[i], parse)
  }

  /** Some line ends the response: the first one, or one of the rest. */
  lemma SomeLineEnds(lines: seq<Line>, parse: string -> Decoded)
    requires |lines| > 0
    ensures SomeEnds(lines, parse) <==> Ends(lines[0], parse) || SomeEnds(lines[1..], parse)
  {
    if exists i :: 0 <= i < |lines| && Ends(lines[i], parse) {
      var i :| 0 <= i < |lines| && Ends(lines[i], parse);
      if i > 0 {
        assert lines[1..][i - 1] == lines[i];
      }
    }
    if exists i :: 0 <= i < |lines[1..]| && Ends(lines[1..][i], parse) {
      var i :| 0 <= i < |lines[1..]| && Ends(lines[1..][i], parse);
      assert lines[i + 1] == lines[1..][i];
    }
  }

  /** A frame that does not end the response, put in front, changes neither where final
      frames may be nor whether the response ends with one. */
  lemma PrependNonFinal(f: Frame, rest: seq<Frame>)
    requires !Final(f)
    requires FinalOnlyLast(rest)
    ensures FinalOnlyLast([f] + rest)
    ensures EndsWithFinal([f] + rest) <==> EndsWithFinal(rest)
  {
    var out := [f] + rest;
    forall i | 0 <= i < |out| - 1 ensures !Final(out[i]) {
      if i > 0 {
        assert out[i] == rest[i - 1];
      }
    }
    if |rest| > 0 {
      assert out[|out| - 1] == rest[|rest| - 1];
    }
  }

  /** The frames produced from the upstream lines, up to the first line that ends the response;
      a stream that breaks off first ends with a request-failure frame. */
  function RelayLines(lines: seq<Line>, ending: Ending, parse: string -> Decoded): (out: seq<Frame>)
    ensures |out| <= |lines| + 1
    ensures FinalOnlyLast(out)
    ensures EndsWithFinal(out) <==> ending.Broken? || SomeEnds(lines, parse)
    decreases |lines|
  {
    if |lines| == 0 then
      if ending.Broken? then [RequestFailure(ending.err)] else []
    else
      var rest := RelayLines(lines[1..], ending, parse);
      SomeLineEnds(lines, parse);
      match LineStep(lines[0], parse)
      case Skip => rest
      case Continue(f) =>
        PrependNonFinal(f, rest);
        [f] + rest
      case Stop(f) => [f]
  }

  /** `call_dify_api`: the whole response for one upstream exchange. */
  function Relay(up: Upstream, parse: string -> Decoded): (out: seq<Frame>)
    ensures up.RequestFailed? ==> out == [RequestFailure(up.err)]
    ensures FinalOnlyLast(out)
    ensures up.Streamed? ==> (EndsWithFinal(out) <==> up.ending.Broken? || SomeEnds(up.lines, parse))
  {
    match up
    case RequestFailed(err) => [RequestFailure(err)]
    case Streamed(lines, ending) => RelayLines(lines, ending, parse)
  }

  /** Lines that do not end the response contribute their frames independently of what
      follows: the relay of a stream is the relay of its first part followed by that of the
      rest. */
  lemma {:induction false} RelayLinesAppend(a: seq<Line>, b: seq<Line>, ending: Ending,
                                            parse: string -> Decoded)
    requires forall i :: 0 <= i < |a| ==> !Ends(a[i], parse)
    ensures RelayLines(a + b, ending, parse)
            == RelayLines(a, Completed, parse) + RelayLines(b, ending, parse)
    decreases |a|
  {
    if |a| == 0 {
      assert a + b == b;
    } else {
      assert (a + b)[0] == a[0] && (a + b)[1..] == a[1..] + b;
      RelayLinesAppend(a[1..], b, ending, parse);
      assert !Ends(a[0], parse);
      var o := HandleLine(a[0].text, parse);
      if o.Continue? {
        AppendAssoc([o.frame], RelayLines(a[1..], Completed, parse), RelayLines(b, ending, parse));
      }
    }
  }

  /** A line that ends the response discards everything after it, including a later break of
      the stream. */
  lemma StopDiscardsTheRest(l: Line, rest: seq<Line>, ending: Ending, parse: string -> Decoded)
    requires Ends(l, parse)
    ensures RelayLines([l] + rest, ending, parse) == RelayLines([l], Completed, parse)
    ensures |RelayLines([l] + rest, ending, parse)| == 1
  {
    assert ([l] + rest)[0] == l;
  }

  /** A line carrying a `message` event. */
  predicate IsMessage(l: Line, parse: string -> Decoded) {
    l.Text? && CarriesObject(l.text, parse) && FieldOf(l.text, parse, "event", JNull) == JStr("message")
  }

  /** The frames the answers of message lines make, in order. */
  function Answers(a: seq<Line>, parse: string -> Decoded): seq<Frame>
    requires forall i :: 0 <= i < |a| ==> IsMessage(a[i], parse)
    decreases |a|
  {
    if |a| == 0 then []
    else
      assert IsMessage(a[0], parse);
      assert forall i :: 0 <= i < |a| - 1 ==> a[1..][i] == a[i + 1];
      [MessageText(FieldOf(a[0].text, parse, "answer", JStr("")))] + Answers(a[1..], parse)
  }

  /** Message lines relay their answers, one frame each, in order. */
  lemma {:induction false} MessagesForwardAnswers(a: seq<Line>, parse: string -> Decoded)
    requires forall i :: 0 <= i < |a| ==> IsMessage(a[i], parse)
    ensures RelayLines(a, Completed, parse) == Answers(a, parse)
    decreases |a|
  {
    if |a| > 0 {
      assert forall i :: 0 <= i < |a| - 1 ==> a[1..][i] == a[i + 1];
      MessagesForwardAnswers(a[1..], parse);
      var first := MessageText(FieldOf(a[0].text, parse, "answer", JStr("")));
      assert HandleLine(a[0].text, parse) == Continue(first);
      RelayLinesContinue(a, Completed, parse);
    }
  }

  /** A first line that continues the response contributes its frame, then the rest. */
  lemma RelayLinesContinue(lines: seq<Line>, ending: Ending, parse: string -> Decoded)
    requires |lines| > 0 && LineStep(lines[0], parse).Continue?
    ensures RelayLines(lines, ending, parse)
            == [LineStep(lines[0], parse).frame] + RelayLines(lines[1..], ending, parse)
  {
  }

  /** One conversation turn: the answers of the `message` lines in order, then the `end` frame
      with the conversation id of `message_end`; whatever follows it is discarded, a later
      break of the stream included. */
  lemma TurnRelaysAnswersThenEnd(a: seq<Line>, l: Line, rest: seq<Line>, ending: Ending,
                                 parse: string -> Decoded)
    requires forall i :: 0 <= i < |a| ==> IsMessage(a[i], parse)
    requires l.Text? && CarriesObject(l.text, parse)
    requires FieldOf(l.text, parse, "event", JNull) == JStr("message_end")
    ensures RelayLines(a + [l] + rest, ending, parse)
            == Answers(a, parse) + [End(FieldOf(l.text, parse, "conversation_id", JNull))]
  {
    forall i | 0 <= i < |a| ensures !Ends(a[i], parse) {
      assert HandleLine(a[i].text, parse).Continue?;
    }
    assert a + [l] + rest == a + ([l] + rest);
    RelayLinesAppend(a, [l] + rest, ending, parse);
    MessagesForwardAnswers(a, parse);
    assert Ends(l, parse);
    StopDiscardsTheRest(l, rest, ending, parse);
    assert ([l] + rest)[0] == l;
  }

  /** A `message` event without an `answer` sends an empty text; a `null` answer is passed on
      as `null`. */
  lemma MessageWithoutAnswer(line: string, parse: string -> Decoded, fields: seq<Field>)
    requires IsData(line) && parse(DataOf(line)) == Value(JObj(fields))
    requires Get(fields, "event", JNull) == JStr("message")
    ensures !HasKey(fields, "answer") ==> HandleLine(line, parse) == Continue(MessageText(JStr("")))
    ensures HandleLine(line, parse).Continue?
  {
  }

  /** Events other than `message`, `message_end` and `error` (such as `workflow_started` or
      `ping`) produce nothing. */
  lemma OtherEventsIgnored(line: string, parse: string -> Decoded, fields: seq<Field>)
    requires IsData(line) && parse(DataOf(line)) == Value(JObj(fields))
    requires Get(fields, "event", JNull) !in {JStr("message"), JStr("message_end"), JStr("error")}
    ensures HandleLine(line, parse) == Skip
  {
  }

  /** The relay's error frames all say `"event": "error"`, whether or not the response goes on:
      from the frame alone a client cannot tell a skipped bad line from the end of the answer. */
  lemma ErrorFramesLookAlike(d: string, e: string)
    ensures Get(Body(DecodeFailure(d)).fields, "event", JNull) == JStr("error")
    ensures Get(Body(RequestFailure(e)).fields, "event", JNull) == JStr("error")
    ensures !Final(DecodeFailure(d)) && Final(RequestFailure(e))
  {
  }

  /* The request. */

  /** The members every request carries. */
  function BaseFields(query: string, user: string): seq<Field> {
    [Field("inputs", JObj([Field("query", JStr(query))]))] + [Field("query", JStr(query))]
    + [Field("user", JStr(user))] + [Field("response_mode", JStr("streaming"))]
  }

  lemma BaseFieldsLookups(query: string, user: string)
    ensures Get(BaseFields(query, user), "query", JNull) == JStr(query)
    ensures Get(BaseFields(query, user), "user", JNull) == JStr(user)
    ensures Get(BaseFields(query, user), "response_mode", JNull) == JStr("streaming")
    ensures Get(BaseFields(query, user), "inputs", JNull) == JObj([Field("query", JStr(query))])
  {
    var inputs := Field("inputs", JObj([Field("query", JStr(query))]));
    var q := Field("query", JStr(query));
    var u := Field("user", JStr(user));
    var mode := Field("response_mode", JStr("streaming"));
    GetSkipsLast([inputs] + [q] + [u], mode, "query", JNull);
    GetSkipsLast([inputs] + [q], u, "query", JNull);
    GetLast([inputs], q, "query", JNull);
    GetSkipsLast([inputs] + [q] + [u], mode, "user", JNull);
    GetLast([inputs] + [q], u, "user", JNull);
    GetLast([inputs] + [q] + [u], mode, "response_mode", JNull);
    GetSkipsLast([inputs] + [q] + [u], mode, "inputs", JNull);
    GetSkipsLast([inputs] + [q], u, "inputs", JNull);
    GetSkipsLast([inputs], q, "inputs", JNull);
    GetLast([], inputs, "inputs", JNull);
    assert [] + [inputs] == [inputs];
  }

  lemma BaseFieldsLackConversation(query: string, user: string)
    ensures !HasKey(BaseFields(query, user), "conversation_id")
  {
    var base := BaseFields(query, user);
    forall i | 0 <= i < |base| ensures base[i].key != "conversation_id" {
    }
  }

  /** The JSON body of the upstream request: the query (also as the `query` input), the user,
      streaming mode, and the conversation id only when one is given and not empty. */
  function Payload(query: string, user: string, conversationId: Option<string>): (p: Json)
    ensures p.JObj?
    ensures Get(p.fields, "query", JNull) == JStr(query)
    ensures Get(p.fields, "user", JNull) == JStr(user)
    ensures Get(p.fields, "response_mode", JNull) == JStr("streaming")
    ensures Get(p.fields, "inputs", JNull) == JObj([Field("query", JStr(query))])
    ensures HasKey(p.fields, "conversation_id") <==> conversationId.Some? && conversationId.value != ""
    ensures HasKey(p.fields, "conversation_id") ==> Get(p.fields, "conversation_id", JNull) == JStr(conversationId.value)
  {
    var base := BaseFields(query, user);
    BaseFieldsLookups(query, user);
    BaseFieldsLackConversation(query, user);
    if conversationId.Some? && conversationId.value != "" then
      var cid := Field("conversation_id", JStr(conversationId.value));
      GetSkipsLast(base, cid, "query", JNull);
      GetSkipsLast(base, cid, "user", JNull);
      GetSkipsLast(base, cid, "response_mode", JNull);
      GetSkipsLast(base, cid, "inputs", JNull);
      GetLast(base, cid, "conversation_id", JNull);
      HasKeyAppend(base, cid, "conversation_id");
      JObj(base + [cid])
    else JObj(base)
  }

  /** `handle_dify_ask`: the streamed response to one question, given how the upstream service
      answers the payload it is sent. */
  function Ask(query: string, user: string, conversationId: Option<string>,
               upstream: Json -> Upstream, parse: string -> Decoded): (out: seq<Frame>)
    ensures FinalOnlyLast(out)
  {
    Relay(upstream(Payload(query, user, conversationId)), parse)
  }

  /* The wire, and reading it back. */

  /** The response body: the rendered frames one after another. */
  function Wire(frames: seq<Frame>): string
    decreases |frames|
  {
    if |frames| == 0 then "" else Render(frames[0]) + Wire(frames[1..])
  }

  /** The JSON text each frame carries. */
  function Payloads(frames: seq<Frame>): (ps: seq<string>)
    ensures |ps| == |frames|
    decreases |frames|
  {
    if |frames| == 0 then [] else [Dumps(Body(frames[0]))] + Payloads(frames[1..])
  }

  /** The position of the first `c` in `s`, or `|s|` when there is none. */
  function IndexOf(s: string, c: char): (n: nat)
    ensures n <= |s|
    ensures forall k :: 0 <= k < n ==> s[k] != c
    ensures n < |s| ==> s[n] == c
    decreases |s|
  {
    if |s| == 0 then 0
    else if s[0] == c then 0
    else
      var n := IndexOf(s[1..], c);
      assert forall k :: 1 <= k < n + 1 ==> s[k] == s[1..][k - 1];
      n + 1
  }

  /** A client splitting a response body into events: each is `data: `, a text without line
      breaks, and an empty line. */
  function ReadEvents(w: string): (r: Option<seq<string>>)
    decreases |w|
  {
    if |w| == 0 then Some([])
    else if !StartsWith(w, "data: ") then None
    else
      var n := IndexOf(w[6..], '\n');
      var rest := w[6 + n..];
      if !StartsWith(rest, "\n\n") then None
      else
        match ReadEvents(rest[2..])
        case None => None
        case Some(es) => Some([w[6..6 + n]] + es)
  }

  /** The first line break of `d + t` is where `t` starts when `d` has none and `t` starts
      with one. */
  lemma IndexOfAfterLine(d: string, t: string)
    requires '\n' !in d && |t| > 0 && t[0] == '\n'
    ensures IndexOf(d + t, '\n') == |d|
  {
    assert forall k :: 0 <= k < |d| ==> (d + t)[k] == d[k];
    assert (d + t)[|d|] == '\n';
  }

  /** Reading one event off the front of a body. */
  lemma ReadEventsCons(d: string, tail: string)
    requires '\n' !in d
    ensures ReadEvents("data: " + d + "\n\n" + tail)
            == if ReadEvents(tail).Some? then Some([d] + ReadEvents(tail).value) else None
  {
    var w := "data: " + d + "\n\n" + tail;
    assert w == "data: " + (d + ("\n\n" + tail));
    assert w[..6] == "data: ";
    assert w[6..] == d + ("\n\n" + tail);
    IndexOfAfterLine(d, "\n\n" + tail);
    assert w[6 + |d|..] == "\n\n" + tail;
    assert ("\n\n" + tail)[2..] == tail;
    assert w[6..6 + |d|] == d;
  }

  /** Reading the events back out of a response body recovers every frame's JSON text, in
      order: the framing is never confused by the frames' contents. */
  lemma {:induction false} ReadEventsWire(frames: seq<Frame>)
    ensures ReadEvents(Wire(frames)) == Some(Payloads(frames))
    decreases |frames|
  {
    if |frames| > 0 {
      var d := Dumps(Body(frames[0]));
      DumpsHasNoNewline(Body(frames[0]));
      ReadEventsWire(frames[1..]);
      ReadEventsCons(d, Wire(frames[1..]));
    }
  }
}
