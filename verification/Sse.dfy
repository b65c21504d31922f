/** The incremental reader of server-sent events, and the frames the monitoring endpoint writes. */
module Sse {

  // ---------------------------------------------------------------- strings, as the client's library treats them

  /** What String.prototype.trim takes off. */
  predicate Blank(c: char) {
    || '\t' <= c <= '\r' || c == ' ' || c == '\U{a0}' || c == '\U{1680}' || '\U{2000}' <= c <= '\U{200a}'
    || c == '\U{2028}' || c == '\U{2029}' || c == '\U{202f}' || c == '\U{205f}' || c == '\U{3000}' || c == '\U{feff}'
  }

  function TrimStart(s: string): string {
    if s == "" || !Blank(s[0]) then s else TrimStart(s[1..])
  }

  function TrimEnd(s: string): string {
    if s == "" || !Blank(s[|s| - 1]) then s else TrimEnd(s[..|s| - 1])
  }

  function Trim(s: string): string {
    TrimEnd(TrimStart(s))
  }

  predicate OccursAt(s: string, sep: string, j: nat) {
    j + |sep| <= |s| && s[j..j + |sep|] == sep
  }

  /** The first place at or after i where sep occurs, or |s| when there is none. */
  function Find(s: string, sep: string, i: nat): (k: nat)
    requires sep != "" && i <= |s|
    ensures i <= k <= |s|
    ensures k < |s| ==> OccursAt(s, sep, k)
    ensures forall j | i <= j < k :: !OccursAt(s, sep, j)
    decreases |s| - i
  {
    if i + |sep| > |s| then |s|
    else if OccursAt(s, sep, i) then i
    else Find(s, sep, i + 1)
  }

  /** String.prototype.split with a separator: cuts at every occurrence, from the left, without overlap. */
  function SplitOn(s: string, sep: string): (pieces: seq<string>)
    requires sep != ""
    ensures pieces != []
    decreases |s|
  {
    var k := Find(s, sep, 0);
    if k == |s| then [s] else [s[..k]] + SplitOn(s[k + |sep|..], sep)
  }

  function Join(pieces: seq<string>, sep: string): string {
    if pieces == [] then ""
    else if |pieces| == 1 then pieces[0]
    else pieces[0] + sep + Join(pieces[1..], sep)
  }

  predicate StartsWith(s: string, prefix: string) {
    prefix <= s
  }

  // ---------------------------------------------------------------- what a buffer means

  datatype Frame = Frame(event: string, data: string)

  const DEFAULT: string := "message"
  const EVENT: string := "event:"
  const DATA: string := "data:"

  /** The last event line wins. */
  function EventOf(lines: seq<string>): string {
    if lines == [] then DEFAULT
    else
      var last := lines[|lines| - 1];
      if EVENT <= last then Trim(last[|EVENT|..]) else EventOf(lines[..|lines| - 1])
  }

  function DataLines(lines: seq<string>): seq<string> {
    if lines == [] then []
    else
      var last := lines[|lines| - 1];
      DataLines(lines[..|lines| - 1]) + if DATA <= last then [Trim(last[|DATA|..])] else []
  }

  /** A segment without a data line is no frame. */
  function FramesIn(segment: string): seq<Frame> {
    var lines := SplitOn(segment, "\n");
    if DataLines(lines) == [] then [] else [Frame(EventOf(lines), Join(DataLines(lines), "\n"))]
  }

  function Init<A>(xs: seq<A>): seq<A>
    requires xs != []
  {
    xs[..|xs| - 1]
  }

  function Last<A>(xs: seq<A>): A
    requires xs != []
  {
    xs[|xs| - 1]
  }

  function FlatMap<A, B>(f: A -> seq<B>, xs: seq<A>): seq<B> {
    if xs == [] then [] else FlatMap(f, Init(xs)) + f(Last(xs))
  }

  function FramesOf(segments: seq<string>): seq<Frame> {
    FlatMap(FramesIn, segments)
  }

  function Closed(buffer: string): seq<string> {
    Init(SplitOn(buffer, "\n\n"))
  }

  function Rest(buffer: string): string {
    Last(SplitOn(buffer, "\n\n"))
  }

  function Frames(buffer: string): seq<Frame> {
    FramesOf(Closed(buffer))
  }

  // ---------------------------------------------------------------- the reader

  method ParseSse(buffer: string) returns (frames: seq<Frame>, rest: string)
    ensures frames == Frames(buffer) && rest == Rest(buffer)
  {
    frames := [];
    var segments := SplitOn(buffer, "\n\n");
    rest := segments[|segments| - 1];
    segments := segments[..|segments| - 1];
    for i := 0 to |segments|
      invariant frames == FramesOf(segments[..i])
    {
      var event := DEFAULT;
      var dataLines: seq<string> := [];
      var lines := SplitOn(segments[i], "\n");
      for j := 0 to |lines|
        invariant event == EventOf(lines[..j]) && dataLines == DataLines(lines[..j])
      {
        assert lines[..j + 1][..j] == lines[..j];
        if StartsWith(lines[j], EVENT) {
          event := Trim(lines[j][|EVENT|..]);
        }
        if StartsWith(lines[j], DATA) {
          dataLines := dataLines + [Trim(lines[j][|DATA|..])];
        }
      }
      assert lines[..|lines|] == lines;
      assert segments[..i + 1][..i] == segments[..i];
      if |dataLines| > 0 {
        frames := frames + [Frame(event, Join(dataLines, "\n"))];
      }
    }
    assert segments[..|segments|] == segments;
  }

  function Concat(pieces: seq<string>): string {
    FlatMap((piece: string) => piece, pieces)
  }

  /** The client's read loop: what is left over is put in front of the next piece. */
  method ReadStream(pieces: seq<string>) returns (frames: seq<Frame>, buffer: string)
    ensures frames == Frames(Concat(pieces)) && buffer == Rest(Concat(pieces))
  {
    frames, buffer := [], "";
    for i := 0 to |pieces|
      invariant frames == Frames(Concat(pieces[..i])) && buffer == Rest(Concat(pieces[..i]))
    {
      CutMakesNoDifference(Concat(pieces[..i]), pieces[i]);
      assert pieces[..i + 1][..i] == pieces[..i];
      var more, rest := ParseSse(buffer + pieces[i]);
      frames := frames + more;
      buffer := rest;
    }
    assert pieces[..|pieces|] == pieces;
  }

  // ---------------------------------------------------------------- cuts make no difference

  lemma {:induction false} FindIsFirst(s: string, sep: string, i: nat, k: nat)
    requires sep != "" && i <= k && OccursAt(s, sep, k)
    requires forall j | i <= j < k :: !OccursAt(s, sep, j)
    ensures Find(s, sep, i) == k
    decreases k - i
  {
    if i < k {
      FindIsFirst(s, sep, i + 1, k);
    }
  }

  lemma FindIgnoresWhatFollows(x: string, y: string, sep: string)
    requires sep != "" && Find(x, sep, 0) < |x|
    ensures Find(x + y, sep, 0) == Find(x, sep, 0)
  {
    var k := Find(x, sep, 0);
    forall j | 0 <= j <= k ensures OccursAt(x + y, sep, j) <==> OccursAt(x, sep, j) {
      assert (x + y)[j..j + |sep|] == x[j..j + |sep|];
    }
    FindIsFirst(x + y, sep, 0, k);
  }

  lemma SplitStep(x: string, sep: string, k: nat)
    requires sep != "" && k == Find(x, sep, 0) < |x|
    ensures SplitOn(x, sep) == [x[..k]] + SplitOn(x[k + |sep|..], sep)
  {
  }

  lemma {:induction false} SplitOfBoth(x: string, y: string, sep: string)
    requires sep != ""
    ensures SplitOn(x + y, sep) == Init(SplitOn(x, sep)) + SplitOn(Last(SplitOn(x, sep)) + y, sep)
    decreases |x|
  {
    var k := Find(x, sep, 0);
    if k == |x| {
      assert SplitOn(x, sep) == [x];
    } else {
      var rest := x[k + |sep|..];
      SplitOfBoth(rest, y, sep);
      SplitStep(x, sep, k);
      SplitStepThrough(x, y, sep, k);
      var pieces := SplitOn(rest, sep);
      PushedFront(x[..k], pieces);
      var more := SplitOn(Last(pieces) + y, sep);
      assert [x[..k]] + (Init(pieces) + more) == [x[..k]] + Init(pieces) + more;
    }
  }

  /** Splitting loses nothing: the pieces with the separator between them are the string again. */
  lemma {:induction false} JoinUndoesSplit(s: string, sep: string)
    requires sep != ""
    ensures Join(SplitOn(s, sep), sep) == s
    decreases |s|
  {
    var k := Find(s, sep, 0);
    if k < |s| {
      SplitStep(s, sep, k);
      JoinUndoesSplit(s[k + |sep|..], sep);
      var rest := SplitOn(s[k + |sep|..], sep);
      assert ([s[..k]] + rest)[1..] == rest;
      assert s == s[..k] + sep + s[k + |sep|..];
    }
  }

  lemma SplitStepThrough(x: string, y: string, sep: string, k: nat)
    requires sep != "" && k == Find(x, sep, 0) < |x|
    ensures SplitOn(x + y, sep) == [x[..k]] + SplitOn(x[k + |sep|..] + y, sep)
  {
    FindIgnoresWhatFollows(x, y, sep);
    SplitStep(x + y, sep, k);
    assert (x + y)[..k] == x[..k] && (x + y)[k + |sep|..] == x[k + |sep|..] + y;
  }

  lemma PushedFront(first: string, pieces: seq<string>)
    requires pieces != []
    ensures Init([first] + pieces) == [first] + Init(pieces) && Last([first] + pieces) == Last(pieces)
  {
  }

  lemma LastOfBoth<A>(xs: seq<A>, ys: seq<A>)
    requires ys != []
    ensures Init(xs + ys) == xs + Init(ys) && Last(xs + ys) == Last(ys)
  {
  }

  lemma {:induction false} FlatMapOfBoth<A, B>(f: A -> seq<B>, xs: seq<A>, ys: seq<A>)
    ensures FlatMap(f, xs + ys) == FlatMap(f, xs) + FlatMap(f, ys)
    decreases |ys|
  {
    if ys == [] {
      assert xs + ys == xs;
    } else {
      FlatMapOfBoth(f, xs, Init(ys));
      LastOfBoth(xs, ys);
      assert FlatMap(f, xs + ys) == (FlatMap(f, xs) + FlatMap(f, Init(ys))) + f(Last(ys));
    }
  }

  /** Parsing what is left over with the next piece gives what parsing it all at once gives. */
  lemma CutMakesNoDifference(x: string, y: string)
    ensures Frames(x + y) == Frames(x) + Frames(Rest(x) + y)
    ensures Rest(x + y) == Rest(Rest(x) + y)
  {
    SplitOfBoth(x, y, "\n\n");
    var more := SplitOn(Rest(x) + y, "\n\n");
    assert SplitOn(x + y, "\n\n") == Closed(x) + more;
    assert Closed(x + y) == Closed(x) + Init(more);
    FlatMapOfBoth(FramesIn, Closed(x), Init(more));
  }

  // ---------------------------------------------------------------- trimming

  predicate Edged(s: string) {
    s == "" || (!Blank(s[0]) && !Blank(s[|s| - 1]))
  }

  predicate OneLine(s: string) {
    '\n' !in s
  }

  lemma {:induction false} TrimStartCuts(s: string)
    ensures |TrimStart(s)| <= |s| && TrimStart(s) == s[|s| - |TrimStart(s)|..]
    ensures TrimStart(s) == "" || !Blank(TrimStart(s)[0])
    decreases |s|
  {
    if s != "" && Blank(s[0]) {
      TrimStartCuts(s[1..]);
    }
  }

  lemma {:induction false} TrimEndCuts(s: string)
    ensures TrimEnd(s) <= s
    ensures TrimEnd(s) == "" || !Blank(TrimEnd(s)[|TrimEnd(s)| - 1])
    decreases |s|
  {
    if s != "" && Blank(s[|s| - 1]) {
      TrimEndCuts(s[..|s| - 1]);
    }
  }

  /** Trimming leaves a part of the string with no blank at either edge. */
  lemma TrimEdges(s: string)
    ensures Edged(Trim(s)) && |Trim(s)| <= |s|
    ensures OneLine(s) ==> OneLine(Trim(s))
  {
    TrimStartCuts(s);
    TrimEndCuts(TrimStart(s));
  }

  lemma TrimAfterSpace(s: string)
    ensures Edged(s) ==> Trim(" " + s) == s
    ensures |Trim(" " + s)| <= |s|
  {
    assert (" " + s)[1..] == s;
    assert TrimStart(" " + s) == TrimStart(s);
    TrimEdges(s);
  }

  predicate AllBlank(s: string) {
    forall i | 0 <= i < |s| :: Blank(s[i])
  }

  /** What trimming takes off is blank, at either end. */
  lemma TrimTakesBlanksOnly(s: string) returns (lead: string, tail: string)
    ensures s == lead + Trim(s) + tail && AllBlank(lead) && AllBlank(tail) && Edged(Trim(s))
  {
    hide Blank, TrimStart, TrimEnd, AllBlank, Edged;
    lead := TrimStartTakes(s);
    tail := TrimEndTakes(TrimStart(s));
    TrimEdges(s);
    assert s == lead + (Trim(s) + tail) == lead + Trim(s) + tail;
  }

  lemma {:induction false} TrimStartTakes(s: string) returns (lead: string)
    ensures s == lead + TrimStart(s) && AllBlank(lead)
    decreases |s|
  {
    lead := "";
    if s != "" && Blank(s[0]) {
      var more := TrimStartTakes(s[1..]);
      lead := [s[0]] + more;
    }
  }

  lemma {:induction false} TrimEndTakes(s: string) returns (tail: string)
    ensures s == TrimEnd(s) + tail && AllBlank(tail)
    decreases |s|
  {
    tail := "";
    if s != "" && Blank(s[|s| - 1]) {
      var more := TrimEndTakes(s[..|s| - 1]);
      tail := more + [s[|s| - 1]];
      assert s == s[..|s| - 1] + [s[|s| - 1]];
    }
  }

  // ---------------------------------------------------------------- what a segment means, field by field

  /** One line of a segment: an event name, a piece of data, or anything else. */
  datatype Field = EventField(name: string) | DataField(data: string) | OtherField(line: string)

  function LineOf(f: Field): string {
    match f
    case EventField(name) => "event:" + name
    case DataField(data) => "data:" + data
    case OtherField(line) => line
  }

  predicate WellFormed(f: Field) {
    match f
    case EventField(name) => OneLine(name)
    case DataField(data) => OneLine(data)
    case OtherField(line) => OneLine(line) && !("event:" <= line) && !("data:" <= line)
  }

  /** The name the last event field gives, or the default. */
  function LastName(fields: seq<Field>): string {
    if fields == [] then "message"
    else if Last(fields).EventField? then Trim(Last(fields).name)
    else LastName(Init(fields))
  }

  /** The data of all data fields, in order. */
  function AllData(fields: seq<Field>): seq<string> {
    if fields == [] then []
    else AllData(Init(fields)) + if Last(fields).DataField? then [Trim(Last(fields).data)] else []
  }

  function LinesOf(fields: seq<Field>): seq<string> {
    seq(|fields|, i requires 0 <= i < |fields| => LineOf(fields[i]))
  }

  lemma FieldLine(f: Field)
    requires WellFormed(f)
    ensures OneLine(LineOf(f))
    ensures EVENT <= LineOf(f) <==> f.EventField?
    ensures DATA <= LineOf(f) <==> f.DataField?
    ensures f.EventField? ==> LineOf(f)[|EVENT|..] == f.name
    ensures f.DataField? ==> LineOf(f)[|DATA|..] == f.data
  {
    var line := LineOf(f);
    match f
    case EventField(name) =>
      assert line[0] == 'e' && DATA[0] == 'd';
      assert line[..6] == EVENT && line[6..] == name;
    case DataField(data) =>
      assert line[0] == 'd' && EVENT[0] == 'e';
      assert line[..5] == DATA && line[5..] == data;
    case OtherField(_) =>
  }

  lemma {:induction false} FieldsAreRead(fields: seq<Field>)
    requires forall f | f in fields :: WellFormed(f)
    ensures EventOf(LinesOf(fields)) == LastName(fields) && DataLines(LinesOf(fields)) == AllData(fields)
    decreases |fields|
  {
    if fields != [] {
      hide Trim, WellFormed, LineOf;
      FieldsAreRead(Init(fields));
      FieldLine(Last(fields));
      assert Init(LinesOf(fields)) == LinesOf(Init(fields)) && Last(LinesOf(fields)) == LineOf(Last(fields));
    }
  }

  lemma {:induction false} LinesComeBack(lines: seq<string>)
    requires lines != [] && forall line | line in lines :: OneLine(line)
    ensures SplitOn(Join(lines, "\n"), "\n") == lines
    decreases |lines|
  {
    if |lines| == 1 {
      OneLineStays(lines[0]);
    } else {
      LinesComeBack(lines[1..]);
      FirstLine(lines[0], Join(lines[1..], "\n"));
      assert Join(lines, "\n") == lines[0] + "\n" + Join(lines[1..], "\n");
    }
  }

  /**
   * A segment of any fields is one frame with the last event name, trimmed, and all data, trimmed
   * and on lines of their own; without a data field it is none.
   */
  lemma SegmentMeansItsFields(fields: seq<Field>)
    requires fields != [] && forall f | f in fields :: WellFormed(f)
    ensures var frames := FramesIn(Join(LinesOf(fields), "\n"));
            if AllData(fields) == [] then frames == []
            else |frames| == 1 && frames[0].event == LastName(fields) && SplitOn(frames[0].data, "\n") == AllData(fields)
  {
    var lines := LinesOf(fields);
    forall line | line in lines ensures OneLine(line) {
      var i :| 0 <= i < |lines| && lines[i] == line;
      FieldLine(fields[i]);
    }
    LinesComeBack(lines);
    FieldsAreRead(fields);
    if AllData(fields) != [] {
      DataLinesArePlain(lines);
      LinesComeBack(AllData(fields));
    }
  }

  // ---------------------------------------------------------------- what the server writes

  datatype Message = Sent(event: string, data: string) | Heartbeat

  function Body(m: Message): string {
    match m
    case Sent(event, data) => "event: " + event + "\n" + "data: " + data
    case Heartbeat => ": heartbeat"
  }

  function Wire(m: Message): string {
    Body(m) + "\n\n"
  }

  function Written(messages: seq<Message>): string {
    FlatMap(Wire, messages)
  }

  function Sends(m: Message): seq<Frame> {
    if m.Sent? then [Frame(m.event, m.data)] else []
  }

  /** Event names and payloads without a line break and without blanks at the edges. */
  predicate Plain(m: Message) {
    m.Sent? ==> OneLine(m.event) && OneLine(m.data) && Edged(m.event) && Edged(m.data)
  }

  lemma OneLineStays(s: string)
    requires OneLine(s)
    ensures SplitOn(s, "\n") == [s]
  {
    forall j | 0 <= j < |s| ensures !OccursAt(s, "\n", j) {
      assert s[j] in s && s[j..j + 1] == [s[j]];
    }
  }

  lemma FirstLine(x: string, y: string)
    requires OneLine(x)
    ensures SplitOn(x + "\n" + y, "\n") == [x] + SplitOn(y, "\n")
  {
    var s := x + "\n" + y;
    forall j | 0 <= j < |x| ensures !OccursAt(s, "\n", j) {
      assert s[j] == x[j] && x[j] in x;
      assert s[j..j + 1] == [x[j]];
    }
    FindIsFirst(s, "\n", 0, |x|);
    assert s[..|x|] == x && s[|x| + 1..] == y;
  }

  /** No line break at the end and none next to another. */
  predicate SingleSpaced(body: string) {
    forall j | 0 <= j < |body| && body[j] == '\n' :: j + 1 < |body| && body[j + 1] != '\n'
  }

  lemma SegmentEnds(body: string, tail: string)
    requires SingleSpaced(body)
    ensures SplitOn(body + "\n\n" + tail, "\n\n") == [body] + SplitOn(tail, "\n\n")
  {
    var s := body + "\n\n" + tail;
    forall j | 0 <= j < |body| ensures !OccursAt(s, "\n\n", j) {
      assert s[j] == body[j];
      if body[j] == '\n' {
        assert s[j..j + 2][1] == body[j + 1];
      } else {
        assert s[j..j + 2][0] == body[j];
      }
    }
    FindIsFirst(s, "\n\n", 0, |body|);
    assert s[..|body|] == body && s[|body| + 2..] == tail;
  }

  lemma BodyIsSingleSpaced(event: string, data: string)
    requires OneLine(event) && OneLine(data)
    ensures SingleSpaced(Body(Sent(event, data)))
  {
    var head, tail := "event: " + event, "data: " + data;
    var body := head + "\n" + tail;
    assert body == Body(Sent(event, data));
    assert OneLine(head) && OneLine(tail);
    forall j | 0 <= j < |body| && j != |head| ensures body[j] != '\n' {
      if j < |head| {
        assert body[j] == head[j] && head[j] in head;
      } else {
        assert body[j] == tail[j - |head| - 1] && tail[j - |head| - 1] in tail;
      }
    }
    assert body[|head| + 1] == tail[0] == 'd';
  }

  lemma TwoDataLines(head: string, tail: string)
    ensures DataLines([head, tail]) == DataLines([head]) + DataLines([tail])
    ensures EventOf([head, tail]) == if EVENT <= tail then EventOf([tail]) else EventOf([head])
  {
    assert [head, tail][..1] == [head];
  }

  lemma EventLine(event: string)
    ensures EventOf(["event: " + event]) == Trim(" " + event) && DataLines(["event: " + event]) == []
  {
    var line: string := "event: " + event;
    assert line[..6] == EVENT && line[6..] == " " + event;
    assert line[0] == 'e';
    assert Init([line]) == [];
    assert !(DATA <= line);
  }

  lemma DataLine(data: string)
    ensures DataLines(["data: " + data]) == [Trim(" " + data)] && !(EVENT <= "data: " + data)
  {
    var line: string := "data: " + data;
    assert line[..5] == DATA && line[5..] == " " + data;
    assert line[0] == 'd';
    assert Init([line]) == [];
  }

  lemma HeartbeatIsNoFrame()
    ensures FramesIn(": heartbeat") == []
  {
    var line: string := ": heartbeat";
    OneLineStays(line);
    assert Init([line]) == [];
    assert line[0] == ':' && DATA[0] == 'd';
    assert !(DATA <= line);
  }

  /** One message, one segment, one frame. */
  lemma SegmentRoundTrip(m: Message)
    requires Plain(m)
    ensures FramesIn(Body(m)) == Sends(m)
  {
    match m
    case Heartbeat =>
      HeartbeatIsNoFrame();
    case Sent(event, data) =>
      var head, tail := "event: " + event, "data: " + data;
      assert OneLine(head) && OneLine(tail);
      FirstLine(head, tail);
      OneLineStays(tail);
      assert SplitOn(head + "\n" + tail, "\n") == [head, tail];
      assert Body(m) == head + "\n" + tail;
      TwoDataLines(head, tail);
      EventLine(event);
      DataLine(data);
      TrimAfterSpace(event);
      TrimAfterSpace(data);
  }

  lemma WireRoundTrip(m: Message)
    requires Plain(m)
    ensures Frames(Wire(m)) == Sends(m) && Rest(Wire(m)) == ""
  {
    var body := Body(m);
    match m {
      case Sent(event, data) => BodyIsSingleSpaced(event, data);
      case Heartbeat => assert OneLine(body) && SingleSpaced(body);
    }
    SegmentEnds(body, "");
    assert body + "\n\n" + "" == Wire(m);
    assert SplitOn("", "\n\n") == [""];
    SegmentRoundTrip(m);
    assert Closed(Wire(m)) == [body];
    assert [body][..0] == [];
    assert FlatMap(FramesIn, [body]) == FlatMap(FramesIn, []) + FramesIn(body);
  }

  /** The reader gets back exactly the frames written, heartbeats ignored, with nothing left over. */
  lemma {:induction false} StreamRoundTrip(messages: seq<Message>)
    requires forall m | m in messages :: Plain(m)
    ensures Frames(Written(messages)) == FlatMap(Sends, messages) && Rest(Written(messages)) == ""
    decreases |messages|
  {
    if messages == [] {
      assert SplitOn("", "\n\n") == [""];
    } else {
      var before, last := Init(messages), Last(messages);
      StreamRoundTrip(before);
      CutMakesNoDifference(Written(before), Wire(last));
      assert "" + Wire(last) == Wire(last);
      WireRoundTrip(last);
    }
  }

  /** However the written stream is cut into pieces, and wherever it breaks off, no frame is lost, made up or reordered. */
  lemma PiecesRoundTrip(messages: seq<Message>, pieces: seq<string>)
    requires forall m | m in messages :: Plain(m)
    requires Concat(pieces) <= Written(messages)
    ensures Frames(Concat(pieces)) <= FlatMap(Sends, messages)
    ensures Concat(pieces) == Written(messages) ==> Frames(Concat(pieces)) == FlatMap(Sends, messages)
  {
    var x := Concat(pieces);
    var y := Written(messages)[|x|..];
    assert Written(messages) == x + y;
    StreamRoundTrip(messages);
    CutMakesNoDifference(x, y);
  }

  // ---------------------------------------------------------------- and only plain messages come back

  function Width(lines: seq<string>): nat {
    if lines == [] then 0 else Width(Init(lines)) + |Last(lines)| + 1
  }

  lemma {:induction false} WidthOfBoth(xs: seq<string>, ys: seq<string>)
    ensures Width(xs + ys) == Width(xs) + Width(ys)
    decreases |ys|
  {
    if ys == [] {
      assert xs + ys == xs;
    } else {
      assert Init(xs + ys) == xs + Init(ys);
      WidthOfBoth(xs, Init(ys));
    }
  }

  lemma {:induction false} JoinWidth(lines: seq<string>)
    requires lines != []
    ensures |Join(lines, "\n")| + 1 == Width(lines)
    decreases |lines|
  {
    assert lines == [lines[0]] + lines[1..];
    WidthOfBoth([lines[0]], lines[1..]);
    assert Init([lines[0]]) == [];
    if |lines| > 1 {
      JoinWidth(lines[1..]);
    }
  }

  lemma {:induction false} SplitWidth(s: string)
    ensures Width(SplitOn(s, "\n")) == |s| + 1
    decreases |s|
  {
    var k := Find(s, "\n", 0);
    if k == |s| {
      assert Init([s]) == [];
    } else {
      SplitStep(s, "\n", k);
      SplitWidth(s[k + 1..]);
      WidthOfBoth([s[..k]], SplitOn(s[k + 1..], "\n"));
      assert Init([s[..k]]) == [];
    }
  }

  /** Every data line is paid for with its five-letter field name. */
  lemma {:induction false} DataWidth(lines: seq<string>)
    ensures Width(DataLines(lines)) + 5 * |DataLines(lines)| <= Width(lines)
    decreases |lines|
  {
    if lines != [] {
      DataWidth(Init(lines));
      var last := Last(lines);
      if DATA <= last {
        var data := Trim(last[|DATA|..]);
        TrimEdges(last[|DATA|..]);
        WidthOfBoth(DataLines(Init(lines)), [data]);
        assert Init([data]) == [];
        assert Width([data]) == |data| + 1 <= |last| - 5 + 1 by { assert |DATA| == 5; }
        assert DataLines(lines) == DataLines(Init(lines)) + [data];
      } else {
        assert DataLines(lines) == DataLines(Init(lines));
      }
    }
  }

  lemma {:induction false} LinesAreOneLine(s: string)
    ensures forall line | line in SplitOn(s, "\n") :: OneLine(line)
    decreases |s|
  {
    var k := Find(s, "\n", 0);
    forall j | 0 <= j < k ensures s[j] != '\n' {
      assert s[j..j + 1] == [s[j]] && !OccursAt(s, "\n", j);
    }
    if k == |s| {
      assert SplitOn(s, "\n") == [s];
    } else {
      SplitStep(s, "\n", k);
      LinesAreOneLine(s[k + 1..]);
    }
  }

  lemma OneLineSuffix(s: string, k: nat)
    requires OneLine(s) && k <= |s|
    ensures OneLine(s[k..])
  {
  }

  lemma {:induction false} EventIsPlain(lines: seq<string>)
    requires forall line | line in lines :: OneLine(line)
    ensures OneLine(EventOf(lines)) && Edged(EventOf(lines))
    decreases |lines|
  {
    if lines != [] {
      var last := Last(lines);
      if EVENT <= last {
        OneLineSuffix(last, |EVENT|);
        TrimEdges(last[|EVENT|..]);
      } else {
        EventIsPlain(Init(lines));
      }
    }
  }

  lemma {:induction false} DataLinesArePlain(lines: seq<string>)
    requires forall line | line in lines :: OneLine(line)
    ensures forall data | data in DataLines(lines) :: OneLine(data) && Edged(data)
    decreases |lines|
  {
    if lines != [] {
      DataLinesArePlain(Init(lines));
      var last := Last(lines);
      if DATA <= last {
        OneLineSuffix(last, |DATA|);
        TrimEdges(last[|DATA|..]);
      }
    }
  }

  lemma {:induction false} DataLinesOfBoth(xs: seq<string>, ys: seq<string>)
    ensures DataLines(xs + ys) == DataLines(xs) + DataLines(ys)
    decreases |ys|
  {
    if ys == [] {
      assert xs + ys == xs;
    } else {
      assert Init(xs + ys) == xs + Init(ys);
      DataLinesOfBoth(xs, Init(ys));
    }
  }

  lemma {:induction false} FrameEventsArePlain(segments: seq<string>)
    ensures forall f | f in FramesOf(segments) :: OneLine(f.event) && Edged(f.event)
    decreases |segments|
  {
    if segments != [] {
      FrameEventsArePlain(Init(segments));
      LinesAreOneLine(Last(segments));
      EventIsPlain(SplitOn(Last(segments), "\n"));
    }
  }

  lemma FirstFrames(s: string, k: nat)
    requires k == Find(s, "\n\n", 0) < |s|
    ensures FramesIn(s[..k]) <= Frames(s)
  {
    SplitStep(s, "\n\n", k);
    var pieces := SplitOn(s[k + 2..], "\n\n");
    PushedFront(s[..k], pieces);
    FlatMapOfBoth(FramesIn, [s[..k]], Init(pieces));
    assert Init([s[..k]]) == [];
    assert FlatMap(FramesIn, [s[..k]]) == FlatMap(FramesIn, []) + FramesIn(s[..k]);
  }

  lemma NoGapAt(s: string, j: nat)
    requires j + 1 < |s| && (s[j] != '\n' || s[j + 1] != '\n')
    ensures !OccursAt(s, "\n\n", j)
  {
    assert s[j..j + 2] == [s[j], s[j + 1]];
  }

  lemma NoGapYet(head: string, tail: string, n: nat, j: nat)
    requires OneLine(head) && 0 < n <= |tail| && (forall i | 0 <= i < n :: tail[i] != '\n') && j < |head| + 1 + n
    ensures !OccursAt(head + "\n" + tail + "\n\n", "\n\n", j)
  {
    var s := head + "\n" + tail + "\n\n";
    if j < |head| {
      assert s[j] == head[j] && head[j] in head;
    } else if j == |head| {
      assert s[j + 1] == tail[0];
    } else {
      assert s[j] == tail[j - |head| - 1];
    }
    NoGapAt(s, j);
  }

  lemma FindBetween(s: string, sep: string, lo: nat, hi: nat)
    requires sep != "" && OccursAt(s, sep, hi) && forall j | 0 <= j < lo :: !OccursAt(s, sep, j)
    ensures lo <= Find(s, sep, 0) <= hi
  {
  }

  lemma GapAtEnd(body: string)
    ensures OccursAt(body + "\n\n", "\n\n", |body|)
  {
    assert (body + "\n\n")[|body|..|body| + 2] == "\n\n";
  }

  /** In head + "\n" + tail the first gap comes after the start of tail. */
  lemma FirstGap(head: string, tail: string, n: nat)
    requires OneLine(head) && 0 < n <= |tail| && forall i | 0 <= i < n :: tail[i] != '\n'
    ensures |head| + 1 + n <= Find(head + "\n" + tail + "\n\n", "\n\n", 0) <= |head| + 1 + |tail|
  {
    var body := head + "\n" + tail;
    GapAtEnd(body);
    forall j | 0 <= j < |head| + 1 + n ensures !OccursAt(body + "\n\n", "\n\n", j) {
      NoGapYet(head, tail, n, j);
    }
    FindBetween(body + "\n\n", "\n\n", |head| + 1 + n, |body|);
  }

  /** Cutting head + "\n" + tail + more within tail. */
  lemma CutWithin(head: string, tail: string, more: string, n: nat)
    requires n <= |tail|
    ensures (head + "\n" + tail + more)[..|head| + 1 + n] == head + "\n" + tail[..n]
  {
  }

  /** The first segment of head + "\n" + tail reaches into tail, and the frames begin with what is in it. */
  lemma FirstSegment(head: string, tail: string, n: nat) returns (z: string)
    requires OneLine(head) && 0 < n <= |tail| && forall i | 0 <= i < n :: tail[i] != '\n'
    ensures z <= tail && |z| >= n
    ensures FramesIn(head + "\n" + z) <= Frames(head + "\n" + tail + "\n\n")
  {
    hide FramesIn, Frames;
    var w := head + "\n" + tail + "\n\n";
    FirstGap(head, tail, n);
    var k := Find(w, "\n\n", 0);
    z := tail[..k - |head| - 1];
    CutWithin(head, tail, "\n\n", |z|);
    FirstFrames(w, k);
  }

  lemma DataComesFirst(z: string)
    requires DATA <= z
    ensures DataLines(SplitOn(z, "\n")) != []
  {
    var k := Find(z, "\n", 0);
    forall j | 0 <= j < 5 ensures !OccursAt(z, "\n", j) {
      assert z[j..j + 1] == [DATA[j]];
    }
    assert k >= 5;
    var lines := SplitOn(z, "\n");
    assert lines[0] == z[..k] && DATA <= lines[0];
    assert lines == [lines[0]] + lines[1..];
    DataLinesOfBoth([lines[0]], lines[1..]);
    assert Init([lines[0]]) == [];
  }

  /** No payload is as long as what it is read from unless it is a single data line. */
  lemma ReadBackPayloadIsPlain(event: string, data: string, z: string)
    requires OneLine(event) && DATA <= z && |z| <= 6 + |data|
    requires var frames := FramesIn("event: " + event + "\n" + z); frames != [] ==> frames[0].data == data
    ensures OneLine(data) && Edged(data)
  {
    var head := "event: " + event;
    var lines := SplitOn(z, "\n");
    assert OneLine(head);
    FirstLine(head, z);
    DataLinesOfBoth([head], lines);
    EventLine(event);
    var found := DataLines(lines);
    assert DataLines([head] + lines) == found;
    DataComesFirst(z);
    assert Join(found, "\n") == data;
    SplitWidth(z);
    DataWidth(lines);
    JoinWidth(found);
    assert |found| == 1;
    LinesAreOneLine(z);
    DataLinesArePlain(lines);
    assert found[0] in found;
  }

  /** A message comes back as it was written exactly when its name and payload are single lines without blank edges. */
  lemma ReadBackExactlyWhenPlain(event: string, data: string)
    ensures Frames(Wire(Sent(event, data))) == [Frame(event, data)] <==> Plain(Sent(event, data))
  {
    if Plain(Sent(event, data)) {
      WireRoundTrip(Sent(event, data));
    } else if Frames(Wire(Sent(event, data))) == [Frame(event, data)] {
      FrameEventsArePlain(Closed(Wire(Sent(event, data))));
      assert Frame(event, data) in [Frame(event, data)];
      var head, tail := "event: " + event, "data: " + data;
      assert OneLine(head) && forall j | 0 <= j < 5 :: tail[j] == DATA[j];
      assert Body(Sent(event, data)) == head + "\n" + tail;
      var z := FirstSegment(head, tail, 5);
      ReadBackPayloadIsPlain(event, data, z);
      assert false;
    }
  }
}
