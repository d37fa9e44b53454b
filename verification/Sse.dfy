/** The server-sent event reader over the lines of a stream. */
module Sse {
  import opened Text

  datatype Event = Event(id: string, event: string, data: string, retry: int)

  /** What one call of `NextEvent` gives. */
  datatype Poll = Got(event: Event) | Nothing | Broken

  const COLON: char := ':'

  // ---- Lines -----------------------------------------------------------------------------------------------

  datatype Field = Field(name: string, value: string)

  function IndexOf(s: string, c: char): (i: nat)
    ensures i <= |s| && c !in s[..i] && (i < |s| ==> s[i] == c)
  {
    if s == "" || s[0] == c then 0
    else
      var i := IndexOf(s[1..], c);
      assert s[..i + 1] == [s[0]] + s[1..][..i];
      i + 1
  }

  /** A field line, or nothing for an empty line or a comment. One space after the colon is dropped. */
  function Parse(line: string): (f: Option<Field>) {
    if line == "" || line[0] == COLON then None
    else
      var i := IndexOf(line, COLON);
      if i == |line| then Some(Field(line, ""))
      else
        var value := line[i + 1..];
        Some(Field(line[..i], if value != "" && value[0] == ' ' then value[1..] else value))
  }

  predicate Named(line: string, name: string) {
    Parse(line).Some? && Parse(line).value.name == name
  }

  /** `strconv.ParseInt(s, 10, 64)`. */
  function ParseInt64(s: string): Option<int> {
    var negative := s != "" && s[0] == '-';
    var digits := if s != "" && (s[0] == '-' || s[0] == '+') then s[1..] else s;
    match ParseUint(digits, 10, 0x8000_0000_0000_0001)
    case None => None
    case Some(n) => if negative then Some(-(n as int)) else if n < 0x8000_0000_0000_0000 then Some(n) else None
  }

  /** A product of 64-bit integers wraps. */
  function Wrap64(n: int): int {
    (n + 0x8000_0000_0000_0000) % 0x1_0000_0000_0000_0000 - 0x8000_0000_0000_0000
  }

  /** How a line reads: a name alone, a value after the colon, and one space after the colon dropped. Empty
      lines and lines that start with a colon are no fields. */
  lemma FieldLine(name: string, value: string)
    requires name != "" && COLON !in name
    ensures Parse(name + [COLON] + " " + value) == Some(Field(name, value))
    ensures (value == "" || value[0] != ' ') ==> Parse(name + [COLON] + value) == Some(Field(name, value))
    ensures Parse(name) == Some(Field(name, ""))
    ensures Parse("") == None && Parse([COLON] + value) == None
  {
    ColonAt(name, value);
    ColonAt(name, " " + value);
    assert name + [COLON] + " " + value == name + [COLON] + (" " + value);
    assert (" " + value)[1..] == value;
    var i := IndexOf(name, COLON);
    assert i == |name|;
  }

  lemma ColonAt(name: string, rest: string)
    requires COLON !in name
    ensures var line := name + [COLON] + rest;
            IndexOf(line, COLON) == |name| && line[..|name|] == name && line[|name| + 1..] == rest
  {
    var line := name + [COLON] + rest;
    var i := IndexOf(line, COLON);
    assert line[|name|] == COLON;
    assert i == |name|;
  }

  /** Numbers of the retry field: signed 64-bit decimals and nothing else. */
  lemma ParseInt64Of(n: nat)
    ensures ParseInt64(Decimal(n)) == if n < 0x8000_0000_0000_0000 then Some(n) else None
    ensures ParseInt64("+" + Decimal(n)) == ParseInt64(Decimal(n))
    ensures ParseInt64("-" + Decimal(n)) == if n <= 0x8000_0000_0000_0000 then Some(-(n as int)) else None
  {
    hide Decimal;
    DecimalShape(n);
    ParseUintOf(n, 0x8000_0000_0000_0001);
    assert ("+" + Decimal(n))[1..] == Decimal(n) && ("-" + Decimal(n))[1..] == Decimal(n);
  }

  lemma DecimalShape(n: nat)
    ensures Decimal(n) != "" && Decimal(n)[0] != '-' && Decimal(n)[0] != '+'
  {
    DigitsAvoid(Decimal(n), 10, '-');
    DigitsAvoid(Decimal(n), 10, '+');
  }

  lemma ParseUintOf(n: nat, limit: nat)
    ensures ParseUint(Decimal(n), 10, limit) == if n < limit then Some(n) else None
  {
    hide Decimal;
    ParseOfDecimal(n, n + 1);
  }

  // ---- What a group of lines says ------------------------------------------------------------------------------

  /** The values of all data lines, in order. */
  function DataValues(lines: seq<string>): seq<string> {
    if lines == [] then []
    else
      var last := lines[|lines| - 1];
      DataValues(lines[..|lines| - 1]) + if Named(last, "data") then [Parse(last).value.value] else []
  }

  predicate Usable(name: string, value: string) {
    (name == "id" ==> '\0' !in value) && (name == "retry" ==> ParseInt64(value).Some?)
  }

  /** The value of the last usable line of that name. An id with a NUL and a retry that is not a number
      are not usable. */
  function LastValue(lines: seq<string>, name: string): Option<string> {
    if lines == [] then None
    else
      var last := lines[|lines| - 1];
      if Named(last, name) && Usable(name, Parse(last).value.value) then Some(Parse(last).value.value)
      else LastValue(lines[..|lines| - 1], name)
  }

  function Or(o: Option<string>, otherwise: string): string {
    match o case None => otherwise case Some(v) => v
  }

  function RetryOf(lines: seq<string>): Option<int> {
    match LastValue(lines, "retry") case None => None case Some(v) => ParseInt64(v)
  }

  function EventOf(lines: seq<string>): Event {
    Event(Or(LastValue(lines, "id"), ""), Or(LastValue(lines, "event"), ""), Join(DataValues(lines), '\n'),
          match RetryOf(lines) case None => 0 case Some(n) => n)
  }

  /** Where the first event ends: just after the first empty line with a data line before it. */
  function EndOf(lines: seq<string>, hasData: bool): (n: Option<nat>)
    ensures n.Some? ==> 0 < n.value <= |lines|
  {
    if lines == [] then None
    else if lines[0] == "" && hasData then Some(1)
    else match EndOf(lines[1..], hasData || Named(lines[0], "data"))
      case None => None
      case Some(n) => Some(n + 1)
  }

  /** The lines one call consumes. */
  function Consumed(lines: seq<string>): (n: nat)
    ensures n <= |lines|
  {
    match EndOf(lines, false) case None => |lines| case Some(n) => n
  }

  /** One call: at the end of the stream an unterminated event counts, unless the scanner failed. */
  function NextOf(lines: seq<string>, failed: bool): Poll {
    if EndOf(lines, false).Some? then Got(EventOf(lines[..Consumed(lines)]))
    else if failed then Broken
    else if DataValues(lines) != [] then Got(EventOf(lines))
    else Nothing
  }

  /** All events of a stream, call after call. */
  function Events(lines: seq<string>, failed: bool): seq<Event>
    decreases |lines|
  {
    match EndOf(lines, false)
    case Some(n) => [EventOf(lines[..n])] + Events(lines[n..], failed)
    case None => if !failed && DataValues(lines) != [] then [EventOf(lines)] else []
  }

  // ---- The data buffer -------------------------------------------------------------------------------------

  /** Every value followed by a newline, as the buffer holds them. */
  function Terminated(values: seq<string>): string {
    if values == [] then "" else Terminated(values[..|values| - 1]) + values[|values| - 1] + "\n"
  }

  /** `strings.TrimSuffix(s, "\n")`. */
  function TrimNewline(s: string): string {
    if s != "" && s[|s| - 1] == '\n' then s[..|s| - 1] else s
  }

  lemma TerminatedSnoc(values: seq<string>, v: string)
    ensures Terminated(values + [v]) == Terminated(values) + v + "\n"
  {
    assert (values + [v])[..|values|] == values;
  }

  lemma {:induction false} JoinSnoc(values: seq<string>, v: string)
    requires values != []
    ensures Join(values + [v], '\n') == Join(values, '\n') + "\n" + v
    decreases |values|
  {
    if |values| == 1 {
      assert (values + [v])[1..] == [v];
    } else {
      assert (values + [v])[1..] == values[1..] + [v];
      JoinSnoc(values[1..], v);
    }
  }

  /** Trimming the buffer gives the values joined by newlines. */
  lemma {:induction false} BufferIsJoin(values: seq<string>)
    ensures values != [] ==>
              Terminated(values) == Join(values, '\n') + "\n" && TrimNewline(Terminated(values)) == Join(values, '\n')
    ensures values == [] <==> Terminated(values) == ""
    decreases |values|
  {
    if |values| > 1 {
      var front, v := values[..|values| - 1], values[|values| - 1];
      BufferIsJoin(front);
      JoinSnoc(front, v);
      assert values == front + [v];
    }
  }

  // ---- Prefix lemmas -----------------------------------------------------------------------------------------

  lemma DataValuesSnoc(lines: seq<string>, line: string)
    ensures DataValues(lines + [line]) == DataValues(lines) +
            if Named(line, "data") then [Parse(line).value.value] else []
  {
    assert (lines + [line])[..|lines|] == lines;
  }

  lemma LastValueSnoc(lines: seq<string>, line: string, name: string)
    ensures LastValue(lines + [line], name) ==
            if Named(line, name) && Usable(name, Parse(line).value.value) then Some(Parse(line).value.value)
                else LastValue(lines, name)
  {
    assert (lines + [line])[..|lines|] == lines;
  }

  /** Before the first line. */
  lemma NothingRead(failed: bool, id: string, reconnection: int)
    ensures DataValues([]) == [] && Events([], failed) == [] && Recovered([]) == [] && LastId([], id) == id
    ensures EndOf([], true) == None && EndOf([], false) == None
    ensures Summarises(Gathered("", "", 0, "", false, reconnection), [], reconnection)
  {
  }

  lemma {:induction false} DataValuesConcat(a: seq<string>, b: seq<string>)
    ensures DataValues(a + b) == DataValues(a) + DataValues(b)
  {
    if b == [] {
      assert a + b == a;
    } else {
      assert (a + b)[..|a + b| - 1] == a + b[..|b| - 1];
      DataValuesConcat(a, b[..|b| - 1]);
    }
  }

  lemma {:induction false} LastValueConcat(a: seq<string>, b: seq<string>, name: string)
    ensures LastValue(a + b, name) == if LastValue(b, name).Some? then LastValue(b, name) else LastValue(a, name)
  {
    if b == [] {
      assert a + b == a;
    } else {
      assert (a + b)[..|a + b| - 1] == a + b[..|b| - 1];
      LastValueConcat(a, b[..|b| - 1], name);
    }
  }

  /** Reading on from line `i`. */
  lemma EndStep(lines: seq<string>, i: nat, hasData: bool)
    requires i < |lines|
    ensures lines[i] == "" && hasData ==> EndOf(lines[i..], hasData) == Some(1)
    ensures !(lines[i] == "" && hasData) ==>
              EndOf(lines[i..], hasData) == Shift(EndOf(lines[i + 1..], hasData || Named(lines[i], "data")), 1)
  {
    assert lines[i..][1..] == lines[i + 1..];
  }

  function Shift(n: Option<nat>, more: nat): Option<nat> {
    match n case None => None case Some(m) => Some(m + more)
  }

  // ---- The reader --------------------------------------------------------------------------------------------

  /** What the loop has gathered from the lines read so far. */
  datatype Gathered = Gathered(id: string, event: string, retry: int, data: string, inData: bool, reconnection: int)

  ghost predicate Summarises(g: Gathered, lines: seq<string>, reconnection: int) {
    g.id == Or(LastValue(lines, "id"), "") &&
    g.event == Or(LastValue(lines, "event"), "") &&
    g.retry == OrNumber(RetryOf(lines), 0) &&
    g.reconnection == Reconnection(RetryOf(lines), reconnection) &&
    g.data == Terminated(DataValues(lines)) &&
    g.inData == (DataValues(lines) != [])
  }

  function OrNumber(n: Option<int>, otherwise: int): int {
    match n case None => otherwise case Some(m) => m
  }

  /** Milliseconds to nanoseconds. */
  function Reconnection(retry: Option<int>, before: int): int {
    match retry case None => before case Some(n) => Wrap64(n * 1_000_000)
  }

  /** A retry in range counts in milliseconds. */
  lemma ReconnectionOf(n: int, before: int)
    requires -9_223_372_036_854 <= n <= 9_223_372_036_854
    ensures Reconnection(Some(n), before) == n * 1_000_000 && Reconnection(None, before) == before
  {
  }

  /** The switch on the field name. */
  method Process(g: Gathered, field: Field) returns (h: Gathered)
    ensures h.id == if field.name == "id" && Usable("id", field.value) then field.value else g.id
    ensures h.event == if field.name == "event" then field.value else g.event
    ensures field.name == "retry" && ParseInt64(field.value).Some? ==>
              h.retry == ParseInt64(field.value).value && h.reconnection == Wrap64(h.retry * 1_000_000)
    ensures !(field.name == "retry" && ParseInt64(field.value).Some?) ==>
              h.retry == g.retry && h.reconnection == g.reconnection
    ensures h.data == if field.name == "data" then g.data + field.value + "\n" else g.data
    ensures h.inData == (g.inData || field.name == "data")
  {
    h := g;
    if field.name == "event" {
      h := g.(event := field.value);
    } else if field.name == "data" {
      h := g.(inData := true, data := g.data + field.value + "\n");
    } else if field.name == "id" {
      if '\0' !in field.value {
        h := g.(id := field.value);
      }
    } else if field.name == "retry" {
      var retry := ParseInt64(field.value);
      if retry.Some? {
        h := g.(retry := retry.value, reconnection := Wrap64(retry.value * 1_000_000));
      }
    }
  }

  /** The summary of one more line. */
  lemma SummaryStep(g: Gathered, h: Gathered, lines: seq<string>, line: string, reconnection: int)
    requires Summarises(g, lines, reconnection)
    requires Parse(line).None? ==> h == g
    requires Parse(line).Some? ==>
               var f := Parse(line).value;
               h.id == (if f.name == "id" && Usable("id", f.value) then f.value else g.id) &&
               h.event == (if f.name == "event" then f.value else g.event) &&
               (if f.name == "retry" && ParseInt64(f.value).Some?
                then h.retry == ParseInt64(f.value).value && h.reconnection == Wrap64(h.retry * 1_000_000)
                else h.retry == g.retry && h.reconnection == g.reconnection) &&
               h.data == (if f.name == "data" then g.data + f.value + "\n" else g.data) &&
               h.inData == (g.inData || f.name == "data")
    ensures Summarises(h, lines + [line], reconnection)
  {
    hide LastValue, DataValues, Terminated, ParseInt64, Parse, Wrap64;
    LastValueSnoc(lines, line, "id");
    LastValueSnoc(lines, line, "event");
    LastValueSnoc(lines, line, "retry");
    DataValuesSnoc(lines, line);
    assert DataValues(lines) + [] == DataValues(lines);
    if Named(line, "data") {
      TerminatedSnoc(DataValues(lines), Parse(line).value.value);
    }
  }

  class SseResponse {
    var lines: seq<string>
    const failed: bool
    var lastEventId: string
    var reconnection: int

    constructor (lines: seq<string>, failed: bool, lastEventId: string)
      ensures this.lines == lines && this.failed == failed && this.lastEventId == lastEventId &&
              reconnection == 3_000_000_000
    {
      this.lines, this.failed, this.lastEventId, this.reconnection := lines, failed, lastEventId, 3_000_000_000;
    }

    /** `NextEvent`. */
    method NextEvent() returns (r: Poll)
      modifies this
      ensures r == NextOf(old(lines), failed)
      ensures lines == old(lines)[Consumed(old(lines))..]
      ensures lastEventId == if r.Got? && r.event.id != "" then r.event.id else old(lastEventId)
      ensures reconnection == Reconnection(RetryOf(old(lines)[..Consumed(old(lines))]), old(reconnection))
    {
      hide LastValue, DataValues, Terminated, ParseInt64, Parse, Wrap64, EndOf, Join, RetryOf, Usable, Summarises;
      ghost var all := lines;
      var g := Gathered("", "", 0, "", false, reconnection);
      NothingRead(failed, lastEventId, reconnection);
      ghost var i := 0;
      assert all[..0] == [] && all[0..] == all;
      while lines != []
        invariant i <= |all| && lines == all[i..]
        invariant Summarises(g, all[..i], old(reconnection)) && reconnection == g.reconnection &&
                  lastEventId == old(lastEventId)
        invariant EndOf(all, false) == Shift(EndOf(all[i..], g.inData), i)
        decreases |lines|
      {
        var line := lines[0];
        EndStep(all, i, g.inData);
        BufferKnows(g, all[..i], old(reconnection));
        lines := lines[1..];
        i := i + 1;
        assert all[..i] == all[..i - 1] + [line];
        ParseFacts(line);
        if line == "" {
          SummaryStep(g, g, all[..i - 1], line, old(reconnection));
          if |g.data| > 0 {
            var event := Event(g.id, g.event, TrimNewline(g.data), g.retry);
            if event.id != "" {
              lastEventId := event.id;
            }
            SummaryIsEvent(g, all[..i], old(reconnection));
            BufferKnows(g, all[..i], old(reconnection));
            return Got(event);
          }
          continue;
        }
        if line[0] == COLON {
          SummaryStep(g, g, all[..i - 1], line, old(reconnection));
          continue;
        }
        ghost var before := g;
        g := Process(g, Parse(line).value);
        reconnection := g.reconnection;
        SummaryStep(before, g, all[..i - 1], line, old(reconnection));
      }
      assert all[..i] == all;
      assert all[i..] == [];
      BufferKnows(g, all, old(reconnection));
      if failed {
        return Broken;
      }
      if g.inData {
        var event := Event(g.id, g.event, TrimNewline(g.data), g.retry);
        if event.id != "" {
          lastEventId := event.id;
        }
        SummaryIsEvent(g, all, old(reconnection));
        return Got(event);
      }
      return Nothing;
    }

    /** Calling `NextEvent` until it has no event. */
    method Drain() returns (events: seq<Event>, last: Poll)
      modifies this
      ensures events == Events(old(lines), failed) && lines == []
      ensures last == if failed then Broken else Nothing
      ensures lastEventId == LastId(events, old(lastEventId))
    {
      hide EndOf, EventOf, Events, DataValues, LastValue, RetryOf, LastId;
      events := [];
      NothingRead(failed, lastEventId, 0);
      while true
        invariant events + Events(lines, failed) == Events(old(lines), failed)
        invariant lastEventId == LastId(events, old(lastEventId))
        decreases |lines|
      {
        NextIsFirst(lines, failed);
        last := NextEvent();
        if !last.Got? {
          break;
        }
        LastIdSnoc(events, last.event, old(lastEventId));
        events := events + [last.event];
      }
    }
  }

  /** The id of the last event that has one. */
  function LastId(events: seq<Event>, before: string): string {
    if events == [] then before
    else if events[|events| - 1].id != "" then events[|events| - 1].id
    else LastId(events[..|events| - 1], before)
  }

  lemma LastIdSnoc(events: seq<Event>, e: Event, before: string)
    ensures LastId(events + [e], before) == if e.id != "" then e.id else LastId(events, before)
  {
    assert (events + [e])[..|events|] == events;
  }

  /** One call takes the first event off the stream, and always makes progress when it finds one. */
  lemma NextIsFirst(lines: seq<string>, failed: bool)
    ensures var rest := lines[Consumed(lines)..];
            match NextOf(lines, failed)
            case Got(e) => Events(lines, failed) == [e] + Events(rest, failed) && |rest| < |lines|
            case _ => Events(lines, failed) == [] && rest == [] && (NextOf(lines, failed).Broken? <==> failed)
  {
    hide EventOf;
    if EndOf(lines, false).None? && DataValues(lines) != [] {
      assert lines != [];
      assert lines[Consumed(lines)..] == [];
    }
  }

  lemma ParseFacts(line: string)
    ensures Parse(line).None? <==> line == "" || line[0] == COLON
    ensures Parse(line).None? ==> forall name :: !Named(line, name)
  {
  }

  lemma BufferKnows(g: Gathered, lines: seq<string>, reconnection: int)
    requires Summarises(g, lines, reconnection)
    ensures g.inData <==> |g.data| > 0
    ensures g.inData <==> DataValues(lines) != []
    ensures g.reconnection == Reconnection(RetryOf(lines), reconnection)
  {
    hide LastValue, Terminated, RetryOf;
    BufferIsJoin(DataValues(lines));
  }

  lemma SummaryIsEvent(g: Gathered, lines: seq<string>, reconnection: int)
    requires Summarises(g, lines, reconnection) && g.inData
    ensures Event(g.id, g.event, TrimNewline(g.data), g.retry) == EventOf(lines)
  {
    hide LastValue, Terminated, RetryOf, TrimNewline, DataValues;
    BufferIsJoin(DataValues(lines));
  }

  // ---- Conservation ----------------------------------------------------------------------------------------

  /** The data values a consumer can read off the events. */
  function Recovered(events: seq<Event>): seq<string> {
    if events == [] then [] else Split(events[0].data, '\n') + Recovered(events[1..])
  }

  /** Lines are what a scanner delivers: none contains a newline. */
  predicate Scanned(lines: seq<string>) {
    Clean(lines, '\n')
  }

  /** How many lines belong to terminated events. */
  function Ended(lines: seq<string>): (n: nat)
    ensures n <= |lines|
    decreases |lines|
  {
    match EndOf(lines, false)
    case None => 0
    case Some(n) => n + Ended(lines[n..])
  }

  lemma {:induction false} DataValuesClean(lines: seq<string>)
    requires Scanned(lines)
    ensures Clean(DataValues(lines), '\n')
  {
    if lines != [] {
      DataValuesClean(lines[..|lines| - 1]);
      var last := lines[|lines| - 1];
      if Named(last, "data") {
        ValueOccurs(last);
        var value := Parse(last).value.value;
        forall c | c in value
          ensures c != '\n'
        {
          assert c in last;
        }
      }
    }
  }

  /** A value is made of characters of its line. */
  lemma ValueOccurs(line: string)
    requires Parse(line).Some?
    ensures forall c :: c in Parse(line).value.value ==> c in line
  {
  }

  /** A terminated event has data. */
  lemma {:induction false} EndHasData(lines: seq<string>, hasData: bool)
    requires EndOf(lines, hasData).Some?
    ensures hasData || DataValues(lines[..EndOf(lines, hasData).value]) != []
    decreases |lines|
  {
    if !hasData {
      var n := EndOf(lines, hasData).value;
      EndHasData(lines[1..], Named(lines[0], "data"));
      assert lines[..n] == [lines[0]] + lines[1..][..n - 1];
      DataValuesConcat([lines[0]], lines[1..][..n - 1]);
      DataValuesSnoc([], lines[0]);
      assert [] + [lines[0]] == [lines[0]];
    }
  }

  lemma RecoveredOne(lines: seq<string>, rest: seq<Event>)
    requires Scanned(lines) && DataValues(lines) != []
    ensures Recovered([EventOf(lines)] + rest) == DataValues(lines) + Recovered(rest)
  {
    hide DataValues, LastValue, RetryOf, Join, Split;
    DataValuesClean(lines);
    SplitOfJoin(DataValues(lines), '\n');
    assert ([EventOf(lines)] + rest)[1..] == rest;
  }

  /** Each data line is in exactly one event, in stream order: without a scanner error all of them,
      with one exactly those of terminated events. */
  lemma {:induction false} DataConserved(lines: seq<string>, failed: bool)
    requires Scanned(lines)
    ensures Recovered(Events(lines, failed)) == DataValues(if failed then lines[..Ended(lines)] else lines)
    decreases |lines|
  {
    hide DataValues, EventOf, Recovered, Clean;
    NothingRead(failed, "", 0);
    match EndOf(lines, false)
    case Some(n) =>
      var first, rest := lines[..n], lines[n..];
      ScannedParts(lines, n);
      EndHasData(lines, false);
      RecoveredOne(first, Events(rest, failed));
      DataConserved(rest, failed);
      DataValuesConcat(first, rest);
      DataValuesConcat(first, rest[..Ended(rest)]);
      assert lines == first + rest;
      assert lines[..Ended(lines)] == first + rest[..Ended(rest)];
    case None =>
      if !failed && DataValues(lines) != [] {
        RecoveredOne(lines, []);
        assert [EventOf(lines)] + [] == [EventOf(lines)];
        assert DataValues(lines) + [] == DataValues(lines);
      }
      assert lines[..0] == [];
  }

  lemma ScannedParts(lines: seq<string>, n: nat)
    requires Scanned(lines) && n <= |lines|
    ensures Scanned(lines[..n]) && Scanned(lines[n..])
  {
  }

  // ---- Against the standard ------------------------------------------------------------------------------

  /** Section 9.2.6 of the HTML Living Standard keeps a data buffer and an event type buffer and empties
      both at every empty line, whether it dispatches an event there or not. */
  function DataBuffer(lines: seq<string>): seq<string> {
    if lines == [] || lines[|lines| - 1] == "" then []
    else
      var last := lines[|lines| - 1];
      DataBuffer(lines[..|lines| - 1]) + if Named(last, "data") then [Parse(last).value.value] else []
  }

  function TypeBuffer(lines: seq<string>): string {
    if lines == [] || lines[|lines| - 1] == "" then ""
    else
      var last := lines[|lines| - 1];
      if Named(last, "event") then Parse(last).value.value else TypeBuffer(lines[..|lines| - 1])
  }

  /** The standard dispatches at an empty line with data in the buffer. */
  predicate DispatchesAt(lines: seq<string>, m: nat)
    requires m < |lines|
  {
    lines[m] == "" && DataBuffer(lines[..m]) != []
  }

  /** The first event of the standard ends with line `m`. */
  predicate FirstDispatch(lines: seq<string>, m: nat) {
    m < |lines| && DispatchesAt(lines, m) && forall k :: 0 <= k < m ==> !DispatchesAt(lines, k)
  }

  /** Before the first dispatch nothing the buffer has held is lost: its content is all data read so far. */
  lemma {:induction false} NoDispatchYet(lines: seq<string>, m: nat)
    requires m <= |lines| && forall k :: 0 <= k < m ==> !DispatchesAt(lines, k)
    ensures DataBuffer(lines[..m]) == DataValues(lines[..m])
    decreases m
  {
    if m > 0 {
      NoDispatchYet(lines, m - 1);
      assert lines[..m][..m - 1] == lines[..m - 1];
      assert !DispatchesAt(lines, m - 1);
    }
  }

  /** The reader's own end of the first event. */
  lemma {:induction false} EndIsFirst(lines: seq<string>, hasData: bool, n: nat)
    ensures EndOf(lines, hasData) == Some(n) <==>
            0 < n <= |lines| && lines[n - 1] == "" && (hasData || DataValues(lines[..n - 1]) != []) &&
            forall k :: 0 <= k < n - 1 && lines[k] == "" ==> !hasData && DataValues(lines[..k]) == []
    decreases |lines|
  {
    if lines != [] {
      var d := Named(lines[0], "data");
      var rest := lines[1..];
      forall k: nat | k < |lines|
        ensures k > 0 ==> (DataValues(lines[..k]) != [] <==> d || DataValues(rest[..k - 1]) != [])
        ensures k == 0 ==> DataValues(lines[..k]) == []
      {
        if k > 0 {
          assert lines[..k] == [lines[0]] + rest[..k - 1];
          DataValuesConcat([lines[0]], rest[..k - 1]);
          DataValuesSnoc([], lines[0]);
          assert [] + [lines[0]] == [lines[0]];
        }
      }
      if n > 0 {
        EndIsFirst(rest, hasData || d, n - 1);
      }
      EndCases(lines, hasData, d, n);
    }
  }

  lemma EndCases(lines: seq<string>, hasData: bool, d: bool, n: nat)
    requires lines != [] && d == Named(lines[0], "data")
    ensures EndOf(lines, hasData) == Some(n) <==>
            if lines[0] == "" && hasData then n == 1 else n > 1 && EndOf(lines[1..], hasData || d) == Some(n - 1)
  {
  }

  lemma {:induction false} BufferWithinValues(lines: seq<string>)
    requires DataValues(lines) == []
    ensures DataBuffer(lines) == []
  {
    if lines != [] && lines[|lines| - 1] != "" {
      BufferWithinValues(lines[..|lines| - 1]);
    }
  }

  /** The reader ends its first event exactly where the standard dispatches its first, with the same data. */
  lemma FirstEventIsStandard(lines: seq<string>, m: nat)
    ensures FirstDispatch(lines, m) <==> EndOf(lines, false) == Some(m + 1)
    ensures FirstDispatch(lines, m) ==> DataBuffer(lines[..m]) == DataValues(lines[..m + 1])
  {
    hide DataBuffer, DataValues, EndOf, Named;
    EndIsFirst(lines, false, m + 1);
    if FirstDispatch(lines, m) {
      forall k: nat | k <= m
        ensures DataBuffer(lines[..k]) == DataValues(lines[..k])
      {
        NoDispatchYet(lines, k);
      }
      forall k: nat | k < m && lines[k] == ""
        ensures DataValues(lines[..k]) == []
      {
        assert !DispatchesAt(lines, k);
      }
    } else if EndOf(lines, false) == Some(m + 1) {
      forall k: nat | k < m
        ensures !DispatchesAt(lines, k)
      {
        if lines[k] == "" {
          BufferWithinValues(lines[..k]);
        }
      }
      NoDispatchYet(lines, m);
    }
    if FirstDispatch(lines, m) {
      assert lines[..m + 1] == lines[..m] + [lines[m]];
      DataValuesSnoc(lines[..m], lines[m]);
      ParseFacts("");
    }
  }

  /** The lines after the last empty line, and those up to it. */
  function Block(lines: seq<string>): (b: seq<string>)
    ensures |b| <= |lines| && b == lines[|lines| - |b|..]
  {
    if lines == [] || lines[|lines| - 1] == "" then []
    else Block(lines[..|lines| - 1]) + [lines[|lines| - 1]]
  }

  function Earlier(lines: seq<string>): seq<string> {
    lines[..|lines| - |Block(lines)|]
  }

  /** The standard's type is what the block says. */
  lemma {:induction false} TypeOfBlock(lines: seq<string>)
    ensures TypeBuffer(lines) == Or(LastValue(Block(lines), "event"), "")
  {
    if lines != [] && lines[|lines| - 1] != "" {
      TypeOfBlock(lines[..|lines| - 1]);
      LastValueSnoc(Block(lines[..|lines| - 1]), lines[|lines| - 1], "event");
    }
  }

  /** For the event that ends with line `m`, data always agree with the standard; the type agrees if and only
      if the event's own block names one or the blocks before it, which had no data, left none behind. */
  lemma TypeAgreesIff(lines: seq<string>, failed: bool, m: nat)
    requires FirstDispatch(lines, m)
    ensures NextOf(lines, failed).Got?
    ensures NextOf(lines, failed).event.data == Join(DataBuffer(lines[..m]), '\n')
    ensures NextOf(lines, failed).event.event == TypeBuffer(lines[..m]) <==>
            LastValue(Block(lines[..m]), "event").Some? || Or(LastValue(Earlier(lines[..m]), "event"), "") == ""
  {
    hide LastValue, DataValues, DataBuffer, TypeBuffer, Join, RetryOf, Block, EndOf;
    FirstEventIsStandard(lines, m);
    var body := lines[..m];
    assert lines[..m + 1] == body + [lines[m]];
    LastValueSnoc(body, lines[m], "event");
    ParseFacts("");
    ParseFacts("");
    TypeOfBlock(body);
    assert body == Earlier(body) + Block(body);
    LastValueConcat(Earlier(body), Block(body), "event");
  }

  /** A family on which it does not: the type of a block without data is given to the next event. */
  lemma TypeCarriedOver(t: string, d: string)
    requires t != "" && t[0] != ' ' && (d == "" || d[0] != ' ')
    ensures var lines := ["event" + [COLON] + t] + [""] + ["data" + [COLON] + d] + [""];
            FirstDispatch(lines, 3) && NextOf(lines, false).Got? &&
            NextOf(lines, false).event.event == t && TypeBuffer(lines[..3]) == ""
  {
    hide Parse, IndexOf, Join, EndOf, LastValue, DataValues, DataBuffer, TypeBuffer, RetryOf, FirstDispatch;
    var typed, filled := "event" + [COLON] + t, "data" + [COLON] + d;
    var lines := [typed] + [""] + [filled] + [""];
    FieldLine("event", t);
    FieldLine("data", d);
    assert |"event"| != |"data"|;
    DataSteps(lines, typed, filled, d);
    TypeSteps(lines, typed, filled, t);
    FirstEventIsStandard(lines, 3);
    assert lines[..4] == lines;
  }

  lemma TypeSteps(lines: seq<string>, typed: string, filled: string, t: string)
    requires lines == [typed] + [""] + [filled] + [""] && Parse(typed) == Some(Field("event", t)) &&
             !Named(filled, "event")
    ensures LastValue(lines, "event") == Some(t)
  {
    hide Parse, LastValue, ParseInt64;
    ParseFacts("");
    LastValueSnoc([], typed, "event");
    LastValueSnoc([] + [typed], "", "event");
    LastValueSnoc([typed] + [""], filled, "event");
    LastValueSnoc([typed] + [""] + [filled], "", "event");
    assert [] + [typed] == [typed];
    assert Usable("event", t) by { assert |"event"| != |"id"|; assert "event"[0] != "retry"[0]; }
  }

  lemma DataSteps(lines: seq<string>, typed: string, filled: string, d: string)
    requires lines == [typed] + [""] + [filled] + [""]
    requires typed != "" && filled != "" && !Named(typed, "data") && Named(filled, "data") && !Named(filled, "event")
    ensures DataBuffer(lines[..1]) == [] && DataBuffer(lines[..3]) != [] && FirstDispatch(lines, 3) &&
            TypeBuffer(lines[..3]) == ""
  {
    hide Parse, Named;
    assert lines[..1][..0] == [] && lines[..3][..2] == lines[..2] && lines[..2][1] == "";
  }

  // ---- An event from its lines -------------------------------------------------------------------------------

  /** A group with every field; the second id has a NUL and does not count. */
  function GroupOf(n: nat, i: string, bad: string, e: string, d: string, d': string): seq<string> {
    ["retry" + [COLON] + " " + Decimal(n)] + ["id" + [COLON] + " " + i] + ["id" + [COLON] + " " + bad]
    + ["event" + [COLON] + " " + e] + ["data" + [COLON] + " " + d] + ["data" + [COLON] + " " + d']
  }

  lemma NamesDiffer()
    ensures "id" != "event" && "id" != "data" && "id" != "retry" && "event" != "data" && "event" != "retry" &&
            "data" != "retry"
  {
    assert |"id"| == 2 && |"event"| == 5 && |"data"| == 4 && |"retry"| == 5 && "event"[0] != "retry"[0];
  }

  lemma FieldOf(line: string, name: string, value: string, other: string)
    requires Parse(line) == Some(Field(name, value))
    ensures Named(line, other) <==> name == other
    ensures line != ""
  {
  }

  /** Lines of known fields. */
  predicate Reads(g: seq<string>, names: seq<string>, values: seq<string>) {
    |g| == |names| == |values| && forall k :: 0 <= k < |g| ==> Parse(g[k]) == Some(Field(names[k], values[k]))
  }

  /** The data are the values of the data fields; a later usable value of a name wins. */
  lemma ReadsSnoc(g: seq<string>, names: seq<string>, values: seq<string>, name: string)
    requires Reads(g, names, values) && g != []
    ensures var n := |g| - 1;
            && Reads(g[..n], names[..n], values[..n])
            && DataValues(g) == DataValues(g[..n]) + (if names[n] == "data" then [values[n]] else [])
            && LastValue(g, name) ==
               if names[n] == name && Usable(name, values[n]) then Some(values[n]) else LastValue(g[..n], name)
  {
    hide Parse, Usable, DataValues, LastValue;
    var n := |g| - 1;
    assert g == g[..n] + [g[n]];
    DataValuesSnoc(g[..n], g[n]);
    LastValueSnoc(g[..n], g[n], name);
    FieldOf(g[n], names[n], values[n], name);
    FieldOf(g[n], names[n], values[n], "data");
  }

  lemma GroupReads(n: nat, i: string, bad: string, e: string, d: string, d': string)
    ensures Reads(GroupOf(n, i, bad, e, d, d'), ["retry", "id", "id", "event", "data", "data"],
            [Decimal(n), i, bad, e, d, d'])
    ensures forall k :: 0 <= k < 6 ==> GroupOf(n, i, bad, e, d, d')[k] != ""
  {
    hide Parse, Decimal, IndexOf;
    FieldLine("retry", Decimal(n));
    FieldLine("id", i);
    FieldLine("id", bad);
    FieldLine("event", e);
    FieldLine("data", d);
    FieldLine("data", d');
  }

  /** What the six lines say about one name. */
  lemma GroupSaysOf(g: seq<string>, v: seq<string>, name: string)
    requires Reads(g, ["retry", "id", "id", "event", "data", "data"], v) && '\0' !in v[1] && '\0' in v[2]
    ensures DataValues(g) == [v[4]] + [v[5]]
    ensures name == "id" ==> LastValue(g, name) == Some(v[1])
    ensures name == "event" ==> LastValue(g, name) == Some(v[3])
    ensures name == "retry" && ParseInt64(v[0]).Some? ==> LastValue(g, name) == Some(v[0])
  {
    hide Parse, ParseInt64, DataValues, LastValue, Reads;
    NamesDiffer();
    var names := ["retry", "id", "id", "event", "data", "data"];
    ReadsLength(g, names, v);
    assert g[..5][..4] == g[..4] && g[..4][..3] == g[..3] && g[..3][..2] == g[..2] && g[..2][..1] == g[..1] &&
           g[..1][..0] == [];
    assert names[..5][..4] == names[..4] && names[..4][..3] == names[..3] && names[..3][..2] == names[..2]
           && names[..2][..1] == names[..1];
    assert v[..5][..4] == v[..4] && v[..4][..3] == v[..3] && v[..3][..2] == v[..2] && v[..2][..1] == v[..1];
    ReadsSnoc(g, names, v, name);
    ReadsSnoc(g[..5], names[..5], v[..5], name);
    ReadsSnoc(g[..4], names[..4], v[..4], name);
    ReadsSnoc(g[..3], names[..3], v[..3], name);
    ReadsSnoc(g[..2], names[..2], v[..2], name);
    ReadsSnoc(g[..1], names[..1], v[..1], name);
    NothingRead(false, "", 0);
    EmptyLast(name);
  }

  lemma ReadsLength(g: seq<string>, names: seq<string>, values: seq<string>)
    requires Reads(g, names, values)
    ensures |g| == |names| == |values|
  {
  }

  lemma GroupSays(n: nat, i: string, bad: string, e: string, d: string, d': string)
    requires n < 0x8000_0000_0000_0000 && '\0' !in i && '\0' in bad
    ensures var g := GroupOf(n, i, bad, e, d, d');
            && |g| == 6 && (forall k :: 0 <= k < 6 ==> g[k] != "")
            && DataValues(g) == [d] + [d'] && LastValue(g, "id") == Some(i) && LastValue(g, "event") == Some(e)
            && RetryOf(g) == Some(n)
  {
    hide Parse, Decimal, ParseInt64, Reads, DataValues, LastValue;
    GroupReads(n, i, bad, e, d, d');
    ParseInt64Of(n);
    var g := GroupOf(n, i, bad, e, d, d');
    var v := [Decimal(n), i, bad, e, d, d'];
    GroupSaysOf(g, v, "id");
    GroupSaysOf(g, v, "event");
    GroupSaysOf(g, v, "retry");
  }

  lemma EmptyLast(name: string)
    ensures LastValue([], name) == None
  {
  }

  /** From the lines to the event: whatever follows the empty line, the first call returns the event those six
      lines describe and leaves the rest. */
  lemma EventOfLines(n: nat, i: string, bad: string, e: string, d: string, d': string, rest: seq<string>, failed: bool)
    requires n < 0x8000_0000_0000_0000 && '\0' !in i && '\0' in bad
    ensures var lines := GroupOf(n, i, bad, e, d, d') + [""] + rest;
            && NextOf(lines, failed) == Got(Event(i, e, d + "\n" + d', n))
            && lines[Consumed(lines)..] == rest
  {
    hide DataValues, LastValue, RetryOf, EndOf, Parse, Decimal, GroupOf;
    GroupSays(n, i, bad, e, d, d');
    var g := GroupOf(n, i, bad, e, d, d');
    var lines := g + [""] + rest;
    assert lines[..6] == g && lines[6] == "" && lines[..7] == g + [""] && lines[7..] == rest;
    EndIsFirst(lines, false, 7);
    ParseFacts("");
    DataValuesSnoc(g, "");
    LastValueSnoc(g, "", "id");
    LastValueSnoc(g, "", "event");
    LastValueSnoc(g, "", "retry");
    RetryFrom(g);
    RetryFrom(g + [""]);
    JoinOfTwo(d, d');
    assert [d] + [d'] == [d, d'] && DataValues(g) + [] == DataValues(g);
    assert EventOf(g + [""]) == Event(i, e, d + "\n" + d', n);
  }

  lemma RetryFrom(lines: seq<string>)
    ensures RetryOf(lines) == match LastValue(lines, "retry") case None => None case Some(v) => ParseInt64(v)
  {
  }

  lemma JoinOfTwo(d: string, d': string)
    ensures Join([d, d'], '\n') == d + "\n" + d'
  {
    assert [d, d'][1..] == [d'];
  }

  // ---- The dispatch loop -------------------------------------------------------------------------------------

  /** Whether the dispatcher's loop is still running after `n` turns without a cancellation, when its channel
      takes `room` more frames. It leaves on an error and on a failed write, and goes on when there was no
      event. */
  function Running(lines: seq<string>, failed: bool, room: nat, n: nat): bool {
    if n == 0 then true
    else match NextOf(lines, failed)
      case Broken => false
      case Nothing => Running(lines[Consumed(lines)..], failed, room, n - 1)
      case Got(_) => room > 0 && Running(lines[Consumed(lines)..], failed, room - 1, n - 1)
  }

  lemma RunningStep(lines: seq<string>, failed: bool, room: nat, n: nat)
    ensures n == 0 ==> Running(lines, failed, room, n)
    ensures n > 0 && NextOf(lines, failed).Broken? ==> !Running(lines, failed, room, n)
    ensures n > 0 && NextOf(lines, failed).Nothing? ==>
              (Running(lines, failed, room, n) <==> Running(lines[Consumed(lines)..], failed, room, n - 1))
    ensures n > 0 && NextOf(lines, failed).Got? ==>
              (Running(lines, failed, room, n) <==>
               room > 0 && Running(lines[Consumed(lines)..], failed, room - 1, n - 1))
  {
    hide NextOf, Consumed;
  }

  lemma {:induction false} RunsOn(lines: seq<string>, room: nat, n: nat)
    requires |Events(lines, false)| <= room
    ensures Running(lines, false, room, n)
    decreases n
  {
    hide EventOf, DataValues, Consumed, NextOf, EndOf, Events, Running;
    if n == 0 {
      RunningStep(lines, false, room, n);
    } else {
      NextIsFirst(lines, false);
      RunningStep(lines, false, room, n);
      var rest := lines[Consumed(lines)..];
      if NextOf(lines, false).Got? {
        RunsOn(rest, room - 1, n - 1);
      } else {
        NothingRead(false, "", 0);
        RunsOn(rest, room, n - 1);
      }
    }
  }

  lemma {:induction false} RunsOut(lines: seq<string>, failed: bool, room: nat) returns (n: nat)
    requires failed || |Events(lines, failed)| > room
    ensures !Running(lines, failed, room, n)
    decreases |lines|
  {
    hide EventOf, DataValues, Consumed, NextOf, EndOf, Events, Running;
    NextIsFirst(lines, failed);
    if NextOf(lines, failed).Got? && room > 0 {
      n := RunsOut(lines[Consumed(lines)..], failed, room - 1);
      n := n + 1;
      RunningStep(lines, failed, room, n);
    } else {
      n := 1;
      RunningStep(lines, failed, room, n);
    }
  }

  /** Without a cancellation the dispatcher stops if and only if the scanner fails or its channel is closed
      before the last event is written: a stream that simply ends is polled for ever and never gets its end
      frame. */
  lemma DispatchEndsIff(lines: seq<string>, failed: bool, room: nat)
    ensures (exists n: nat :: !Running(lines, failed, room, n)) <==> failed || |Events(lines, failed)| > room
  {
    hide Running, Events;
    if failed || |Events(lines, failed)| > room {
      var n := RunsOut(lines, failed, room);
    } else {
      forall n: nat
        ensures Running(lines, failed, room, n)
      {
        RunsOn(lines, room, n);
      }
    }
  }
}
