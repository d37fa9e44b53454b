/** One HTTP request as its client sees it: the frames that the dispatcher writes for every possible
    course of the body reads and of the output channel. */
module ResponseStream {
  import opened FrameCodec
  import opened Text

  /** What one turn of the body loop meets. `Aborted` finds the request cancelled before reading,
      `CancelledDuring` finds it cancelled after a read, `Broke` is a read error other than end of file.
      A read may return bytes together with any of these. */
  datatype Read =
    | Aborted
    | CancelledDuring(bytes: Bytes)
    | Broke(bytes: Bytes, status: int, message: Bytes)
    | Eof(bytes: Bytes)
    | Chunk(bytes: Bytes)

  /** How the request itself went. */
  datatype Reply =
    | Failed(status: int, summary: Bytes, detail: Bytes)
    | Arrived(status: int, url: Bytes, headers: seq<Header>)

  /** Size of the read buffer. */
  const BUFFER: nat := 8192

  const ARROW: Bytes := [45, 62, 32, 10]

  predicate Last(r: Read) {
    !r.Chunk?
  }

  // ---- What the frames should be ---------------------------------------------------------------------

  /** The data frame of one read: none when it returned nothing. */
  function Chunked(id: Bytes, bytes: Bytes): seq<Frame> {
    if |bytes| > 0 then [Data(id, bytes)] else []
  }

  /** The frames of one turn. */
  function TurnFrames(id: Bytes, r: Read): seq<Frame> {
    match r
    case Aborted => []
    case CancelledDuring(_) => []
    case Broke(_, status, message) => [Error(id, status, message)]
    case Eof(bytes) => Chunked(id, bytes)
    case Chunk(bytes) => Chunked(id, bytes)
  }

  /** The frames after the response frame. A run that has not met a last turn is still going on. */
  function BodyFrames(id: Bytes, turns: seq<Read>): (fs: seq<Frame>) {
    if turns == [] then []
    else TurnFrames(id, turns[0]) + if Last(turns[0]) then [End(id)] else BodyFrames(id, turns[1..])
  }

  function AllFrames(id: Bytes, reply: Reply, turns: seq<Read>): (fs: seq<Frame>) {
    match reply
    case Failed(status, summary, detail) => [Error(id, status, summary + ARROW + detail)]
    case Arrived(status, url, headers) => [Response(id, status, url, headers)] + BodyFrames(id, turns)
  }

  // ---- The dispatcher --------------------------------------------------------------------------------

  /** A channel that takes `room` more frames before its reader goes away. */
  class Channel {
    var frames: seq<Frame>
    var room: nat

    constructor (room: nat)
      ensures frames == [] && this.room == room
    {
      this.frames, this.room := [], room;
    }

    /** `safeChannelWriter.write`. */
    method Write(f: Frame) returns (ok: bool)
      modifies this
      ensures ok == (old(room) > 0)
      ensures ok ==> frames == old(frames) + [f] && room == old(room) - 1
      ensures !ok ==> frames == old(frames) && room == 0
    {
      ok := room > 0;
      if ok {
        frames, room := frames + [f], room - 1;
      }
    }

    /** `dispatcherAsync`: the frames written are the intended ones, cut off where the channel stopped
        taking them. */
    method Dispatch(id: Bytes, reply: Reply, turns: seq<Read>)
      modifies this
      ensures frames == old(frames) + Cut(AllFrames(id, reply, turns), old(room))
    {
      hide BodyFrames;
      if reply.Failed? {
        var sent := Write(Error(id, reply.status, reply.summary + ARROW + reply.detail));
        return;
      }
      var ok := Write(Response(id, reply.status, reply.url, reply.headers));
      if !ok {
        return;
      }
      StreamBody(id, turns);
    }

    /** What the loop writes in one turn. */
    method WriteTurn(id: Bytes, r: Read) returns (ok: bool)
      modifies this
      ensures ok ==> frames == old(frames) + TurnFrames(id, r) && |TurnFrames(id, r)| + room == old(room)
      ensures !ok ==> frames == old(frames) && old(room) == 0 == room
    {
      ok := true;
      if r.Aborted? || r.CancelledDuring? {
        return;
      }
      if r.Broke? {
        ok := Write(Error(id, r.status, r.message));
        return;
      }
      if |r.bytes| > 0 {
        ok := Write(Data(id, r.bytes));
      }
    }

    /** The body loop and the end frame. */
    method StreamBody(id: Bytes, turns: seq<Read>)
      modifies this
      ensures frames == old(frames) + Cut(BodyFrames(id, turns), old(room))
    {
      hide BodyFrames, TurnFrames, Cut;
      var n := 0;
      ghost var sent, rest: seq<Frame> := [], BodyFrames(id, turns);
      assert turns[0..] == turns;
      while n < |turns|
        invariant 0 <= n <= |turns|
        invariant frames == old(frames) + sent && |sent| + room == old(room)
        invariant sent + rest == BodyFrames(id, turns) && rest == BodyFrames(id, turns[n..])
      {
        BodyFramesStep(id, turns, n);
        var ok := WriteTurn(id, turns[n]);
        if !ok {
          CutFacts(sent, rest, End(id), old(room));
          return;
        }
        ghost var now := TurnFrames(id, turns[n]);
        if Last(turns[n]) {
          Assoc(old(frames), sent, now);
          Assoc(sent, now, [End(id)]);
          CutFacts(sent + now, [], End(id), old(room));
          ok := Write(End(id));
          Assoc(old(frames), sent + now, [End(id)]);
          return;
        }
        Assoc(old(frames), sent, now);
        Assoc(sent, now, BodyFrames(id, turns[n + 1..]));
        sent, rest := sent + now, BodyFrames(id, turns[n + 1..]);
        n := n + 1;
      }
      BodyFramesStep(id, turns, n);
      CutFacts(sent, [], End(id), old(room));
      assert n == |turns| && sent + [] == sent;
    }
  }

  lemma CutFacts(sent: seq<Frame>, rest: seq<Frame>, f: Frame, room: nat)
    ensures Cut(sent + rest, |sent|) == sent
    ensures |sent| <= room ==> Cut(sent, room) == sent
    ensures |sent| <= room ==> Cut(sent + [f], room) == if |sent| < room then sent + [f] else sent
  {
  }

  lemma Assoc(a: seq<Frame>, b: seq<Frame>, c: seq<Frame>)
    ensures a + b + c == a + (b + c)
  {
  }

  /** The part of the frames that a channel with that much room takes. */
  function Cut(fs: seq<Frame>, room: nat): seq<Frame> {
    if room < |fs| then fs[..room] else fs
  }

  lemma BodyFramesStep(id: Bytes, turns: seq<Read>, n: nat)
    requires n <= |turns|
    ensures n == |turns| ==> BodyFrames(id, turns[n..]) == []
    ensures n < |turns| ==>
              BodyFrames(id, turns[n..]) == TurnFrames(id, turns[n]) + if Last(turns[n]) then [End(id)]
                  else BodyFrames(id, turns[n + 1..])
  {
    if n < |turns| {
      assert turns[n..][0] == turns[n] && turns[n..][1..] == turns[n + 1..];
    }
  }

  // ---- Grammar ---------------------------------------------------------------------------------------

  /** Data frames only, none of them empty or larger than the read buffer. */
  predicate AllData(id: Bytes, fs: seq<Frame>) {
    forall i :: 0 <= i < |fs| ==> fs[i].Data? && fs[i].id == id && 0 < |fs[i].payload| <= BUFFER
  }

  predicate Buffered(turns: seq<Read>) {
    forall i :: 0 <= i < |turns| ==> turns[i].Aborted? || |turns[i].bytes| <= BUFFER
  }

  predicate Ends(turns: seq<Read>) {
    exists i :: 0 <= i < |turns| && Last(turns[i])
  }

  /** After the response: data frames, then (once the loop is left) at most one error, then the end. */
  predicate BodyShape(id: Bytes, fs: seq<Frame>, ended: bool) {
    if !ended then AllData(id, fs)
    else
      fs != [] && fs[|fs| - 1] == End(id) &&
      (AllData(id, fs[..|fs| - 1]) ||
       (|fs| >= 2 && fs[|fs| - 2].Error? && fs[|fs| - 2].id == id && AllData(id, fs[..|fs| - 2])))
  }

  lemma {:induction false} BodyGrammar(id: Bytes, turns: seq<Read>)
    requires Buffered(turns)
    ensures BodyShape(id, BodyFrames(id, turns), Ends(turns))
  {
    if turns != [] && !Last(turns[0]) {
      BodyGrammar(id, turns[1..]);
      assert Ends(turns) == Ends(turns[1..]) by {
        if Ends(turns[1..]) {
          var i :| 0 <= i < |turns[1..]| && Last(turns[1..][i]);
          assert Last(turns[i + 1]);
        }
        if Ends(turns) {
          var i :| 0 <= i < |turns| && Last(turns[i]);
          assert Last(turns[1..][i - 1]);
        }
      }
      var d, fs := TurnFrames(id, turns[0]), BodyFrames(id, turns[1..]);
      PrefixData(id, d, fs, Ends(turns));
    }
  }

  lemma PrefixData(id: Bytes, d: seq<Frame>, fs: seq<Frame>, ended: bool)
    requires AllData(id, d) && BodyShape(id, fs, ended)
    ensures BodyShape(id, d + fs, ended)
  {
    if ended {
      assert (d + fs)[..|d + fs| - 1] == d + fs[..|fs| - 1];
      if |fs| >= 2 {
        assert (d + fs)[..|d + fs| - 2] == d + fs[..|fs| - 2];
      }
    }
  }

  /** A finished dispatch writes one error, or a response, data frames, an optional error and the end. */
  lemma StreamGrammar(id: Bytes, reply: Reply, turns: seq<Read>)
    requires Buffered(turns)
    ensures var fs := AllFrames(id, reply, turns);
            if reply.Failed? then |fs| == 1 && fs[0].Error? && fs[0].id == id
            else fs[0] == Response(id, reply.status, reply.url, reply.headers) && BodyShape(id, fs[1..], Ends(turns))
  {
    hide BodyFrames, BodyShape, Ends;
    if reply.Arrived? {
      BodyGrammar(id, turns);
      assert AllFrames(id, reply, turns)[1..] == BodyFrames(id, turns);
    }
  }

  /** Turn `n` is the one that ends the loop. */
  predicate LeavesAt(turns: seq<Read>, n: nat) {
    n < |turns| && Last(turns[n]) && forall i :: 0 <= i < n ==> turns[i].Chunk?
  }

  // ---- The frames, told by the reads --------------------------------------------------------------------

  /** The bytes of each read that is passed on: those of chunks and of the end of file, empty ones left out. */
  function Passed(turns: seq<Read>): seq<Bytes> {
    if turns == [] then []
    else
      var r := turns[0];
      (if (r.Chunk? || r.Eof?) && r.bytes != [] then [r.bytes] else []) + if Last(r) then [] else Passed(turns[1..])
  }

  function DataFrames(id: Bytes, passed: seq<Bytes>): (fs: seq<Frame>)
    ensures |fs| == |passed| && forall i :: 0 <= i < |fs| ==> fs[i] == Data(id, passed[i])
  {
    seq(|passed|, i requires 0 <= i < |passed| => Data(id, passed[i]))
  }

  /** How the loop closes at the turn that ends it: with that turn's own error, if it is a read error, and the
      end frame. */
  function Closing(id: Bytes, r: Read): seq<Frame> {
    match r
    case Broke(_, status, message) => [Error(id, status, message)] + [End(id)]
    case _ => [End(id)]
  }

  lemma DataFramesConcat(id: Bytes, a: seq<Bytes>, b: seq<Bytes>)
    ensures DataFrames(id, a + b) == DataFrames(id, a) + DataFrames(id, b)
  {
  }

  lemma TurnIsData(id: Bytes, r: Read)
    ensures !r.Broke? ==> TurnFrames(id, r) == DataFrames(id, Passed([r]))
    ensures r.Broke? ==> TurnFrames(id, r) == [Error(id, r.status, r.message)] && Passed([r]) == []
    ensures Last(r) ==> TurnFrames(id, r) + [End(id)] == DataFrames(id, Passed([r])) + Closing(id, r)
    ensures DataFrames(id, []) == []
  {
    PassedOne(r);
  }

  lemma PassedCons(turns: seq<Read>)
    requires turns != []
    ensures Passed(turns) == Passed([turns[0]]) + if Last(turns[0]) then [] else Passed(turns[1..])
  {
    PassedOne(turns[0]);
  }

  lemma LeavesLater(turns: seq<Read>, n: nat)
    requires turns != [] && turns[0].Chunk?
    ensures LeavesAt(turns, n) <==> n > 0 && LeavesAt(turns[1..], n - 1)
    ensures Ends(turns) <==> Ends(turns[1..])
  {
    var rest := turns[1..];
    assert forall i :: 0 <= i < |rest| ==> rest[i] == turns[i + 1];
    if n > 0 && LeavesAt(rest, n - 1) {
      forall i | 0 <= i < n ensures turns[i].Chunk? {
        assert i > 0 ==> rest[i - 1].Chunk?;
      }
    }
    if i :| 0 <= i < |turns| && Last(turns[i]) {
      assert Last(rest[i - 1]);
    }
    if i :| 0 <= i < |rest| && Last(rest[i]) {
      assert Last(turns[i + 1]);
    }
  }

  /** One data frame per read that brought bytes, in order, and, once a turn ends the loop, its closing. */
  lemma {:induction false} FramesOfReads(id: Bytes, turns: seq<Read>, n: nat)
    ensures LeavesAt(turns, n) ==> BodyFrames(id, turns) == DataFrames(id, Passed(turns)) + Closing(id, turns[n])
    ensures !Ends(turns) ==> BodyFrames(id, turns) == DataFrames(id, Passed(turns))
    decreases |turns|
  {
    hide TurnFrames, DataFrames, Passed, Closing, LeavesAt, Ends;
    LeavesFirst(turns, n);
    if turns == [] {
      PassedNothing(id);
    } else {
      TurnIsData(id, turns[0]);
      PassedCons(turns);
      var now := DataFrames(id, Passed([turns[0]]));
      if Last(turns[0]) {
        assert Passed([turns[0]]) + [] == Passed([turns[0]]);
      } else {
        LeavesLater(turns, n);
        FramesOfReads(id, turns[1..], if n > 0 then n - 1 else 0);
        DataFramesConcat(id, Passed([turns[0]]), Passed(turns[1..]));
        if LeavesAt(turns, n) {
          Assoc(now, DataFrames(id, Passed(turns[1..])), Closing(id, turns[n]));
        }
      }
    }
  }

  lemma LeavesFirst(turns: seq<Read>, n: nat)
    ensures turns == [] ==> !LeavesAt(turns, n)
    ensures turns != [] && Last(turns[0]) ==> Ends(turns) && (LeavesAt(turns, n) ==> n == 0)
    ensures LeavesAt(turns, n) ==> n < |turns|
  {
  }

  lemma PassedNothing(id: Bytes)
    ensures Passed([]) == [] && DataFrames(id, []) == []
  {
  }

  lemma PassedOne(r: Read)
    ensures Passed([r]) == if (r.Chunk? || r.Eof?) && r.bytes != [] then [r.bytes] else []
  {
    assert [r][1..] == [];
  }

  /** The first frame: the response as it arrived, or the error with its summary, the arrow and its detail. */
  lemma FirstFrame(id: Bytes, reply: Reply, turns: seq<Read>)
    ensures reply.Failed? ==>
              AllFrames(id, reply, turns) == [Error(id, reply.status, reply.summary + Ascii("-> \n") + reply.detail)]
    ensures reply.Arrived? ==>
              AllFrames(id, reply, turns) ==
              [Response(id, reply.status, reply.url, reply.headers)] + BodyFrames(id, turns)
  {
    assert ARROW == Ascii("-> \n");
  }

  // ---- Conservation ------------------------------------------------------------------------------------

  function BytesOf(r: Read): Bytes {
    if r.Aborted? then [] else r.bytes
  }

  /** All bytes the body reader returned, up to and including the last turn. */
  function BytesRead(turns: seq<Read>): Bytes {
    if turns == [] then []
    else BytesOf(turns[0]) + if Last(turns[0]) then [] else BytesRead(turns[1..])
  }

  /** Bytes that came together with an error or a cancellation: the loop leaves without sending them. */
  function Dropped(turns: seq<Read>): Bytes {
    if turns == [] then []
    else if !Last(turns[0]) then Dropped(turns[1..])
    else if turns[0].Eof? then [] else BytesOf(turns[0])
  }

  /** What the client can put together from the data frames. */
  function Payload(fs: seq<Frame>): Bytes {
    if fs == [] then [] else (if fs[0].Data? then fs[0].payload else []) + Payload(fs[1..])
  }

  lemma {:induction false} PayloadConcat(a: seq<Frame>, b: seq<Frame>)
    ensures Payload(a + b) == Payload(a) + Payload(b)
  {
    if a == [] {
      assert a + b == b;
    } else {
      assert (a + b)[1..] == a[1..] + b;
      PayloadConcat(a[1..], b);
    }
  }

  lemma PayloadOfTurn(id: Bytes, r: Read)
    ensures Payload(TurnFrames(id, r)) == if r.Chunk? || r.Eof? then r.bytes else []
    ensures Payload([]) == [] && forall f: Frame :: !f.Data? ==> Payload([f]) == []
  {
  }

  /** Every byte read is sent once and in order, or dropped at the very end. */
  lemma {:induction false} BodyConserved(id: Bytes, turns: seq<Read>)
    ensures Payload(BodyFrames(id, turns)) + Dropped(turns) == BytesRead(turns)
  {
    hide Payload, TurnFrames;
    if turns == [] {
      PayloadOfTurn(id, Aborted);
    } else {
      PayloadOfTurn(id, turns[0]);
      if Last(turns[0]) {
        PayloadConcat(TurnFrames(id, turns[0]), [End(id)]);
      } else {
        PayloadConcat(TurnFrames(id, turns[0]), BodyFrames(id, turns[1..]));
        BodyConserved(id, turns[1..]);
      }
    }
  }

  /** The turn that ends the loop, if there is one yet, is end of file or brings no bytes. */
  predicate EndsCleanly(turns: seq<Read>) {
    forall n :: 0 <= n < |turns| && LeavesAt(turns, n) ==> turns[n].Eof? || BytesOf(turns[n]) == []
  }

  lemma {:induction false} DroppedIff(turns: seq<Read>)
    ensures Dropped(turns) == [] <==> EndsCleanly(turns)
  {
    if turns != [] {
      var rest := turns[1..];
      if Last(turns[0]) {
        assert LeavesAt(turns, 0);
      } else {
        DroppedIff(rest);
        assert forall n :: 0 <= n < |rest| ==> (LeavesAt(rest, n) <==> LeavesAt(turns, n + 1));
        if EndsCleanly(turns) {
          assert forall n :: 0 <= n < |rest| && LeavesAt(rest, n) ==> turns[n + 1].Eof? || BytesOf(turns[n + 1]) == [];
        } else {
          var n :| 0 <= n < |turns| && LeavesAt(turns, n) && !(turns[n].Eof? || BytesOf(turns[n]) == []);
          assert LeavesAt(rest, n - 1);
        }
      }
    }
  }

  /** The client gets exactly the bytes read if and only if the turn that ends the loop is end of file or
      brings no bytes: bytes returned with an error or a cancellation never reach it. */
  lemma BodyCompleteIff(id: Bytes, reply: Reply, turns: seq<Read>)
    requires reply.Arrived?
    ensures Payload(AllFrames(id, reply, turns)) == BytesRead(turns) <==> EndsCleanly(turns)
  {
    hide Payload, BodyFrames, Dropped, BytesRead, EndsCleanly;
    var head := [Response(id, reply.status, reply.url, reply.headers)];
    PayloadConcat(head, BodyFrames(id, turns));
    PayloadOfTurn(id, Aborted);
    assert head == [head[0]];
    BodyConserved(id, turns);
    DroppedIff(turns);
    assert |Payload(BodyFrames(id, turns))| + |Dropped(turns)| == |BytesRead(turns)|;
  }

  /** For instance a read that returns its last bytes together with an error. */
  lemma LastBytesLost(id: Bytes, reply: Reply, sent: Bytes, lost: Bytes, status: int, message: Bytes)
    requires reply.Arrived? && lost != []
    ensures var turns := [Chunk(sent), Broke(lost, status, message)];
            Payload(AllFrames(id, reply, turns)) != BytesRead(turns)
  {
    hide Payload, BodyFrames, BytesRead;
    var turns := [Chunk(sent), Broke(lost, status, message)];
    BodyCompleteIff(id, reply, turns);
    assert LeavesAt(turns, 1);
  }

  /** End of file drops nothing. */
  lemma {:induction false} EofDropsNothing(turns: seq<Read>, n: nat)
    requires n < |turns| && turns[n].Eof? && forall i :: 0 <= i < n ==> turns[i].Chunk?
    ensures Dropped(turns) == []
  {
    if n > 0 {
      EofDropsNothing(turns[1..], n - 1);
    }
  }

  /** Every frame of a dispatch can be decoded again, provided its id, its response and its error texts fit. */
  lemma StreamFits(id: Bytes, reply: Reply, turns: seq<Read>, i: nat)
    requires Buffered(turns) && Fits(AllFrames(id, reply, [])[0])
    requires forall k :: 0 <= k < |turns| && turns[k].Broke? ==> Fits(Error(id, turns[k].status, turns[k].message))
    requires i < |AllFrames(id, reply, turns)|
    ensures Decode(Encode(AllFrames(id, reply, turns)[i])) == Some(AllFrames(id, reply, turns)[i])
  {
    hide Encode, Decode, BodyFrames;
    assert AllFrames(id, reply, turns)[0] == AllFrames(id, reply, [])[0];
    BodyFits(id, turns);
    RoundTripIff(AllFrames(id, reply, turns)[i]);
  }

  lemma {:induction false} BodyFits(id: Bytes, turns: seq<Read>)
    requires |id| < 0x1_0000 && Buffered(turns)
    requires forall i :: 0 <= i < |turns| && turns[i].Broke? ==> Fits(Error(id, turns[i].status, turns[i].message))
    ensures forall i :: 0 <= i < |BodyFrames(id, turns)| ==> Fits(BodyFrames(id, turns)[i])
  {
    if turns != [] && !Last(turns[0]) {
      BodyFits(id, turns[1..]);
    }
  }
}
