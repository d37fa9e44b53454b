/** The WebSocket dispatcher: a main goroutine, a reader and a writer share the connection state, the
    command channel and the output channel; cancellation, commands and closing of the output come from
    outside. Every interleaving is a sequence of the actions below. */
module WebSocket {
  import opened Text
  import opened Machine
  import opened StableSort

  datatype Frame =
    | Response
    | Opened
    | Message(data: string)
    | Close(code: nat, reason: string)
    | Error(message: string)
    | End

  datatype Command = Send(data: string) | CloseWith(code: nat, reason: string) | Ping(data: string) | Pong(data: string)

  /** The main goroutine. `Closing` is about to close the close channel, `Awaiting` waits for the flagged
      goroutines, `Leaving` runs the deferred clean-up. */
  datatype Main =
    | Connecting
    | Refused(message: string)
    | Registering
    | Responding
    | Opening
    | StartingReader
    | StartingWriter
    | Selecting
    | Closing(read: bool, write: bool)
    | Awaiting(read: bool, write: bool)
    | Marking
    | Ending
    | Leaving(connected: bool)
    | Finished(connected: bool)

  /** The reader: `Forward` and `Report` hold a frame about to be written. */
  datatype Reader = ReaderOff | Reading | Forward(data: string) | Report(frame: Frame) | ReadDone

  /** The writer: `Complain` holds the error frame of a failed send; a close command first marks the
      connection and then announces it. */
  datatype Writer = WriterOff | Choosing | Complain(message: string) | MarkClosing(code: nat, reason: string)
                  | Announce(code: nat, reason: string) | WriteDone

  /** The output channel: a write waits for room until the client reads; once closed, writes are dropped. */
  datatype Output = Output(frames: seq<Frame>, open: bool, room: nat)

  /** `ready` is ReadyState (0 stands for no connection object yet); `closes` counts closings of the close
      channel; `accepted`, `executed` and `received` are histories. */
  datatype Shared = Shared(
    ready: nat,
    closes: nat,
    cancelled: bool,
    registered: bool,
    commands: seq<Command>,
    accepted: seq<Command>,
    executed: seq<Command>,
    received: seq<string>
  )

  datatype State = State(main: Main, reader: Reader, writer: Writer, out: Output, c: Shared)

  datatype Action =
    | Connect(ok: bool, reason: string)
    | Advance
    | SeeRead
    | SeeWrite
    | SeeCancel
    | Receive(data: string)
    | PeerCloses
    | ReadFails(error: string)
    | ReaderEmits
    | Take(sent: bool, failure: string)
    | SeeClosed
    | WriterSeesCancel
    | WriterMoves
    | Cancel
    | Post(command: Command)
    | CloseOutput
    | ClientReads

  const START: State :=
    State(Connecting, ReaderOff, WriterOff, Output([], true, 0), Shared(0, 0, false, false, [], [], [], []))

  const CAPACITY: nat := 100

  function Emit(out: Output, f: Frame): Output {
    if out.open then Output(out.frames + [f], true, if out.room > 0 then out.room - 1 else 0) else out
  }

  /** A write would wait. */
  predicate Full(out: Output) {
    out.open && out.room == 0
  }

  /** The steps that write a frame. */
  predicate Writes(s: State, a: Action) {
    || (a.Advance? && (s.main.Refused? || s.main.Responding? || s.main.Opening? || s.main.Ending?))
    || a.ReaderEmits?
    || (a.WriterMoves? && (s.writer.Complain? || s.writer.Announce?))
  }

  function Step(s: State, a: Action): (t: Option<State>)
  {
    if Writes(s, a) && Full(s.out) then None
    else if a.Connect? || a.Advance? || a.SeeRead? || a.SeeWrite? || a.SeeCancel? then MainStep(s, a)
    else if a.Receive? || a.PeerCloses? || a.ReadFails? || a.ReaderEmits? then ReaderStep(s, a)
    else if a.Take? || a.SeeClosed? || a.WriterSeesCancel? || a.WriterMoves? then WriterStep(s, a)
    else OutsideStep(s, a)
  }

  function MainStep(s: State, a: Action): (t: Option<State>)
  {
    match (s.main, a)
    case (Connecting, Connect(ok, reason)) => Some(s.(main := if ok then Registering else Refused(reason)))
    case (Refused(message), Advance) => Some(s.(main := Leaving(false), out := Emit(s.out, Error(message))))
    case (Registering, Advance) => Some(s.(main := Responding, c := s.c.(ready := 1, registered := true)))
    case (Responding, Advance) => Some(s.(main := Opening, out := Emit(s.out, Response)))
    case (Opening, Advance) => Some(s.(main := StartingReader, out := Emit(s.out, Opened)))
    case (StartingReader, Advance) => Some(s.(main := StartingWriter, reader := Reading))
    case (StartingWriter, Advance) => Some(s.(main := Selecting, writer := Choosing))
    case (Selecting, SeeRead) => if s.reader.ReadDone? then Some(s.(main := Closing(false, true))) else None
    case (Selecting, SeeWrite) => if s.writer.WriteDone? then Some(s.(main := Closing(true, false))) else None
    case (Selecting, SeeCancel) => if s.c.cancelled then Some(s.(main := Closing(true, true))) else None
    case (Closing(r, w), Advance) => Some(s.(main := Awaiting(r, w), c := s.c.(closes := s.c.closes + 1)))
    case (Awaiting(r, w), Advance) =>
      if r then if s.reader.ReadDone? then Some(s.(main := Awaiting(false, w))) else None
      else if w then if s.writer.WriteDone? then Some(s.(main := Awaiting(false, false))) else None
      else Some(s.(main := Marking))
    case (Marking, Advance) => Some(s.(main := Ending, c := s.c.(ready := 3)))
    case (Ending, Advance) => Some(s.(main := Leaving(true), out := Emit(s.out, End)))
    case (Leaving(connected), Advance) => Some(s.(main := Finished(connected), c := s.c.(registered := false)))
    case _ => None
  }

  function ReaderStep(s: State, a: Action): (t: Option<State>)
  {
    match (s.reader, a)
    case (Reading, Receive(data)) => Some(s.(reader := Forward(data), c := s.c.(received := s.c.received + [data])))
    case (Reading, PeerCloses) => Some(s.(reader := Report(Close(1000, "Connection closed normally"))))
    case (Reading, ReadFails(error)) => Some(s.(reader := Report(Error(error))))
    case (Forward(data), ReaderEmits) => Some(s.(reader := Reading, out := Emit(s.out, Message(data))))
    case (Report(frame), ReaderEmits) => Some(s.(reader := ReadDone, out := Emit(s.out, frame)))
    case _ => None
  }

  function WriterStep(s: State, a: Action): (t: Option<State>)
  {
    match (s.writer, a)
    case (Choosing, Take(sent, failure)) =>
      if s.c.commands == [] then None
      else
        var cmd := s.c.commands[0];
        Some(s.(c := s.c.(commands := s.c.commands[1..], executed := s.c.executed + [cmd]),
                writer := if cmd.CloseWith? then MarkClosing(if cmd.code == 0 then 1000 else cmd.code, cmd.reason)
                          else if cmd.Send? && !sent then Complain(failure)
                          else Choosing))
    case (Choosing, SeeClosed) => if s.c.closes > 0 then Some(s.(writer := WriteDone)) else None
    case (Choosing, WriterSeesCancel) => if s.c.cancelled then Some(s.(writer := WriteDone)) else None
    case (Complain(message), WriterMoves) => Some(s.(writer := Choosing, out := Emit(s.out, Error(message))))
    case (MarkClosing(code, reason), WriterMoves) => Some(s.(writer := Announce(code, reason), c := s.c.(ready := 2)))
    case (Announce(code, reason), WriterMoves) => Some(s.(writer := WriteDone, out := Emit(s.out, Close(code, reason))))
    case _ => None
  }

  /** The client process: cancels, posts commands (dropped when the channel is full) and may go away. */
  function OutsideStep(s: State, a: Action): (t: Option<State>)
  {
    match a
    case Cancel => Some(s.(c := s.c.(cancelled := true)))
    case Post(cmd) =>
      if !s.c.registered then None
      else if |s.c.commands| >= CAPACITY then Some(s)
      else Some(s.(c := s.c.(commands := s.c.commands + [cmd], accepted := s.c.accepted + [cmd])))
    case CloseOutput => Some(s.(out := s.out.(open := false)))
    case ClientReads => Some(s.(out := s.out.(room := s.out.room + 1)))
    case _ => None
  }

  // ---- Where the goroutines stand ------------------------------------------------------------------

  /** How far the main goroutine has come: 0 before the response frame, then one more per stage. */
  function Stage(m: Main): nat {
    match m
    case Connecting => 0 case Refused(_) => 0 case Registering => 0 case Responding => 0
    case Opening => 1
    case StartingReader => 2
    case StartingWriter => 3
    case Selecting => 4 case Closing(_, _) => 4
    case Awaiting(_, _) => 5
    case Marking => 6
    case Ending => 7
    case Leaving(connected) => if connected then 8 else 0
    case Finished(connected) => if connected then 8 else 0
  }

  /** Goroutines run only between their start and the end of the wait; the close channel is closed once,
      between the select and the wait. */
  predicate Placed(m: Main, r: Reader, w: Writer, closes: nat) {
    (r.ReaderOff? <==> Stage(m) < 3) &&
    (w.WriterOff? <==> Stage(m) < 4) &&
    closes == (if Stage(m) < 5 then 0 else 1) &&
    (m.Closing? || m.Awaiting? ==> (!m.read ==> r.ReadDone?) && (!m.write ==> w.WriteDone?)) &&
    (Stage(m) >= 6 ==> r.ReadDone? && w.WriteDone?)
  }

  /** ReadyState against the places of main and writer. */
  predicate Ready(m: Main, w: Writer, ready: nat) {
    (ready == 0 <==> m.Connecting? || m.Refused? || m.Registering? || m == Leaving(false) || m == Finished(false)) &&
    (ready == 3 <==> Stage(m) >= 7) &&
    (w.Announce? ==> ready == 2) &&
    ready <= 3
  }

  lemma StepPlaces(s: State, a: Action)
    requires Placed(s.main, s.reader, s.writer, s.c.closes) && Ready(s.main, s.writer, s.c.ready) && Step(s, a).Some?
    ensures var t := Step(s, a).value;
            Placed(t.main, t.reader, t.writer, t.c.closes) && Ready(t.main, t.writer, t.c.ready)
    ensures s.c.ready <= Step(s, a).value.c.ready
  {
    hide Emit, MainStep, WriterStep, Placed, Ready;
    if Step(s, a) == MainStep(s, a) {
      MainPlaces(s, a);
    } else if Step(s, a) == WriterStep(s, a) {
      WriterPlaces(s, a);
    } else {
      OthersPlace(s, a);
    }
  }

  lemma MainPlaces(s: State, a: Action)
    requires Placed(s.main, s.reader, s.writer, s.c.closes) && Ready(s.main, s.writer, s.c.ready) &&
             MainStep(s, a).Some?
    ensures var t := MainStep(s, a).value;
            Placed(t.main, t.reader, t.writer, t.c.closes) && Ready(t.main, t.writer, t.c.ready) &&
                s.c.ready <= t.c.ready
  {
    hide Emit;
  }

  lemma WriterPlaces(s: State, a: Action)
    requires Placed(s.main, s.reader, s.writer, s.c.closes) && Ready(s.main, s.writer, s.c.ready) &&
             WriterStep(s, a).Some?
    ensures var t := WriterStep(s, a).value;
            Placed(t.main, t.reader, t.writer, t.c.closes) && Ready(t.main, t.writer, t.c.ready) &&
                s.c.ready <= t.c.ready
  {
    hide Emit;
  }

  lemma OthersPlace(s: State, a: Action)
    requires Placed(s.main, s.reader, s.writer, s.c.closes) && Ready(s.main, s.writer, s.c.ready)
    requires Step(s, a).Some? && (Step(s, a) == ReaderStep(s, a) || Step(s, a) == OutsideStep(s, a))
    ensures var t := Step(s, a).value;
            Placed(t.main, t.reader, t.writer, t.c.closes) && Ready(t.main, t.writer, t.c.ready) &&
                s.c.ready <= t.c.ready
  {
    hide Emit, MainStep, WriterStep, Stage, Ready;
  }

  // ---- The frames ----------------------------------------------------------------------------------

  /** Frames that may follow the opening. */
  predicate Inner(f: Frame) {
    f.Message? || f.Close? || f.Error?
  }

  /** What the output may look like, given how far main has come. With the output closed it may stop
      anywhere. */
  predicate Framed(out: Output, m: Main) {
    var fs := out.frames;
    (Stage(m) == 0 && !m.Leaving? && !m.Finished? ==> fs == []) &&
    (Stage(m) == 0 && (m.Leaving? || m.Finished?) ==> |fs| <= 1 && forall i :: 0 <= i < |fs| ==> fs[i].Error?) &&
    (Stage(m) > 0 ==>
       Streamed(fs, Stage(m)) &&
       (out.open ==> |fs| >= Least(Stage(m)) && (Stage(m) == 8 ==> fs[|fs| - 1].End?)))
  }

  /** How many frames an open output carries at least. */
  function Least(stage: nat): nat {
    if stage < 2 then stage else if stage < 8 then 2 else 3
  }

  predicate Streamed(fs: seq<Frame>, stage: nat) {
    (forall i :: 0 <= i < |fs| ==> FrameAt(fs[i], i, |fs|, stage)) &&
    (stage < 3 ==> |fs| <= stage)
  }

  predicate FrameAt(f: Frame, i: nat, n: nat, stage: nat) {
    if i == 0 then f.Response? else if i == 1 then f.Opened? else Inner(f) || (f.End? && i == n - 1 && stage == 8)
  }

  predicate Pending(r: Reader) {
    r.Report? ==> Inner(r.frame)
  }

  lemma EmitsInner(out: Output, m: Main, f: Frame)
    requires Framed(out, m) && 3 <= Stage(m) < 8 && Inner(f)
    ensures Framed(Emit(out, f), m)
  {
    hide Stage;
  }

  /** Main's own frames, and its silent moves. */
  lemma MainFrames(s: State, a: Action)
    requires Framed(s.out, s.main) && MainStep(s, a).Some?
    ensures var t := MainStep(s, a).value; Framed(t.out, t.main) && (t.reader == s.reader || t.reader.Reading?)
  {
    hide FrameAt, Inner;
    var t := MainStep(s, a).value;
    if t.out == s.out {
      if Stage(s.main) > 0 {
        forall i | 0 <= i < |t.out.frames|
          ensures FrameAt(t.out.frames[i], i, |t.out.frames|, Stage(t.main))
        {
          assert FrameAt(s.out.frames[i], i, |s.out.frames|, Stage(s.main));
          FrameStays(s.out.frames[i], i, |s.out.frames|, Stage(s.main), |t.out.frames|, Stage(t.main));
        }
      }
    } else {
      MainEmits(s, a);
    }
  }

  /** A frame that fits still fits later, unless it was the end. */
  lemma FrameStays(f: Frame, i: nat, n: nat, stage: nat, n': nat, stage': nat)
    requires FrameAt(f, i, n, stage) && stage <= stage' <= 8 && (stage == 8 ==> n == n')
    ensures FrameAt(f, i, n', stage')
  {
  }

  lemma MainEmits(s: State, a: Action)
    requires Framed(s.out, s.main) && MainStep(s, a).Some? && MainStep(s, a).value.out != s.out
    ensures var t := MainStep(s, a).value; Framed(t.out, t.main)
  {
    hide FrameAt, Inner;
    var t := MainStep(s, a).value;
    var n := |s.out.frames|;
    assert s.out.open;
    if s.main.Ending? || s.main.Responding? || s.main.Opening? {
      forall i | 0 <= i < |t.out.frames|
        ensures FrameAt(t.out.frames[i], i, n + 1, Stage(t.main))
      {
        if i < n {
          FrameStays(s.out.frames[i], i, n, Stage(s.main), n + 1, Stage(t.main));
        } else {
          NewFrameFits(t.out.frames[n], n, Stage(t.main));
        }
      }
    }
  }

  lemma NewFrameFits(f: Frame, n: nat, stage: nat)
    requires (n == 0 && f.Response?) || (n == 1 && f.Opened?) || (n >= 2 && f.End? && stage == 8)
    ensures FrameAt(f, n, n + 1, stage)
  {
  }

  lemma StepFrames(s: State, a: Action)
    requires Placed(s.main, s.reader, s.writer, s.c.closes) && Framed(s.out, s.main) && Pending(s.reader) &&
             Step(s, a).Some?
    ensures var t := Step(s, a).value; Framed(t.out, t.main) && Pending(t.reader)
  {
    hide Framed, MainStep, Emit, Stage;
    var t := Step(s, a).value;
    if Step(s, a) == MainStep(s, a) {
      MainFrames(s, a);
    } else if a.CloseOutput? || a.ClientReads? {
      OutsideKeepsFramed(s.out, s.main);
    } else {
      if s.reader.Forward? { EmitsInner(s.out, s.main, Message(s.reader.data)); }
      if s.reader.Report? { EmitsInner(s.out, s.main, s.reader.frame); }
      if s.writer.Complain? { EmitsInner(s.out, s.main, Error(s.writer.message)); }
      if s.writer.Announce? { EmitsInner(s.out, s.main, Close(s.writer.code, s.writer.reason)); }
    }
  }

  lemma OutsideKeepsFramed(out: Output, m: Main)
    requires Framed(out, m)
    ensures Framed(out.(open := false), m) && Framed(out.(room := out.room + 1), m)
  {
  }

  // ---- Messages and commands -----------------------------------------------------------------------

  function MessagesOf(fs: seq<Frame>): (data: seq<string>) {
    if fs == [] then []
    else
      var last := fs[|fs| - 1];
      MessagesOf(fs[..|fs| - 1]) + if last.Message? then [last.data] else []
  }

  lemma MessagesOfSnoc(fs: seq<Frame>, f: Frame)
    ensures MessagesOf(fs + [f]) == MessagesOf(fs) + if f.Message? then [f.data] else []
  {
    assert (fs + [f])[..|fs|] == fs;
  }

  function InHand(r: Reader): seq<string> {
    if r.Forward? then [r.data] else []
  }

  /** The messages written are the messages received, in order; only a closed output loses any, and then
      only at the end. */
  predicate Forwarded(s: State) {
    MessagesOf(s.out.frames) <= s.c.received &&
    (s.out.open ==> MessagesOf(s.out.frames) + InHand(s.reader) == s.c.received) &&
    (Pending(s.reader) && (s.reader.Report? ==> !s.reader.frame.Message?))
  }

  lemma StepForwards(s: State, a: Action)
    requires Forwarded(s) && (s.reader.ReaderOff? <==> Stage(s.main) < 3) && Step(s, a).Some?
    ensures Forwarded(Step(s, a).value)
  {
    hide MessagesOf, MainStep, WriterStep, Stage;
    var t := Step(s, a).value;
    if Step(s, a) == MainStep(s, a) {
      MainForwards(s, a);
    } else if Step(s, a) == WriterStep(s, a) {
      WriterForwards(s, a);
    } else if t.out.frames != s.out.frames {
      MessagesOfSnoc(s.out.frames, t.out.frames[|s.out.frames|]);
      assert t.out.frames == s.out.frames + [t.out.frames[|s.out.frames|]];
    }
  }

  lemma MainForwards(s: State, a: Action)
    requires Forwarded(s) && (s.reader.ReaderOff? <==> Stage(s.main) < 3) && MainStep(s, a).Some?
    ensures Forwarded(MainStep(s, a).value)
  {
    hide MessagesOf;
    var t := MainStep(s, a).value;
    if t.out.frames != s.out.frames {
      MessagesOfSnoc(s.out.frames, t.out.frames[|s.out.frames|]);
      assert t.out.frames == s.out.frames + [t.out.frames[|s.out.frames|]];
    }
  }

  lemma WriterForwards(s: State, a: Action)
    requires Forwarded(s) && WriterStep(s, a).Some?
    ensures Forwarded(WriterStep(s, a).value)
  {
    hide MessagesOf;
    var t := WriterStep(s, a).value;
    if t.out.frames != s.out.frames {
      MessagesOfSnoc(s.out.frames, t.out.frames[|s.out.frames|]);
      assert t.out.frames == s.out.frames + [t.out.frames[|s.out.frames|]];
    }
  }

  /** Commands are executed in the order accepted, none is lost or repeated, and nothing follows a close. */
  predicate Obeyed(s: State) {
    s.c.accepted == s.c.executed + s.c.commands && |s.c.commands| <= CAPACITY &&
    (forall i :: 0 <= i < |s.c.executed| && s.c.executed[i].CloseWith? ==>
       i == |s.c.executed| - 1 && (s.writer.MarkClosing? || s.writer.Announce? || s.writer.WriteDone?))
  }

  lemma StepObeys(s: State, a: Action)
    requires Obeyed(s) && (s.writer.WriterOff? <==> Stage(s.main) < 4) && Step(s, a).Some?
    ensures Obeyed(Step(s, a).value)
  {
    hide Emit;
  }

  // ---- Main results --------------------------------------------------------------------------------

  predicate Inv(s: State) {
    Placed(s.main, s.reader, s.writer, s.c.closes) && Ready(s.main, s.writer, s.c.ready) &&
    Framed(s.out, s.main) && Forwarded(s) && Obeyed(s)
  }

  lemma StepKeepsInv(s: State, a: Action)
    requires Inv(s) && Step(s, a).Some?
    ensures Inv(Step(s, a).value)
    ensures s.c.ready <= Step(s, a).value.c.ready
  {
    hide Ready, Framed, Obeyed, Step, Stage;
    StepPlaces(s, a);
    StepFrames(s, a);
    StepForwards(s, a);
    StepObeys(s, a);
  }

  lemma ReachableInv(actions: seq<Action>)
    requires Run(Step, START, actions).Some?
    ensures Inv(Run(Step, START, actions).value)
  {
    hide Step;
    forall t, a | Inv(t) && Step(t, a).Some?
      ensures Inv(Step(t, a).value)
    {
      StepKeepsInv(t, a);
    }
    assert Inv(START);
    RunKeeps(Step, Inv, START, actions);
  }

  /** In every interleaving: a refused connection yields at most one frame, an error. Otherwise the first
      frame is the response, the second the opening, messages, closes and errors come only after them,
      and the end frame comes at most once and last. */
  lemma FramesInOrder(actions: seq<Action>, i: nat)
    requires Run(Step, START, actions).Some?
    requires i < |Run(Step, START, actions).value.out.frames|
    ensures var s := Run(Step, START, actions).value;
            var fs := s.out.frames;
            s.main == Leaving(false) || s.main == Finished(false)
            || (fs[0].Response? && (i == 1 ==> fs[i].Opened?) &&
                (i >= 2 ==> Inner(fs[i]) || (fs[i].End? && i == |fs| - 1)))
    ensures var s := Run(Step, START, actions).value;
            s.main == Leaving(false) || s.main == Finished(false) ==> |s.out.frames| == 1 && s.out.frames[0].Error?
  {
    hide Step, Run, MessagesOf;
    ReachableInv(actions);
    var s := Run(Step, START, actions).value;
    if Stage(s.main) > 0 {
      assert FrameAt(s.out.frames[0], 0, |s.out.frames|, Stage(s.main));
      assert FrameAt(s.out.frames[i], i, |s.out.frames|, Stage(s.main));
    }
  }

  /** When the main goroutine is done after a successful connection, both others have stopped, the close
      channel was closed exactly once, the connection is CLOSED, and an output still open ends with the
      end frame and carries exactly the messages received. */
  lemma FinishedIsComplete(actions: seq<Action>)
    requires Run(Step, START, actions).Some?
    requires Run(Step, START, actions).value.main == Finished(true)
    ensures var s := Run(Step, START, actions).value;
            s.reader.ReadDone? && s.writer.WriteDone? && s.c.closes == 1 && s.c.ready == 3 &&
            (s.out.open ==>
               s.out.frames != [] && s.out.frames[|s.out.frames| - 1].End? && MessagesOf(s.out.frames) == s.c.received)
  {
    hide Step, Run, MessagesOf, Obeyed, Streamed;
    ReachableInv(actions);
  }

  /** The close channel is closed at most once: closing it again would panic. */
  lemma ClosedAtMostOnce(actions: seq<Action>)
    requires Run(Step, START, actions).Some?
    ensures var s := Run(Step, START, actions).value;
            s.c.closes == if Stage(s.main) < 5 then 0 else 1
  {
    hide Step, Run, Framed, Forwarded, Obeyed;
    ReachableInv(actions);
  }

  predicate ReadyRises(s: State, t: State) {
    s.c.ready <= t.c.ready
  }

  /** The writer has taken a close command. */
  predicate TookClose(s: State) {
    exists i :: 0 <= i < |s.c.executed| && s.c.executed[i].CloseWith?
  }

  /** What ReadyState says: nothing before the connection is registered, OPEN from then on, CLOSING once a close
      command has been marked, CLOSED at the end. */
  predicate StateTold(s: State) {
    && (s.writer.MarkClosing? || s.writer.Announce? ==> TookClose(s))
    && (Stage(s.main) > 0 ==> s.c.ready > 0)
    && (s.c.ready > 0 ==>
          s.c.ready == if Stage(s.main) >= 7 then 3 else if TookClose(s) && !s.writer.MarkClosing? then 2 else 1)
  }

  lemma TakeTellsClose(s: State, a: Action)
    requires Step(s, a).Some?
    ensures var t := Step(s, a).value;
            TookClose(t) <==> TookClose(s) || (a.Take? && s.c.commands != [] && s.c.commands[0].CloseWith?)
  {
    hide Emit, Writes, MainStep, ReaderStep, OutsideStep;
    var t := Step(s, a).value;
    StepRecords(s, a);
    if TookClose(s) {
      var i :| 0 <= i < |s.c.executed| && s.c.executed[i].CloseWith?;
      assert t.c.executed[i] == s.c.executed[i];
    }
    if a.Take? {
      assert t.c.executed[|s.c.executed|] == s.c.commands[0];
    }
  }

  lemma StepTellsState(s: State, a: Action)
    requires Inv(s) && StateTold(s) && Step(s, a).Some?
    ensures StateTold(Step(s, a).value)
  {
    hide Framed, Forwarded, Emit, TookClose, Writes;
    TakeTellsClose(s, a);
    NoneAfterClose(s);
    if Step(s, a) == MainStep(s, a) {
      MainTellsState(s, a);
    } else if Step(s, a) == WriterStep(s, a) {
      WriterTellsState(s, a);
    }
  }

  lemma NoneAfterClose(s: State)
    requires Obeyed(s)
    ensures TookClose(s) ==> s.writer.MarkClosing? || s.writer.Announce? || s.writer.WriteDone?
  {
  }

  lemma MainTellsState(s: State, a: Action)
    requires Inv(s) && StateTold(s) && MainStep(s, a).Some?
    ensures TookClose(MainStep(s, a).value) <==> TookClose(s)
    ensures StateTold(MainStep(s, a).value)
  {
    hide Framed, Forwarded, Emit, Obeyed;
    assert MainStep(s, a).value.c.executed == s.c.executed;
    NoneAfterClose(s);
  }

  lemma WriterTellsState(s: State, a: Action)
    requires Inv(s) && StateTold(s) && WriterStep(s, a).Some?
    requires var t := WriterStep(s, a).value;
             TookClose(t) <==> TookClose(s) || (a.Take? && s.c.commands != [] && s.c.commands[0].CloseWith?)
    ensures StateTold(WriterStep(s, a).value)
  {
    hide Framed, Forwarded, Emit, TookClose;
    NoneAfterClose(s);
  }

  /** In every run ReadyState says exactly that. */
  lemma ReadyStateTold(actions: seq<Action>)
    requires Run(Step, START, actions).Some?
    ensures StateTold(Run(Step, START, actions).value)
  {
    assert Inv(START) && StateTold(START);
    hide Step, Framed, Forwarded, StateTold;
    var inv := (s: State) => Inv(s) && StateTold(s);
    forall t, a | inv(t) && Step(t, a).Some?
      ensures inv(Step(t, a).value)
    {
      StepKeepsInv(t, a);
      StepTellsState(t, a);
    }
    RunKeeps(Step, inv, START, actions);
  }

  /** ReadyState never decreases. */
  lemma ReadyStateMonotone(actions: seq<Action>, more: seq<Action>)
    requires Run(Step, START, actions + more).Some? && Run(Step, START, actions).Some?
    ensures Run(Step, START, actions).value.c.ready <= Run(Step, START, actions + more).value.c.ready
  {
    hide Step;
    ReachableInv(actions);
    RunConcat(Step, START, actions, more);
    forall t, a | Inv(t) && Step(t, a).Some?
      ensures Inv(Step(t, a).value) && ReadyRises(t, Step(t, a).value)
    {
      StepKeepsInv(t, a);
    }
    RunRelates(Step, Inv, ReadyRises, Run(Step, START, actions).value, more);
  }

  /** Commands reach the connection in the order in which the channel took them, and none after a close. */
  lemma CommandsInOrder(actions: seq<Action>, i: nat)
    requires Run(Step, START, actions).Some?
    ensures var s := Run(Step, START, actions).value;
            s.c.executed <= s.c.accepted && |s.c.accepted| - |s.c.executed| <= CAPACITY &&
            (i < |s.c.executed| && s.c.executed[i].CloseWith? ==> i == |s.c.executed| - 1)
  {
    hide Step, Run, Framed, Forwarded, Placed, Ready;
    ReachableInv(actions);
  }

  // ---- The frames, told by the actions -----------------------------------------------------------------------

  const INNER: Frame -> bool := (f: Frame) => Inner(f)

  /** The messages the connection delivered, in order. */
  function Delivered(actions: seq<Action>): seq<string> {
    if actions == [] then []
    else
      var last := actions[|actions| - 1];
      Delivered(actions[..|actions| - 1]) + if last.Receive? then [last.data] else []
  }

  function One(f: Frame, x: Frame): nat {
    if f == x then 1 else 0
  }

  /** How often an outcome of connecting or reading calls for frame `x`: for a refusal, a message, a normal close of
      the peer, or a read error. */
  function CallsFor(a: Action, x: Frame): nat {
    match a
    case Connect(ok, reason) => if ok then 0 else One(Error(reason), x)
    case Receive(data) => One(Message(data), x)
    case PeerCloses => One(Close(1000, "Connection closed normally"), x)
    case ReadFails(error) => One(Error(error), x)
    case _ => 0
  }

  function Called(actions: seq<Action>, x: Frame): nat {
    if actions == [] then 0
    else Called(actions[..|actions| - 1], x) + CallsFor(actions[|actions| - 1], x)
  }

  /** How each command went, in the order in which they were taken. */
  function Attempts(actions: seq<Action>): seq<Action> {
    if actions == [] then []
    else
      var last := actions[|actions| - 1];
      Attempts(actions[..|actions| - 1]) + if last.Take? then [last] else []
  }

  /** How often a command calls for frame `x`: an error for a send that failed, the announcement for a close, with
      code 1000 when none was given, and nothing for the others. */
  function Demands(cmd: Command, attempt: Action, x: Frame): nat {
    match cmd
    case Send(_) => if attempt.Take? && !attempt.sent then One(Error(attempt.failure), x) else 0
    case CloseWith(code, reason) => One(Close(if code == 0 then 1000 else code, reason), x)
    case _ => 0
  }

  function Demanded(executed: seq<Command>, attempts: seq<Action>, x: Frame): nat
    requires |executed| == |attempts|
  {
    if executed == [] then 0
    else
      var n := |executed| - 1;
      Demanded(executed[..n], attempts[..n], x) + Demands(executed[n], attempts[n], x)
  }

  function MainPart(m: Main, x: Frame): nat {
    if m.Refused? then One(Error(m.message), x) else 0
  }

  function ReaderPart(r: Reader, x: Frame): nat {
    match r
    case Forward(data) => One(Message(data), x)
    case Report(frame) => One(frame, x)
    case _ => 0
  }

  function WriterPart(w: Writer, x: Frame): nat {
    match w
    case Complain(message) => One(Error(message), x)
    case MarkClosing(code, reason) => One(Close(code, reason), x)
    case Announce(code, reason) => One(Close(code, reason), x)
    case _ => 0
  }

  /** How often `x` is decided on and not written yet. */
  function Unwritten(s: State, x: Frame): nat {
    MainPart(s.main, x) + ReaderPart(s.reader, x) + WriterPart(s.writer, x)
  }

  /** How often message, close or error frame `x` is in the output. */
  function Written(out: Output, x: Frame): nat {
    multiset(Keep(out.frames, INNER))[x]
  }

  /** What was called for or demanded has been written or is about to be; nothing else has; and only a closed
      output lost any of it. */
  ghost predicate Accounted(actions: seq<Action>, s: State) {
    && |s.c.executed| == |Attempts(actions)|
    && s.c.received == Delivered(actions)
    && (forall cmd :: cmd in s.c.accepted ==> Post(cmd) in actions)
    && (forall x :: Written(s.out, x) + Unwritten(s, x) <=
                    Called(actions, x) + Demanded(s.c.executed, Attempts(actions), x))
    && (s.out.open ==>
          forall x :: Written(s.out, x) + Unwritten(s, x) ==
                      Called(actions, x) + Demanded(s.c.executed, Attempts(actions), x))
  }

  lemma HistorySnoc(actions: seq<Action>, a: Action)
    ensures Delivered(actions + [a]) == Delivered(actions) + if a.Receive? then [a.data] else []
    ensures forall x :: Called(actions + [a], x) == Called(actions, x) + CallsFor(a, x)
    ensures Attempts(actions + [a]) == Attempts(actions) + if a.Take? then [a] else []
  {
    assert (actions + [a])[..|actions|] == actions;
  }

  lemma DemandedSnoc(executed: seq<Command>, attempts: seq<Action>, cmd: Command, a: Action)
    requires |executed| == |attempts|
    ensures forall x ::
              Demanded(executed + [cmd], attempts + [a], x) == Demanded(executed, attempts, x) + Demands(cmd, a, x)
  {
    assert (executed + [cmd])[..|executed|] == executed && (attempts + [a])[..|attempts|] == attempts;
  }

  lemma EmitWrites(out: Output, f: Frame, x: Frame)
    ensures Emit(out, f).open == out.open
    ensures Written(Emit(out, f), x) == Written(out, x) + if out.open && Inner(f) then One(f, x) else 0
  {
    hide Keep;
    if out.open {
      KeepConcat(out.frames, [f], INNER);
      KeepOne(f);
    }
  }

  lemma KeepOne(f: Frame)
    ensures Keep([f], INNER) == if Inner(f) then [f] else []
  {
    assert Keep([f], INNER) == (if Inner(f) then [f] else []) + Keep([f][1..], INNER);
  }

  /** Nothing is invented, and only a closed output loses anything. */
  ghost predicate Balanced(s: State, a: Action, t: State, x: Frame) {
    var news := CallsFor(a, x) + if a.Take? && s.c.commands != [] then Demands(s.c.commands[0], a, x) else 0;
    && Written(t.out, x) + Unwritten(t, x) <= Written(s.out, x) + Unwritten(s, x) + news
    && (t.out.open ==> s.out.open && Written(t.out, x) + Unwritten(t, x) == Written(s.out, x) + Unwritten(s, x) + news)
  }

  lemma MainBalances(s: State, a: Action, x: Frame)
    requires MainStep(s, a).Some?
    requires (s.reader.ReaderOff? <==> Stage(s.main) < 3) && (s.writer.WriterOff? <==> Stage(s.main) < 4)
    ensures Balanced(s, a, MainStep(s, a).value, x)
  {
    hide Emit, Written, One;
    EmitWrites(s.out, if s.main.Refused? then Error(s.main.message) else if s.main.Responding? then Response
                      else if s.main.Opening? then Opened else End, x);
  }

  lemma ReaderBalances(s: State, a: Action, x: Frame)
    requires ReaderStep(s, a).Some? && Pending(s.reader)
    ensures Balanced(s, a, ReaderStep(s, a).value, x)
  {
    hide Emit, Written, One;
    EmitWrites(s.out, if s.reader.Forward? then Message(s.reader.data)
                      else if s.reader.Report? then s.reader.frame else End, x);
  }

  lemma WriterBalances(s: State, a: Action, x: Frame)
    requires WriterStep(s, a).Some?
    ensures Balanced(s, a, WriterStep(s, a).value, x)
  {
    hide Emit, Written, One;
    EmitWrites(s.out, if s.writer.Complain? then Error(s.writer.message)
                      else if s.writer.Announce? then Close(s.writer.code, s.writer.reason) else End, x);
  }

  lemma OutsideBalances(s: State, a: Action, x: Frame)
    requires OutsideStep(s, a).Some?
    ensures Balanced(s, a, OutsideStep(s, a).value, x)
  {
    hide One, Keep;
  }

  lemma StepBalances(s: State, a: Action, x: Frame)
    requires Step(s, a).Some? && Pending(s.reader)
    requires (s.reader.ReaderOff? <==> Stage(s.main) < 3) && (s.writer.WriterOff? <==> Stage(s.main) < 4)
    ensures Balanced(s, a, Step(s, a).value, x)
  {
    hide MainStep, ReaderStep, WriterStep, OutsideStep, Balanced, Stage, Writes, Full;
    if Step(s, a) == MainStep(s, a) {
      MainBalances(s, a, x);
    } else if Step(s, a) == ReaderStep(s, a) {
      ReaderBalances(s, a, x);
    } else if Step(s, a) == WriterStep(s, a) {
      WriterBalances(s, a, x);
    } else {
      OutsideBalances(s, a, x);
    }
  }

  /** What a step records. */
  lemma StepRecords(s: State, a: Action)
    requires Step(s, a).Some?
    ensures var t := Step(s, a).value;
            && t.c.received == s.c.received + (if a.Receive? then [a.data] else [])
            && (a.Take? ==> s.c.commands != [] && t.c.executed == s.c.executed + [s.c.commands[0]])
            && (!a.Take? ==> t.c.executed == s.c.executed)
            && (forall cmd :: cmd in t.c.accepted ==> cmd in s.c.accepted || a == Post(cmd))
  {
    hide Emit, Writes;
  }

  lemma StepAccounts(actions: seq<Action>, s: State, a: Action)
    requires Accounted(actions, s) && Inv(s) && Step(s, a).Some?
    ensures Accounted(actions + [a], Step(s, a).value)
  {
    hide Step, Framed, Ready, Obeyed, Written, Unwritten, CallsFor, Demands, Called, Demanded, Delivered, Attempts,
         MessagesOf, Stage;
    HistorySnoc(actions, a);
    StepRecords(s, a);
    if a.Take? {
      DemandedSnoc(s.c.executed, Attempts(actions), s.c.commands[0], a);
    }
    assert s.c.received + [] == s.c.received && Attempts(actions) + [] == Attempts(actions);
    var t := Step(s, a).value;
    assert forall cmd :: cmd in t.c.accepted ==> Post(cmd) in actions + [a];
    forall x
      ensures Balanced(s, a, t, x)
      ensures Called(actions + [a], x) == Called(actions, x) + CallsFor(a, x)
      ensures Demanded(t.c.executed, Attempts(actions + [a]), x) ==
              Demanded(s.c.executed, Attempts(actions), x) + if a.Take? then Demands(s.c.commands[0], a, x) else 0
    {
      StepBalances(s, a, x);
    }
  }

  lemma {:induction false} RunAccounts(actions: seq<Action>)
    requires Run(Step, START, actions).Some?
    ensures Accounted(actions, Run(Step, START, actions).value)
    decreases |actions|
  {
    hide Run, Step, Inv, Accounted;
    if actions == [] {
      RunEmpty(Step, START);
      NothingYet();
    } else {
      var front := actions[..|actions| - 1];
      RunSnoc(Step, START, actions);
      RunAccounts(front);
      ReachableInv(front);
      StepAccounts(front, Run(Step, START, front).value, actions[|actions| - 1]);
      assert actions == front + [actions[|actions| - 1]];
    }
  }

  lemma NothingYet()
    ensures Accounted([], START)
  {
  }

  /** Over every run, told by its actions: the messages handled are those delivered, every command taken was posted,
      and a finished dispatch on an open output carries each message, close and error frame exactly as often as a
      message, refusal, read error, normal close of the peer, failed send or executed close called for it. A closed
      output can only lose some. */
  lemma FramesAccountedFor(actions: seq<Action>, x: Frame)
    requires Run(Step, START, actions).Some?
    ensures var s := Run(Step, START, actions).value;
            && s.c.received == Delivered(actions)
            && (forall cmd :: cmd in s.c.executed ==> Post(cmd) in actions)
            && |s.c.executed| == |Attempts(actions)|
            && var due := Called(actions, x) + Demanded(s.c.executed, Attempts(actions), x);
               multiset(Keep(s.out.frames, INNER))[x] <= due &&
               (s.main.Finished? && s.out.open ==> multiset(Keep(s.out.frames, INNER))[x] == due)
  {
    hide Run, Step, Called, Demanded, Attempts, Delivered, Keep, Framed, Ready, CallsFor, Demands;
    RunAccounts(actions);
    ReachableInv(actions);
    var s := Run(Step, START, actions).value;
    assert forall cmd :: cmd in s.c.executed ==> cmd in s.c.accepted;
  }

  /** A command posted while there is room in the channel is accepted behind the others; otherwise it is dropped. */
  lemma PostAccepted(s: State, cmd: Command)
    requires s.c.registered
    ensures Step(s, Post(cmd)).Some?
    ensures var t := Step(s, Post(cmd)).value;
            t.c.commands == (if |s.c.commands| < 100 then s.c.commands + [cmd] else s.c.commands) &&
            t.c.accepted == (if |s.c.commands| < 100 then s.c.accepted + [cmd] else s.c.accepted)
  {
  }

  /** Nothing but its two ends can hold the dispatcher up: unless it is done, its reader waits for the peer
      or its output waits for the client, one of its three goroutines can move. */
  lemma OnlyTheEndsBlock(s: State) returns (a: Action)
    requires Inv(s) && !s.main.Finished? && !s.reader.Reading? && !Full(s.out)
    ensures Step(s, a).Some? && !a.Cancel? && !a.Post? && !a.CloseOutput? && !a.ClientReads?
  {
    hide Emit, Framed, Forwarded, Obeyed, Ready;
    if s.reader.Forward? || s.reader.Report? {
      a := ReaderEmits;
    } else if s.main.Connecting? {
      a := Connect(true, "");
    } else if s.main.Selecting? {
      a := SeeRead;
    } else if s.main.Awaiting? && s.main.write && !s.main.read && !s.writer.WriteDone? {
      a := if s.writer.Choosing? then SeeClosed else WriterMoves;
    } else {
      a := Advance;
    }
  }
}
